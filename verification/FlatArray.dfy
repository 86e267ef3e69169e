/** The flat picture of a ByteArray. */
module FlatArray {
  import opened Bytes

  /**
   * One byte sequence as long as the capacity, a cursor, and the number of bytes that count as
   * written. No nodes, no cached pointer.
   */
  datatype Flat = Flat(data: seq<Byte>, pos: nat, size: nat) {
    ghost predicate Valid() { pos <= size <= |data| }

    /** What the cursor still has in front of it. */
    function Unread(): (r: seq<Byte>)
      requires Valid()
      ensures |r| == size - pos
    {
      data[pos..size]
    }

    /** Everything written so far. */
    function Contents(): (r: seq<Byte>)
      requires Valid()
      ensures |r| == size
    {
      data[..size]
    }

    function Room(): nat
      requires Valid()
    {
      |data| - pos
    }
  }

  function Max(a: nat, b: nat): nat {
    if a < b then b else a
  }

  /** The nodes the source adds for `size` bytes when `room` bytes are left before the end. */
  function NodesAdded(base: nat, room: nat, size: nat): (n: nat)
    requires base > 0
  {
    if size <= room then 0
    else (size - room) / base + (if (size - room) % base > room then 1 else 0)
  }

  /** Adding nodes one at a time until `size` bytes fit. */
  function NodesNeeded(base: nat, room: nat, size: nat): (n: nat)
    requires base > 0
    decreases size - room
  {
    if size <= room then 0 else 1 + NodesNeeded(base, room + base, size)
  }

  /** The guard under which the growth stops one node short. */
  predicate ShortGrowth(base: nat, room: nat, size: nat)
    requires base > 0
  {
    size > room && 0 < (size - room) % base <= room
  }

  /** NodesNeeded is the least number of nodes with room for `size` bytes. */
  lemma {:induction false} NodesNeededIsLeast(base: nat, room: nat, size: nat, count: nat)
    requires base > 0
    ensures room + Span(count, base) >= size <==> count >= NodesNeeded(base, room, size)
    decreases size - room
  {
    if size > room && count > 0 {
      NodesNeededIsLeast(base, room + base, size, count - 1);
    }
  }

  /** The nodes needed are the missing bytes divided by the node size, rounded up. */
  lemma {:induction false} NodesNeededIsCeiling(base: nat, room: nat, size: nat)
    requires base > 0
    ensures size > room ==> NodesNeeded(base, room, size) == (size - room + base - 1) / base
  {
    if size > room {
      var n := (size - room + base - 1) / base;
      SpanIsProduct(n, base);
      SpanIsProduct(n - 1, base);
      assert size - room + base - 1 == n * base + (size - room + base - 1) % base;
      assert (n - 1) * base == n * base - base;
      NodesNeededIsLeast(base, room, size, n);
      NodesNeededIsLeast(base, room, size, n - 1);
    }
  }

  /** Growth is the ceiling or one less, and it is one less exactly under the guard. */
  lemma {:induction false} GrowthVersusCeiling(base: nat, room: nat, size: nat)
    requires base > 0
    ensures NodesNeeded(base, room, size)
         == NodesAdded(base, room, size) + if ShortGrowth(base, room, size) then 1 else 0
  {
    if size > room {
      var q, r := (size - room) / base, (size - room) % base;
      SpanIsProduct(q, base);
      assert size - room == q * base + r;
      NodesNeededIsLeast(base, room, size, q);
      NodesNeededIsLeast(base, room, size, q + 1);
      if q > 0 {
        NodesNeededIsLeast(base, room, size, q - 1);
      }
    }
  }

  /** The grown array has room for `size` bytes exactly when the guard is off. */
  lemma {:induction false} GrowthSufficesIff(base: nat, room: nat, size: nat)
    requires base > 0
    ensures room + Span(NodesAdded(base, room, size), base) >= size <==> !ShortGrowth(base, room, size)
  {
    GrowthVersusCeiling(base, room, size);
    NodesNeededIsLeast(base, room, size, NodesAdded(base, room, size));
  }

  /** The same for a chain that already has `k` nodes. */
  lemma {:induction false} GrowthOutcome(base: nat, k: nat, room: nat, size: nat)
    requires base > 0
    ensures Span(k + NodesAdded(base, room, size), base) == Span(k, base) + Span(NodesAdded(base, room, size), base)
    ensures ShortGrowth(base, room, size) <==> room + Span(NodesAdded(base, room, size), base) < size
    ensures !ShortGrowth(base, room, size) ==> NodesAdded(base, room, size) == NodesNeeded(base, room, size)
  {
    GrowthSufficesIff(base, room, size);
    GrowthVersusCeiling(base, room, size);
    SpanAdd(k, NodesAdded(base, room, size), base);
  }

  /** Two bytes at position 1 of a fresh array of two-byte nodes: the growth adds nothing. */
  lemma {:induction false} GrowthCanFallShort()
    ensures NodesAdded(2, 1, 2) == 0 && NodesNeeded(2, 1, 2) == 1
  {
  }

  // The operations on the flat picture. Growth exposes bytes nobody has written, so a write is a
  // relation: it fixes everything except those.

  ghost predicate WriteStep(base: nat, f: Flat, bytes: seq<Byte>, f': Flat)
    requires f.Valid() && base > 0
  {
    && f'.Valid()
    && |f'.data| == |f.data| + Span(NodesNeeded(base, f.Room(), |bytes|), base)
    && f'.pos == f.pos + |bytes| <= |f'.data|
    && f'.size == Max(f.size, f'.pos)
    && f'.data[..f.pos] == f.data[..f.pos]
    && f'.data[f.pos..f'.pos] == bytes
    && (forall k :: f'.pos <= k < |f.data| ==> f'.data[k] == f.data[k])
  }

  lemma {:induction false} EmptyWrite(base: nat, f: Flat)
    requires f.Valid() && base > 0
    ensures WriteStep(base, f, [], f)
  {
  }

  /** Growing and then overwriting in place is a write. */
  lemma {:induction false} SpliceIsWrite(base: nat, f: Flat, grown: seq<Byte>, bytes: seq<Byte>, f': Flat)
    requires f.Valid() && base > 0 && f.data <= grown
    requires |grown| == |f.data| + Span(NodesNeeded(base, f.Room(), |bytes|), base)
    requires f.pos + |bytes| == f'.pos <= |grown| && f'.size == Max(f.size, f'.pos)
    requires f'.data == Splice(grown, f.pos, bytes)
    ensures WriteStep(base, f, bytes, f')
  {
  }

  function MoveTo(f: Flat, v: nat): (f': Flat)
    requires f.Valid() && v <= |f.data|
    ensures f'.Valid()
  {
    Flat(f.data, v, Max(f.size, v))
  }

  /** The written bytes after putting `bytes` at the cursor: overwrite in place, append the rest. */
  function Overwritten(f: Flat, bytes: seq<Byte>): seq<Byte>
    requires f.Valid()
  {
    f.Contents()[..f.pos] + bytes + (if f.pos + |bytes| < f.size then f.Contents()[f.pos + |bytes|..] else [])
  }

  lemma {:induction false} OverwrittenTwice(f: Flat, a: seq<Byte>, f1: Flat, b: seq<Byte>)
    requires f.Valid() && f1.Valid() && f1.Contents() == Overwritten(f, a) && f1.pos == f.pos + |a|
    ensures Overwritten(f1, b) == Overwritten(f, a + b)
  {
    var left, right := Overwritten(f1, b), Overwritten(f, a + b);
    assert f1.Contents()[..f1.pos] == f.Contents()[..f.pos] + a;
    if f.pos + |a| < f.size {
      assert f1.Contents()[f1.pos..] == f.Contents()[f.pos + |a|..];
    }
  }

  lemma {:induction false} WriteStepContents(base: nat, f: Flat, bytes: seq<Byte>, f': Flat)
    requires f.Valid() && base > 0 && WriteStep(base, f, bytes, f')
    ensures f'.Contents() == Overwritten(f, bytes)
  {
    var right := Overwritten(f, bytes);
    assert f'.data == f'.data[..f.pos] + f'.data[f.pos..f'.pos] + f'.data[f'.pos..];
    forall k | 0 <= k < |right| ensures f'.Contents()[k] == right[k] {
      if k < f.pos {
        assert f'.data[..f.pos][k] == f.data[..f.pos][k];
      } else if k < f'.pos {
        assert f'.data[f.pos..f'.pos][k - f.pos] == bytes[k - f.pos];
      }
    }
  }

  /** Filling memory behind the cursor and then moving the cursor over it has the contents of a write. */
  lemma {:induction false} FillThenMove(f: Flat, grown: seq<Byte>, bytes: seq<Byte>, f': Flat)
    requires f.Valid() && f.data <= grown && f.pos + |bytes| <= |grown|
    requires f' == MoveTo(Flat(Splice(grown, f.pos, bytes), f.pos, f.size), f.pos + |bytes|)
    ensures f'.Contents() == Overwritten(f, bytes)
  {
    assert f'.data == grown[..f.pos] + bytes + grown[f'.pos..];
  }
}
