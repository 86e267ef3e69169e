/** The typed readers and writers of bytearray.cpp on top of the raw read and write. */
module TypedArrays {
  import opened Bytes
  import opened FlatArray
  import opened Codec
  import opened TypedValues
  import opened ByteArrays

  // Which sequences of write() calls go through.

  /** The capacity after a write of `n` bytes that does not fall short. */
  function Grown(base: nat, pos: nat, cap: nat, n: nat): (cap': nat)
    requires base > 0 && pos <= cap
    ensures cap <= cap' && pos + n <= cap'
  {
    NodesNeededIsLeast(base, cap - pos, n, NodesNeeded(base, cap - pos, n));
    cap + Span(NodesNeeded(base, cap - pos, n), base)
  }

  /** None of the write() calls on `chunks` falls short, from a cursor `pos` in an array of `cap` bytes. */
  predicate WritesFit(base: nat, pos: nat, cap: nat, chunks: seq<seq<Byte>>)
    requires base > 0 && pos <= cap
    decreases |chunks|
  {
    chunks == [] ||
    (!ShortGrowth(base, cap - pos, |chunks[0]|) &&
     WritesFit(base, pos + |chunks[0]|, Grown(base, pos, cap, |chunks[0]|), chunks[1..]))
  }

  function CapAfter(base: nat, pos: nat, cap: nat, chunks: seq<seq<Byte>>): (cap': nat)
    requires base > 0 && pos <= cap
    ensures pos + |Concat(chunks)| <= cap'
    decreases |chunks|
  {
    if chunks == [] then cap
    else CapAfter(base, pos + |chunks[0]|, Grown(base, pos, cap, |chunks[0]|), chunks[1..])
  }

  lemma {:induction false} WritesFitAppend(base: nat, pos: nat, cap: nat, a: seq<seq<Byte>>, b: seq<seq<Byte>>)
    requires base > 0 && pos <= cap
    ensures WritesFit(base, pos, cap, a + b)
       <==> WritesFit(base, pos, cap, a) && WritesFit(base, pos + |Concat(a)|, CapAfter(base, pos, cap, a), b)
    ensures CapAfter(base, pos, cap, a + b) == CapAfter(base, pos + |Concat(a)|, CapAfter(base, pos, cap, a), b)
    decreases |a|
  {
    if a == [] {
      assert a + b == b;
    } else {
      assert (a + b)[1..] == a[1..] + b && (a + b)[0] == a[0];
      var pos', cap' := pos + |a[0]|, Grown(base, pos, cap, |a[0]|);
      WritesFitAppend(base, pos', cap', a[1..], b);
      assert pos + |Concat(a)| == pos' + |Concat(a[1..])|;
    }
  }

  /**
   * In an array of whole nodes a write falls short exactly when it crosses the end of memory and
   * leaves in its last node a part that is not empty and no longer than the room there was.
   */
  lemma {:induction false} ShortGrowthAtBoundary(base: nat, nodes: nat, pos: nat, n: nat)
    requires base > 0 && pos <= Span(nodes, base)
    ensures ShortGrowth(base, Span(nodes, base) - pos, n)
       <==> pos + n > Span(nodes, base) && 0 < (pos + n) % base <= Span(nodes, base) - pos
  {
    if pos + n > Span(nodes, base) {
      var over := pos + n - Span(nodes, base);
      var q := over / base;
      SpanIsProduct(q, base);
      assert over == Span(q, base) + over % base;
      SpanAdd(nodes, q, base);
      BlockOfPosition(pos + n, base, nodes + q, over % base);
    }
  }

  /** One-byte nodes, the size test_bytearray.cpp uses, never fall short. */
  lemma {:induction false} OneByteNodesFit(pos: nat, cap: nat, chunks: seq<seq<Byte>>)
    requires pos <= cap
    ensures WritesFit(1, pos, cap, chunks)
    decreases |chunks|
  {
    if chunks != [] {
      OneByteNodesFit(pos + |chunks[0]|, Grown(1, pos, cap, |chunks[0]|), chunks[1..]);
    }
  }

  /** The nodes are no more than the bytes up to `pos` call for. */
  ghost predicate Tight(base: nat, pos: nat, cap: nat) {
    exists n :: n >= 1 && TightNodes(base, pos, cap, n)
  }

  predicate TightNodes(base: nat, pos: nat, cap: nat, n: nat) {
    cap == Span(n, base) && pos <= cap && (n > 1 ==> Span(n - 1, base) < pos)
  }

  lemma {:induction false} TightStays(base: nat, pos: nat, cap: nat, chunks: seq<seq<Byte>>)
    requires base > 0 && pos <= cap && Tight(base, pos, cap)
    ensures Tight(base, pos + |Concat(chunks)|, CapAfter(base, pos, cap, chunks))
    decreases |chunks|
  {
    if chunks != [] {
      var len := |chunks[0]|;
      TightGrows(base, pos, cap, len);
      TightStays(base, pos + len, Grown(base, pos, cap, len), chunks[1..]);
      assert pos + |Concat(chunks)| == (pos + len) + |Concat(chunks[1..])|;
    }
  }

  lemma {:induction false} TightGrows(base: nat, pos: nat, cap: nat, len: nat)
    requires base > 0 && pos <= cap && Tight(base, pos, cap)
    ensures Tight(base, pos + len, Grown(base, pos, cap, len))
  {
    var n :| n >= 1 && TightNodes(base, pos, cap, n);
    var more := NodesNeeded(base, cap - pos, len);
    SpanAdd(n, more, base);
    if more > 0 {
      NodesNeededIsLeast(base, cap - pos, len, more - 1);
      SpanAdd(n, more - 1, base);
    }
    assert TightNodes(base, pos + len, Grown(base, pos, cap, len), n + more);
  }

  /** Such an array is full exactly when its bytes fill whole nodes. */
  lemma {:induction false} TightIsFull(base: nat, pos: nat, cap: nat)
    requires base > 0 && Tight(base, pos, cap)
    ensures pos == cap <==> pos > 0 && pos % base == 0
  {
    var n :| n >= 1 && TightNodes(base, pos, cap, n);
    SpanIsProduct(n, base);
    BlockOfPosition(cap, base, n, 0);
    SpanMonotone(1, n, base);
    if pos > 0 && pos % base == 0 {
      WholeNodes(base, pos, n);
    }
  }

  /** Whole nodes that need at most `n` and more than one fewer are exactly `n`. */
  lemma {:induction false} WholeNodes(base: nat, pos: nat, n: nat)
    requires base > 0 && n >= 1 && pos > 0 && pos % base == 0
    requires pos <= Span(n, base) && (n > 1 ==> pos > Span(n - 1, base))
    ensures pos == Span(n, base)
  {
    var q := pos / base;
    SpanIsProduct(q, base);
    assert pos == Span(q, base);
    if q < n {
      SpanMonotone(q, n - 1, base);
    } else if q > n {
      SpanMonotone(n, q, base);
    }
  }

  /** The room behind the cursor in such an array. */
  function RoomAt(base: nat, pos: nat): nat
    requires base > 0
  {
    if pos == 0 then base else if pos % base == 0 then 0 else base - pos % base
  }

  /**
   * A write() of `n` bytes at `pos` falls short: it crosses the end of the memory and leaves in its
   * last node a part that is not empty and no longer than the room there was.
   */
  predicate FallsShortAt(base: nat, pos: nat, n: nat)
    requires base > 0
  {
    n > RoomAt(base, pos) && 0 < (pos + n) % base <= RoomAt(base, pos)
  }

  lemma {:induction false} TightRoom(base: nat, pos: nat, cap: nat)
    requires base > 0 && Tight(base, pos, cap)
    ensures cap - pos == RoomAt(base, pos)
  {
    var n :| n >= 1 && TightNodes(base, pos, cap, n);
    if pos > 0 && pos % base == 0 {
      WholeNodes(base, pos, n);
    } else if pos > 0 {
      PartOfNode(base, pos, n);
    }
  }

  lemma {:induction false} PartOfNode(base: nat, pos: nat, n: nat)
    requires base > 0 && n >= 1 && pos % base != 0 && Span(n - 1, base) <= pos <= Span(n, base)
    ensures Span(n, base) - pos == base - pos % base
  {
    var r := pos - Span(n - 1, base);
    if r == base {
      BlockOfPosition(pos, base, n, 0);
    } else {
      BlockOfPosition(pos, base, n - 1, r);
    }
  }

  /** Which write() calls go through, from their lengths and places alone. */
  lemma {:induction false} WritesFitIff(base: nat, pos: nat, cap: nat, chunks: seq<seq<Byte>>)
    requires base > 0 && pos <= cap && Tight(base, pos, cap)
    ensures WritesFit(base, pos, cap, chunks) <==>
              forall k :: 0 <= k < |chunks| ==> !FallsShortAt(base, pos + |Concat(chunks[..k])|, |chunks[k]|)
    decreases |chunks|
  {
    hide FallsShortAt, Tight, ShortGrowth, Concat, Grown;
    if chunks != [] {
      var n, rest := |chunks[0]|, chunks[1..];
      FirstFitsIff(base, pos, cap, n);
      TightGrows(base, pos, cap, n);
      WritesFitIff(base, pos + n, Grown(base, pos, cap, n), rest);
      forall k | 0 <= k < |chunks|
        ensures |Concat(chunks[..k])| == if k == 0 then 0 else n + |Concat(rest[..k - 1])|
      {
        PrefixLength(chunks, k);
      }
      assert forall k :: 0 <= k < |rest| ==> rest[k] == chunks[k + 1];
    }
  }

  lemma {:induction false} PrefixLength(chunks: seq<seq<Byte>>, k: nat)
    requires k < |chunks|
    ensures |Concat(chunks[..k])| == if k == 0 then 0 else |chunks[0]| + |Concat(chunks[1..][..k - 1])|
  {
    if k > 0 {
      assert chunks[..k][0] == chunks[0] && chunks[..k][1..] == chunks[1..][..k - 1];
    }
  }

  lemma {:induction false} FirstFitsIff(base: nat, pos: nat, cap: nat, n: nat)
    requires base > 0 && pos <= cap && Tight(base, pos, cap)
    ensures ShortGrowth(base, cap - pos, n) <==> FallsShortAt(base, pos, n)
  {
    var nodes :| nodes >= 1 && TightNodes(base, pos, cap, nodes);
    TightRoom(base, pos, cap);
    ShortGrowthAtBoundary(base, nodes, pos, n);
  }

  /** The same for an array that has just been made. */
  lemma {:induction false} FreshWritesFitIff(base: nat, chunks: seq<seq<Byte>>)
    requires base > 0
    ensures WritesFit(base, 0, base, chunks) <==>
              forall k :: 0 <= k < |chunks| ==> !FallsShortAt(base, |Concat(chunks[..k])|, |chunks[k]|)
  {
    assert TightNodes(base, 0, base, 1);
    WritesFitIff(base, 0, base, chunks);
    assert forall k :: 0 <= k < |chunks| ==> 0 + |Concat(chunks[..k])| == |Concat(chunks[..k])|;
  }

  // Writers. Each reports a fault exactly when one of its write() calls falls short.

  /** `f'` is what `f` becomes by writing `b` in one go. */
  ghost predicate Put(base: nat, f: Flat, b: seq<Byte>, f': Flat)
    requires base > 0 && f.Valid()
  {
    && f'.Valid()
    && f'.Contents() == Overwritten(f, b)
    && f'.pos == f.pos + |b|
    && |f'.data| == Grown(base, f.pos, |f.data|, |b|)
  }

  method WriteBytes(ba: ByteArray, b: seq<Byte>) returns (fault: bool)
    requires ba.Valid()
    modifies ba, ba.chain, ba.Buffers()
    ensures fault <==> ShortGrowth(ba.baseSize, old(ba.View().Room()), |b|)
    ensures !fault ==> ba.Valid() && Put(ba.baseSize, old(ba.View()), b, ba.View())
    ensures forall n <- ba.chain :: n in old(ba.chain) || (fresh(n) && fresh(n.ptr))
    ensures ba.order == old(ba.order)
  {
    ghost var f := ba.View();
    fault := ba.Write(b);
    if !fault {
      WriteStepContents(ba.baseSize, f, b, ba.View());
    }
  }

  /** The varint loop over a scratch buffer of five or ten bytes. */
  method Pack(value: nat, w: nat) returns (b: seq<Byte>)
    requires w in {4, 8} && value < VarModulus(w)
    ensures b == VarintBytes(value)
  {
    VarintFitsScratch(value);
    var tmp := new Byte[Groups(w)];
    var i, v := 0, value;
    while v >= 0x80
      invariant 0 <= i && v >= 0 && i + |VarintBytes(v)| <= tmp.Length
      invariant tmp[..i] + VarintBytes(v) == VarintBytes(value)
    {
      tmp[i] := v % 128 + 128;
      i := i + 1;
      v := v / 128;
    }
    tmp[i] := v;
    b := tmp[..i + 1];
  }

  /** byteswap on a host of the other order, then the memory image of the value. */
  method Image(value: nat, w: nat, order: Endian, host: Endian) returns (b: seq<Byte>)
    requires value < Pow256(w)
    ensures b == Ordered(value, w, order)
  {
    FixedBytesHostFree(value, w, order, host);
    var v := if order != host then ByteSwap(value, w) else value;
    b := Memory(v, w, host);
  }

  method HeadBytes(i: Item, order: Endian, host: Endian) returns (b: seq<Byte>)
    requires WellTyped(i)
    ensures b == Head(i, order)
  {
    match i.kind {
      case Fuint(w) => b := Image(i.value.n, w, order, host);
      case Fint(w) => b := Image(ToUnsigned(i.value.n, Pow256(w)), w, order, host);
      case Uint(w) => b := Pack(i.value.n, w);
      case Int(w) => b := Pack(EncodeZigzag(i.value.n, VarModulus(w)), w);
      case StringF(w) => b := Image(|i.value.s| % Pow256(w), w, order, host);
      case StringVint => b := Pack(|i.value.s|, 8);
    }
  }

  /** `f'` is what `f` becomes by the one or two write() calls of an item. */
  ghost predicate PutItem(base: nat, f: Flat, i: Item, order: Endian, f': Flat)
    requires base > 0 && f.Valid() && WellTyped(i)
  {
    && f'.Valid()
    && f'.Contents() == Overwritten(f, Encode(i, order))
    && f'.pos == f.pos + |Encode(i, order)|
    && |f'.data| == CapAfter(base, f.pos, |f.data|, [Head(i, order), Body(i)])
  }

  predicate ItemFits(base: nat, f: Flat, i: Item, order: Endian)
    requires base > 0 && f.Valid() && WellTyped(i)
  {
    WritesFit(base, f.pos, |f.data|, [Head(i, order), Body(i)])
  }

  lemma {:induction false} HeadFits(base: nat, f: Flat, i: Item, order: Endian)
    requires base > 0 && f.Valid() && WellTyped(i) && ItemFits(base, f, i, order)
    ensures !ShortGrowth(base, f.Room(), |Head(i, order)|)
  {
    TwoChunks(base, f.pos, |f.data|, Head(i, order), Body(i));
  }

  lemma {:induction false} HeadThenBody(base: nat, f: Flat, i: Item, order: Endian, f1: Flat)
    requires base > 0 && f.Valid() && WellTyped(i) && f1.Valid()
    requires !ShortGrowth(base, f.Room(), |Head(i, order)|) && Put(base, f, Head(i, order), f1)
    ensures ItemFits(base, f, i, order) <==> !ShortGrowth(base, f1.Room(), |Body(i)|)
    ensures Body(i) == [] ==> ItemFits(base, f, i, order) && PutItem(base, f, i, order, f1)
  {
    TwoChunks(base, f.pos, |f.data|, Head(i, order), Body(i));
    NoGrowth(base, f1.pos, |f1.data|);
    if Body(i) == [] {
      assert Encode(i, order) == Head(i, order);
    }
  }

  lemma {:induction false} BodyAfterHead(base: nat, f: Flat, i: Item, order: Endian, f1: Flat, f': Flat)
    requires base > 0 && f.Valid() && WellTyped(i) && f1.Valid()
    requires Put(base, f, Head(i, order), f1) && Put(base, f1, Body(i), f')
    ensures PutItem(base, f, i, order, f')
  {
    TwoChunks(base, f.pos, |f.data|, Head(i, order), Body(i));
    OverwrittenTwice(f, Head(i, order), f1, Body(i));
  }

  /** writeFint8 to writeStringVint: a number, or a length prefix and a text. */
  method WriteValue(ba: ByteArray, i: Item, host: Endian) returns (fault: bool)
    requires ba.Valid() && WellTyped(i)
    modifies ba, ba.chain, ba.Buffers()
    ensures fault <==> !ItemFits(ba.baseSize, old(ba.View()), i, old(ba.order))
    ensures !fault ==> ba.Valid() && PutItem(ba.baseSize, old(ba.View()), i, old(ba.order), ba.View())
    ensures forall n <- ba.chain :: n in old(ba.chain) || (fresh(n) && fresh(n.ptr))
    ensures ba.order == old(ba.order)
  {
    ghost var f, order := ba.View(), ba.order;
    var first := HeadBytes(i, ba.order, host);
    fault := WriteBytes(ba, first);
    if fault {
      if ItemFits(ba.baseSize, f, i, order) {
        HeadFits(ba.baseSize, f, i, order);
      }
    } else {
      ghost var f1 := ba.View();
      HeadThenBody(ba.baseSize, f, i, order, f1);
      if i.value.Text? {
        fault := WriteBytes(ba, i.value.s);
        if !fault {
          BodyAfterHead(ba.baseSize, f, i, order, f1, ba.View());
        }
      }
    }
  }

  lemma {:induction false} NoGrowth(base: nat, pos: nat, cap: nat)
    requires base > 0 && pos <= cap
    ensures Grown(base, pos, cap, 0) == cap && !ShortGrowth(base, cap - pos, 0)
  {
  }

  lemma {:induction false} OneChunk(base: nat, pos: nat, cap: nat, b: seq<Byte>)
    requires base > 0 && pos <= cap
    ensures WritesFit(base, pos, cap, [b]) <==> !ShortGrowth(base, cap - pos, |b|)
    ensures CapAfter(base, pos, cap, [b]) == Grown(base, pos, cap, |b|)
    ensures Concat([b]) == b
  {
    assert [b][1..] == [];
  }

  lemma {:induction false} TwoChunks(base: nat, pos: nat, cap: nat, a: seq<Byte>, b: seq<Byte>)
    requires base > 0 && pos <= cap
    ensures WritesFit(base, pos, cap, [a, b])
       <==> !ShortGrowth(base, cap - pos, |a|) &&
            !ShortGrowth(base, Grown(base, pos, cap, |a|) - (pos + |a|), |b|)
    ensures CapAfter(base, pos, cap, [a, b]) == Grown(base, pos + |a|, Grown(base, pos, cap, |a|), |b|)
    ensures Concat([a, b]) == a + b
  {
    OneChunk(base, pos + |a|, Grown(base, pos, cap, |a|), b);
    assert [a, b][1..] == [b];
  }

  // Readers.

  /** Takes `w` bytes and undoes the byte order. */
  method ReadFixed(ba: ByteArray, w: nat, host: Endian) returns (r: Outcome<nat>)
    requires ba.Valid() && w > 0
    modifies ba`position, ba`cur, ba`at
    ensures Took(ba, old(ba.View()), ParseFixed(w, old(ba.View()).Unread(), ba.order), r)
  {
    var b := ba.Read(w);
    if b.Ok? {
      FixedValueHostFree(b.value, ba.order, host);
      var v := FromMemory(b.value, host);
      r := Ok(if ba.order == host then v else ByteSwap(v, w));
    } else {
      r := OutOfRange;
    }
  }

  /** `ba` is `f` with the cursor moved `k` bytes on. */
  ghost predicate Moved(ba: ByteArray, f: Flat, k: nat)
    requires f.Valid()
    reads ba, ba.chain, ba.Buffers()
  {
    ba.Valid() && f.pos + k <= f.size && ba.View() == MoveTo(f, f.pos + k)
  }

  /** `ba` is `f` with the cursor moved over what a parse has used, and `r` is what it came to. */
  ghost predicate Took<T>(ba: ByteArray, f: Flat, p: Parsed<T>, r: Outcome<T>)
    requires f.Valid()
    reads ba, ba.chain, ba.Buffers()
  {
    r == p.outcome && Moved(ba, f, p.used)
  }

  /** readFuint8, `k` bytes into what was unread. */
  method ReadByte(ba: ByteArray, ghost f: Flat, ghost k: nat) returns (r: Outcome<Byte>)
    requires f.Valid() && Moved(ba, f, k)
    modifies ba`position, ba`cur, ba`at
    ensures if r.Ok? then k < |f.Unread()| && r.value == f.Unread()[k] && Moved(ba, f, k + 1)
            else r == OutOfRange && k == |f.Unread()| && Moved(ba, f, k)
  {
    var b := ba.Read(1);
    r := if b.Ok? then Ok(b.value[0]) else OutOfRange;
  }

  /** The rest of a varint parse after `k` continued bytes whose bits add up to `acc`. */
  ghost predicate Continues(b: seq<Byte>, groups: nat, k: nat, acc: nat) {
    && k <= |b| && k <= groups
    && ParseVarint(b, groups) == Resume(b[k..], groups - k, k, acc)
  }

  ghost function Resume(rest: seq<Byte>, groups: nat, k: nat, acc: nat): Parsed<nat> {
    var p := ParseVarint(rest, groups);
    Parsed(if p.outcome.Ok? then Ok(acc + p.outcome.value * Pow128(k)) else OutOfRange, k + p.used)
  }

  lemma {:induction false} ContinuesFromStart(b: seq<Byte>, groups: nat)
    ensures Continues(b, groups, 0, 0)
  {
    assert b[0..] == b;
  }

  lemma {:induction false} ContinuesStep(b: seq<Byte>, groups: nat, k: nat, acc: nat, acc': nat)
    requires Continues(b, groups, k, acc) && k < groups && k < |b|
    requires acc' == acc + b[k] % 128 * Pow128(k)
    ensures b[k] < 128 ==> ParseVarint(b, groups) == Parsed(Ok(acc'), k + 1)
    ensures b[k] >= 128 ==> Continues(b, groups, k + 1, acc')
  {
    if b[k] >= 128 {
      assert b[k..][1..] == b[k + 1..];
      var p := ParseVarint(b[k + 1..], groups - (k + 1));
      if p.outcome.Ok? {
        Distribute(b[k] % 128, 128, p.outcome.value, Pow128(k));
      }
    }
  }

  lemma {:induction false} ContinuesNoMore(b: seq<Byte>, groups: nat, acc: nat)
    ensures Continues(b, groups, |b|, acc) && |b| < groups ==> ParseVarint(b, groups) == Parsed(OutOfRange, |b|)
    ensures Continues(b, groups, groups, acc) ==> ParseVarint(b, groups) == Parsed(Ok(acc), groups)
  {
  }

  lemma {:induction false} Distribute(x: nat, y: nat, z: nat, s: nat)
    ensures (x + y * z) * s == x * s + z * (y * s)
  {
  }

  /** Seven more bits: below the truncation or, for the last byte, wrapped by it. */
  lemma {:induction false} Accumulate(w: nat, k: nat, acc: nat, x: nat, scale: nat, add: nat)
    requires w in {4, 8} && k < Groups(w) && scale == Pow128(k) && acc < scale && x < 128 && add == x * scale
    ensures add == x * Pow128(k)
    ensures acc % VarModulus(w) == acc
    ensures (acc + add) % VarModulus(w) == acc + add % VarModulus(w)
    ensures acc + add < Pow128(k + 1)
  {
    var q := ScaleDivides(w, k);
    MaskedAdd(x, q, scale, VarModulus(w), acc);
    TimesMono(x, 127, scale);
  }

  lemma {:induction false} MaskedAdd(x: nat, q: nat, s: nat, m: nat, acc: nat)
    requires q > 0 && m == q * s && acc < s
    ensures acc % m == acc && (acc + x * s) % m == acc + x * s % m
  {
    var h, r := Digits(x, q, s, m);
    RemainderAdds(x * s, m, h, r, acc);
    ModUnique(acc, m, 0, acc);
  }

  lemma {:induction false} Digits(x: nat, q: nat, s: nat, m: nat) returns (h: nat, r: nat)
    requires q > 0 && m == q * s
    ensures x * s == h * m + r && r + s <= m
  {
    h, r := x / q, x % q * s;
    assert x == x % q + q * h;
    Distribute(x % q, q, h, s);
    TimesMono(x % q + 1, q, s);
  }

  lemma {:induction false} RemainderAdds(n: nat, m: nat, h: nat, r: nat, acc: nat)
    requires n == h * m + r && acc + r < m
    ensures n % m == r && (acc + n) % m == acc + r
  {
    ModUnique(n, m, h, r);
    ModUnique(acc + n, m, h, acc + r);
  }

  lemma {:induction false} TimesMono(a: nat, b: nat, s: nat)
    requires a <= b
    ensures a * s <= b * s
  {
  }

  lemma {:induction false} ModUnique(n: nat, m: nat, q: nat, r: nat)
    requires r < m && n == q * m + r
    ensures n % m == r
  {
    SpanIsProduct(q, m);
    BlockOfPosition(n, m, q, r);
  }

  /** Every shift the reader uses is less than the width of its result. */
  lemma {:induction false} ScaleDivides(w: nat, k: nat) returns (q: nat)
    requires w in {4, 8} && k < Groups(w)
    ensures q > 0 && VarModulus(w) == q * Pow128(k)
    decreases Groups(w) - k
  {
    Pow128Values();
    if k == Groups(w) - 1 {
      q := if w == 4 then 16 else 2;
    } else {
      var r := ScaleDivides(w, k + 1);
      q := r * 128;
    }
  }

  /** The bits read so far: without loss in `acc`, cut to the width in `result`, the next ones worth `scale`. */
  predicate Summed(w: nat, k: nat, acc: nat, scale: nat, result: nat) {
    scale == Pow128(k) && acc < scale && result == acc % VarModulus(w)
  }

  /** result |= bits << shift, where the bits above the width are lost. */
  method OrIn(result: nat, ghost acc: nat, bits: nat, scale: nat, ghost k: nat, w: nat)
    returns (result': nat, ghost acc': nat)
    requires w in {4, 8} && k < Groups(w) && bits < 128 && Summed(w, k, acc, scale, result)
    ensures acc' == acc + bits * Pow128(k) && Summed(w, k + 1, acc', 128 * scale, result')
  {
    hide Pow128, Groups;
    var add := bits * scale;
    Accumulate(w, k, acc, bits, scale, add);
    result' := result + add % VarModulus(w);
    acc' := acc + add;
    assert Pow128(k + 1) == 128 * scale by {
      NextPower(k);
    }
  }

  lemma {:induction false} NextPower(k: nat)
    ensures Pow128(k + 1) == 128 * Pow128(k)
  {
  }

  /** One more byte: the last, or one to go on from. */
  lemma {:induction false} WrappedStep(w: nat, b: seq<Byte>, k: nat, acc: nat, acc': nat, scale: nat, result: nat)
    requires w in {4, 8} && Continues(b, Groups(w), k, acc) && k < Groups(w) && k < |b|
    requires acc' == acc + b[k] % 128 * Pow128(k) && Summed(w, k + 1, acc', scale, result)
    ensures b[k] < 128 ==> ParseWrapped(w, b) == Parsed(Ok(result), k + 1)
    ensures b[k] >= 128 ==> Continues(b, Groups(w), k + 1, acc')
  {
    hide Continues, ParseVarint, Pow128;
    ContinuesStep(b, Groups(w), k, acc, acc');
  }

  lemma {:induction false} WrappedEnd(w: nat, b: seq<Byte>, k: nat, acc: nat, scale: nat, result: nat)
    requires w in {4, 8} && Continues(b, Groups(w), k, acc) && Summed(w, k, acc, scale, result)
    ensures k == |b| < Groups(w) ==> ParseWrapped(w, b) == Parsed(OutOfRange, k)
    ensures k == Groups(w) ==> ParseWrapped(w, b) == Parsed(Ok(result), k)
  {
    hide Continues, ParseVarint, Pow128;
    ContinuesNoMore(b, Groups(w), acc);
  }

  /** Seven bits of a varint, or the end of it: `r` is what the whole came to, unless there is `more`. */
  method ReadSeven(ba: ByteArray, w: nat, ghost f: Flat, ghost k: nat, ghost acc: nat, scale: nat, result: nat)
    returns (more: bool, r: Outcome<nat>, result': nat, ghost acc': nat)
    requires f.Valid() && w in {4, 8} && k < Groups(w)
    requires Moved(ba, f, k) && Summed(w, k, acc, scale, result) && Continues(f.Unread(), Groups(w), k, acc)
    modifies ba`position, ba`cur, ba`at
    ensures more ==> Moved(ba, f, k + 1) && Summed(w, k + 1, acc', 128 * scale, result')
    ensures more ==> Continues(f.Unread(), Groups(w), k + 1, acc')
    ensures !more ==> Took(ba, f, ParseWrapped(w, f.Unread()), r)
  {
    hide Continues, Summed, ParseWrapped, Pow128;
    more, r, result', acc' := false, OutOfRange, result, acc;
    var b := ReadByte(ba, f, k);
    if b.Ok? {
      result', acc' := OrIn(result, acc, b.value % 128, scale, k, w);
      WrappedStep(w, f.Unread(), k, acc, acc', 128 * scale, result');
      more := b.value >= 0x80;
      r := Ok(result');
    } else {
      WrappedEnd(w, f.Unread(), k, acc, scale, result);
    }
  }

  /** The varint loop: at most five or ten bytes, or-ing seven bits at a time into the result. */
  method ReadUint(ba: ByteArray, w: nat) returns (r: Outcome<nat>)
    requires ba.Valid() && w in {4, 8}
    modifies ba`position, ba`cur, ba`at
    ensures Took(ba, old(ba.View()), ParseWrapped(w, old(ba.View()).Unread()), r)
  {
    ghost var f := ba.View();
    ContinuesFromStart(f.Unread(), Groups(w));
    assert Moved(ba, f, 0) && Summed(w, 0, 0, 1, 0);
    hide Continues, Moved, Summed, ParseWrapped, Pow128;
    var result: nat, scale: nat, i: nat := 0, 1, 0;
    ghost var acc: nat, k: nat := 0, 0;
    var more := true;
    r := OutOfRange;
    while more && i < 8 * w
      invariant i == 7 * k && k <= Groups(w)
      invariant more ==> Moved(ba, f, k) && Summed(w, k, acc, scale, result) && Continues(f.Unread(), Groups(w), k, acc)
      invariant !more ==> Took(ba, f, ParseWrapped(w, f.Unread()), r)
    {
      more, r, result, acc := ReadSeven(ba, w, f, k, acc, scale, result);
      k := k + 1;
      i := i + 7;
      scale := 128 * scale;
    }
    if more {
      WrappedEnd(w, f.Unread(), k, acc, scale, result);
      r := Ok(result);
    }
  }

  method ReadHead(ba: ByteArray, k: Kind, host: Endian) returns (r: Outcome<nat>)
    requires ba.Valid() && ValidKind(k)
    modifies ba`position, ba`cur, ba`at
    ensures Took(ba, old(ba.View()), ParseHead(k, old(ba.View()).Unread(), ba.order), r)
  {
    match k {
      case Fuint(w) => r := ReadFixed(ba, w, host);
      case Fint(w) => r := ReadFixed(ba, w, host);
      case Uint(w) => r := ReadUint(ba, w);
      case Int(w) => r := ReadUint(ba, w);
      case StringF(w) => r := ReadFixed(ba, w, host);
      case StringVint => r := ReadUint(ba, 8);
    }
  }

  /** readFint8 to readStringVint: a number, or a length prefix and that many bytes of text. */
  method ReadValue(ba: ByteArray, k: Kind, host: Endian) returns (r: Outcome<Value>)
    requires ba.Valid() && ValidKind(k)
    modifies ba`position, ba`cur, ba`at
    ensures Took(ba, old(ba.View()),
                 ParseValue(k, old(ba.View()).Unread(), ba.size == ba.capacity, ba.order), r)
  {
    hide ByteArray.ValidChain, ByteArray.AtCursor, Concat, Span, ParseHead, NumberOf;
    ghost var f := ba.View();
    var head := ReadHead(ba, k, host);
    if !head.Ok? {
      return OutOfRange;
    }
    if !k.StringF? && !k.StringVint? {
      return Ok(Num(NumberOf(k, head.value)));
    }
    ghost var f1 := ba.View();
    assert f1.Unread() == f.Unread()[f1.pos - f.pos..];
    var text := ba.Read(head.value);
    r := match text
         case Ok(s) => Ok(Text(s))
         case OutOfRange => OutOfRange
         case Fault => Fault;
  }

  // Whole lists.

  /** `f` is what `f0`, with its cursor at the end, becomes by writing the first `k` items. */
  ghost predicate WrittenUpTo(base: nat, f0: Flat, items: seq<Item>, k: nat, order: Endian, f: Flat)
    requires base > 0 && f0.Valid() && AllWellTyped(items) && k <= |items|
  {
    var done := items[..k];
    && f.Valid() && f.pos == f.size
    && f.Contents() == f0.Contents() + EncodeAll(done, order)
    && WritesFit(base, f0.pos, |f0.data|, Chunks(done, order))
    && |f.data| == CapAfter(base, f0.pos, |f0.data|, Chunks(done, order))
  }

  lemma {:induction false} NothingWritten(base: nat, f0: Flat, items: seq<Item>, order: Endian)
    requires base > 0 && f0.Valid() && AllWellTyped(items) && f0.pos == f0.size
    ensures WrittenUpTo(base, f0, items, 0, order, f0)
  {
    assert items[..0] == [];
  }

  lemma {:induction false} OneMoreFits(base: nat, f0: Flat, items: seq<Item>, k: nat, order: Endian, f: Flat)
    requires base > 0 && f0.Valid() && AllWellTyped(items) && k < |items| && f0.pos == f0.size
    requires WrittenUpTo(base, f0, items, k, order, f)
    ensures WritesFit(base, f0.pos, |f0.data|, Chunks(items[..k + 1], order)) <==> ItemFits(base, f, items[k], order)
    ensures CapAfter(base, f0.pos, |f0.data|, Chunks(items[..k + 1], order))
         == CapAfter(base, f.pos, |f.data|, [Head(items[k], order), Body(items[k])])
    ensures EncodeAll(items[..k + 1], order) == EncodeAll(items[..k], order) + Encode(items[k], order)
  {
    var done, one := items[..k], [items[k]];
    assert items[..k + 1] == done + one;
    EncodeAllAppend(done, one, order);
    SingleItem(items[k], order);
    ChunksConcat(done, order);
    assert f.pos == f0.pos + |EncodeAll(done, order)|;
    WritesFitAppend(base, f0.pos, |f0.data|, Chunks(done, order), Chunks(one, order));
  }

  lemma {:induction false} SingleItem(i: Item, order: Endian)
    requires WellTyped(i)
    ensures AllWellTyped([i])
    ensures Chunks([i], order) == [Head(i, order), Body(i)]
    ensures EncodeAll([i], order) == Encode(i, order)
  {
    assert [i][1..] == [];
  }

  lemma {:induction false} OneMoreWritten(base: nat, f0: Flat, items: seq<Item>, k: nat, order: Endian, f: Flat,
        f': Flat)
    requires base > 0 && f0.Valid() && AllWellTyped(items) && k < |items| && f0.pos == f0.size
    requires WrittenUpTo(base, f0, items, k, order, f) && f'.Valid()
    requires ItemFits(base, f, items[k], order) && PutItem(base, f, items[k], order, f')
    ensures WrittenUpTo(base, f0, items, k + 1, order, f')
  {
    OneMoreFits(base, f0, items, k, order, f);
    AppendAtEnd(f, Encode(items[k], order), f');
    Regroup(f0.Contents(), EncodeAll(items[..k], order), Encode(items[k], order));
  }

  lemma {:induction false} Regroup(a: seq<Byte>, b: seq<Byte>, c: seq<Byte>)
    ensures a + b + c == a + (b + c)
  {
  }

  lemma {:induction false} AppendAtEnd(f: Flat, b: seq<Byte>, f': Flat)
    requires f.Valid() && f'.Valid() && f.pos == f.size
    requires f'.Contents() == Overwritten(f, b) && f'.pos == f.pos + |b|
    ensures f'.Contents() == f.Contents() + b && f'.pos == f'.size
  {
    assert f.Contents()[..f.pos] == f.Contents();
  }

  lemma {:induction false} PrefixFits(base: nat, f0: Flat, items: seq<Item>, k: nat, order: Endian)
    requires base > 0 && f0.Valid() && AllWellTyped(items) && k <= |items|
    requires WritesFit(base, f0.pos, |f0.data|, Chunks(items, order))
    ensures WritesFit(base, f0.pos, |f0.data|, Chunks(items[..k], order))
  {
    assert items == items[..k] + items[k..];
    EncodeAllAppend(items[..k], items[k..], order);
    WritesFitAppend(base, f0.pos, |f0.data|, Chunks(items[..k], order), Chunks(items[k..], order));
  }

  /** The next item of a list of which `k` are written. */
  method WriteOne(ba: ByteArray, items: seq<Item>, k: nat, host: Endian, ghost f0: Flat) returns (fault: bool)
    requires ba.Valid() && AllWellTyped(items) && k < |items| && f0.Valid() && f0.pos == f0.size
    requires WrittenUpTo(ba.baseSize, f0, items, k, ba.order, ba.View())
    modifies ba, ba.chain, ba.Buffers()
    ensures ba.order == old(ba.order)
    ensures forall n <- ba.chain :: n in old(ba.chain) || (fresh(n) && fresh(n.ptr))
    ensures fault ==> !WritesFit(ba.baseSize, f0.pos, |f0.data|, Chunks(items[..k + 1], ba.order))
    ensures !fault ==> ba.Valid() && WrittenUpTo(ba.baseSize, f0, items, k + 1, ba.order, ba.View())
  {
    hide WrittenUpTo, WritesFit, Chunks, ItemFits;
    ghost var f, order := ba.View(), ba.order;
    OneMoreFits(ba.baseSize, f0, items, k, order, f);
    fault := WriteValue(ba, items[k], host);
    if !fault {
      OneMoreWritten(ba.baseSize, f0, items, k, order, f, ba.View());
    }
  }

  /** Writes a list of values at the end of `ba`. */
  method WriteAll(ba: ByteArray, items: seq<Item>, host: Endian) returns (fault: bool)
    requires ba.Valid() && ba.position == ba.size && AllWellTyped(items)
    modifies ba, ba.chain, ba.Buffers()
    ensures fault <==> !WritesFit(ba.baseSize, old(ba.position), old(ba.capacity), Chunks(items, old(ba.order)))
    ensures !fault ==> ba.Valid() && WrittenUpTo(ba.baseSize, old(ba.View()), items, |items|, old(ba.order), ba.View())
    ensures ba.order == old(ba.order)
  {
    fault := false;
    ghost var f0, order := ba.View(), ba.order;
    NothingWritten(ba.baseSize, f0, items, order);
    var k := 0;
    while k < |items| && !fault
      invariant 0 <= k <= |items| && ba.order == order
      invariant forall n <- ba.chain :: n in old(ba.chain) || (fresh(n) && fresh(n.ptr))
      invariant !fault ==> ba.Valid() && WrittenUpTo(ba.baseSize, f0, items, k, order, ba.View())
      invariant fault ==> !WritesFit(ba.baseSize, f0.pos, |f0.data|, Chunks(items[..k], order))
    {
      hide WrittenUpTo, WritesFit, Chunks;
      fault := WriteOne(ba, items, k, host, f0);
      k := k + 1;
    }
    assert items[..|items|] == items;
    if !fault {
      WrittenFits(ba.baseSize, f0, items, k, order, ba.View());
    } else if WritesFit(ba.baseSize, f0.pos, |f0.data|, Chunks(items, order)) {
      PrefixFits(ba.baseSize, f0, items, k, order);
    }
  }

  lemma {:induction false} WrittenFits(base: nat, f0: Flat, items: seq<Item>, k: nat, order: Endian, f: Flat)
    requires base > 0 && f0.Valid() && AllWellTyped(items) && k <= |items| && WrittenUpTo(base, f0, items, k, order, f)
    ensures WritesFit(base, f0.pos, |f0.data|, Chunks(items[..k], order))
  {
  }

  /** A list parse that has the values `vs` behind it and `p` in front. */
  function After(vs: seq<Value>, used: nat, p: Parsed<seq<Value>>): Parsed<seq<Value>> {
    Parsed(if p.outcome.Ok? then Ok(vs + p.outcome.value) else p.outcome, used + p.used)
  }

  lemma {:induction false} AfterNothing(p: Parsed<seq<Value>>)
    ensures After([], 0, p) == p
  {
    if p.outcome.Ok? {
      assert [] + p.outcome.value == p.outcome.value;
    }
  }

  lemma {:induction false} AfterOneMore(vs: seq<Value>, used: nat, kinds: seq<Kind>, b: seq<Byte>, full: bool,
        order: Endian)
    requires kinds != []
    ensures var first := ParseValue(kinds[0], b, full, order);
            After(vs, used, ParseAll(kinds, b, full, order)) ==
            match first.outcome
            case Ok(v) => After(vs + [v], used + first.used, ParseAll(kinds[1..], b[first.used..], full, order))
            case OutOfRange => Parsed(OutOfRange, used + first.used)
            case Fault => Parsed(Fault, used + first.used)
  {
    var first := ParseValue(kinds[0], b, full, order);
    if first.outcome.Ok? {
      var rest := ParseAll(kinds[1..], b[first.used..], full, order);
      if rest.outcome.Ok? {
        assert vs + ([first.outcome.value] + rest.outcome.value) == vs + [first.outcome.value] + rest.outcome.value;
      }
    }
  }

  lemma {:induction false} AfterLast(vs: seq<Value>, used: nat, b: seq<Byte>, full: bool, order: Endian)
    ensures After(vs, used, ParseAll([], b, full, order)) == Parsed(Ok(vs), used)
  {
    assert vs + [] == vs;
  }

  /** The parse of `kinds` has come to `r` after `k` values and `used` bytes of `b`. */
  ghost predicate ParsedUpTo(kinds: seq<Kind>, b: seq<Byte>, full: bool, order: Endian,
                             k: nat, used: nat, r: Outcome<seq<Value>>)
  {
    && k <= |kinds| && used <= |b|
    && ParseAll(kinds, b, full, order)
       == if r.Ok? then After(r.value, used, ParseAll(kinds[k..], b[used..], full, order)) else Parsed(r, used)
  }

  function Push(r: Outcome<seq<Value>>, v: Outcome<Value>): Outcome<seq<Value>>
    requires r.Ok?
  {
    match v
    case Ok(value) => Ok(r.value + [value])
    case OutOfRange => OutOfRange
    case Fault => Fault
  }

  lemma {:induction false} ParsedNothing(kinds: seq<Kind>, b: seq<Byte>, full: bool, order: Endian)
    ensures ParsedUpTo(kinds, b, full, order, 0, 0, Ok([]))
  {
    AfterNothing(ParseAll(kinds, b, full, order));
    assert kinds[0..] == kinds && b[0..] == b;
  }

  lemma {:induction false} ParsedOneMore(kinds: seq<Kind>, b: seq<Byte>, full: bool, order: Endian,
                                         k: nat, used: nat, r: Outcome<seq<Value>>, used': nat)
    requires k < |kinds| && r.Ok? && ParsedUpTo(kinds, b, full, order, k, used, r)
    requires used' == used + ParseValue(kinds[k], b[used..], full, order).used
    ensures ParsedUpTo(kinds, b, full, order, k + 1, used',
                       Push(r, ParseValue(kinds[k], b[used..], full, order).outcome))
  {
    var rest, tail := kinds[k..], b[used..];
    AfterOneMore(r.value, used, rest, tail, full, order);
    assert rest[0] == kinds[k] && rest[1..] == kinds[k + 1..];
    var n := ParseValue(kinds[k], tail, full, order).used;
    assert tail[n..] == b[used'..];
  }

  lemma {:induction false} ParsedEverything(kinds: seq<Kind>, b: seq<Byte>, full: bool, order: Endian,
                                            k: nat, used: nat, r: Outcome<seq<Value>>)
    requires ParsedUpTo(kinds, b, full, order, k, used, r) && (k == |kinds| || !r.Ok?)
    ensures ParseAll(kinds, b, full, order) == Parsed(r, used)
  {
    if r.Ok? {
      assert kinds[k..] == [];
      AfterLast(r.value, used, b[used..], full, order);
    }
  }

  /** Reads a value of each kind in turn, up to the first that fails. */
  method ReadAll(ba: ByteArray, kinds: seq<Kind>, host: Endian) returns (r: Outcome<seq<Value>>)
    requires ba.Valid() && forall k <- kinds :: ValidKind(k)
    modifies ba`position, ba`cur, ba`at
    ensures Took(ba, old(ba.View()),
                 ParseAll(kinds, old(ba.View()).Unread(), ba.size == ba.capacity, ba.order), r)
  {
    ghost var f, full, order := ba.View(), ba.size == ba.capacity, ba.order;
    ghost var b := f.Unread();
    ParsedNothing(kinds, b, full, order);
    r := Ok([]);
    ghost var used: nat := 0;
    var k := 0;
    while k < |kinds| && r.Ok?
      invariant 0 <= k <= |kinds| && Moved(ba, f, used)
      invariant ParsedUpTo(kinds, b, full, order, k, used, r)
    {
      var v;
      ghost var used';
      v, used' := ReadNext(ba, kinds[k], host, f, used, full);
      ParsedOneMore(kinds, b, full, order, k, used, r, used');
      r := Push(r, v);
      used := used';
      k := k + 1;
    }
    ParsedEverything(kinds, b, full, order, k, used, r);
  }

  /** ReadValue, `used` bytes into what was unread in `f`. */
  method ReadNext(ba: ByteArray, k: Kind, host: Endian, ghost f: Flat, ghost used: nat, ghost full: bool)
    returns (r: Outcome<Value>, ghost used': nat)
    requires f.Valid() && Moved(ba, f, used) && ValidKind(k) && (full <==> ba.size == ba.capacity)
    modifies ba`position, ba`cur, ba`at
    ensures r == ParseValue(k, f.Unread()[used..], full, ba.order).outcome
    ensures used' == used + ParseValue(k, f.Unread()[used..], full, ba.order).used
    ensures Moved(ba, f, used')
  {
    assert ba.View().Unread() == f.Unread()[used..];
    used' := used + ParseValue(k, f.Unread()[used..], full, ba.order).used;
    r := ReadValue(ba, k, host);
  }

  datatype Trip = WriteFault | ReadFault | ReadShort | Came(back: seq<Value>, unread: nat)

  /** Rewinds and reads the list that fills `ba`. */
  method ReadBack(ba: ByteArray, items: seq<Item>, host: Endian) returns (t: Trip)
    requires ba.Valid() && AllFit(items) && ba.View().Contents() == EncodeAll(items, ba.order)
    modifies ba`position, ba`size, ba`cur, ba`at
    ensures t == if EndsInEmptyText(items) && ba.capacity == old(ba.size) then ReadFault else Came(Values(items), 0)
  {
    var rewound := ba.SetPosition(0);
    assert ba.View().Unread() == EncodeAll(items, ba.order);
    ListRoundTrip(items, ba.size == ba.capacity, ba.order);
    KindsValid(items);
    var r := ReadAll(ba, Kinds(items), host);
    t := match r
         case Ok(vs) => Came(vs, ba.size - ba.position)
         case OutOfRange => ReadShort
         case Fault => ReadFault;
  }

  /**
   * Writes a list to a fresh array, rewinds, and reads it with the same kinds. Whatever the node
   * size, the byte order and the two hosts, the list comes back and nothing is left unread, unless
   * a write falls short, or the list ends in an empty text and its bytes fill whole nodes.
   */
  method RoundTrip(items: seq<Item>, base: nat, little: bool, writer: Endian, reader: Endian) returns (t: Trip)
    requires base > 0 && AllFit(items)
    ensures var order := if little then Little else Big;
            t == if !WritesFit(base, 0, base, Chunks(items, order)) then WriteFault
                 else if EndsInEmptyText(items) && |EncodeAll(items, order)| % base == 0 then ReadFault
                 else Came(Values(items), 0)
  {
    var ba := new ByteArray(base);
    ba.SetIsLittleEndian(little);
    ghost var f0, order := ba.View(), ba.order;
    var fault := WriteAll(ba, items, writer);
    t := WriteFault;
    if !fault {
      WrittenAll(base, f0, items, order, ba.View());
      t := ReadBack(ba, items, reader);
    }
  }

  lemma {:induction false} KindsValid(items: seq<Item>)
    requires AllFit(items)
    ensures forall k <- Kinds(items) :: ValidKind(k)
  {
    if items != [] {
      KindsValid(items[1..]);
    }
  }

  /** A fresh array after a list: its contents are the encoding, and it is full when they fill whole nodes. */
  lemma {:induction false} WrittenAll(base: nat, f0: Flat, items: seq<Item>, order: Endian, f: Flat)
    requires base > 0 && f0.Valid() && AllWellTyped(items) && f0.pos == f0.size == 0 && |f0.data| == base
    requires WrittenUpTo(base, f0, items, |items|, order, f)
    ensures f.Contents() == EncodeAll(items, order)
    ensures items != [] ==> (f.size == |f.data| <==> |EncodeAll(items, order)| % base == 0)
  {
    assert items[..|items|] == items;
    ChunksConcat(items, order);
    assert TightNodes(base, 0, base, 1);
    TightStays(base, 0, base, Chunks(items, order));
    TightIsFull(base, f.pos, |f.data|);
  }
}
