/** Typed values and their encoding, one value and a whole list at a time. */
module TypedValues {
  import opened Bytes
  import opened Codec

  /** The typed read and write pairs; `w` is a width in bytes. */
  datatype Kind =
    | Fuint(w: nat)    // writeFuint8 to writeFuint64
    | Fint(w: nat)     // writeFint8 to writeFint64
    | Uint(w: nat)     // writeUint32, writeUint64: varint
    | Int(w: nat)      // writeInt32, writeInt64: zigzag, then varint
    | StringF(w: nat)  // writeStringF16 to writeStringF64
    | StringVint

  datatype Value = Num(n: int) | Text(s: seq<Byte>)

  datatype Item = Item(kind: Kind, value: Value)

  predicate ValidKind(k: Kind) {
    match k
    case Fuint(w) => w in {1, 2, 4, 8}
    case Fint(w) => w in {1, 2, 4, 8}
    case Uint(w) => w in {4, 8}
    case Int(w) => w in {4, 8}
    case StringF(w) => w in {2, 4, 8}
    case StringVint => true
  }

  function VarModulus(w: nat): nat {
    if w == 4 then TWO_32 else TWO_64
  }

  /** The longest varint of a width: the size of the writer's scratch buffer and of the reader's loop. */
  function Groups(w: nat): nat {
    if w == 4 then 5 else 10
  }

  /** What the parameter types of the writers admit. A string may be longer than its prefix can say. */
  predicate WellTyped(i: Item) {
    && ValidKind(i.kind)
    && match i.kind
       case Fuint(w) => i.value.Num? && 0 <= i.value.n < Pow256(w)
       case Fint(w) => i.value.Num? && InSignedRange(i.value.n, Pow256(w))
       case Uint(w) => i.value.Num? && 0 <= i.value.n < VarModulus(w)
       case Int(w) => i.value.Num? && InSignedRange(i.value.n, VarModulus(w))
       case StringF(_) => i.value.Text? && |i.value.s| < TWO_64
       case StringVint => i.value.Text? && |i.value.s| < TWO_64
  }

  /** The string is short enough for its prefix. */
  predicate Fits(i: Item): (r: bool)
    ensures r ==> WellTyped(i)
  {
    WellTyped(i) && (i.kind.StringF? ==> |i.value.s| < Pow256(i.kind.w))
  }

  function Ordered(v: nat, w: nat, order: Endian): (b: seq<Byte>)
    ensures |b| == w
  {
    if order.Little? then LittleEndian(v, w) else Reverse(LittleEndian(v, w))
  }

  function FromOrdered(b: seq<Byte>, order: Endian): nat {
    FromLittleEndian(if order.Little? then b else Reverse(b))
  }

  /** The first write() of a value: the number, or the length prefix of a string. */
  function Head(i: Item, order: Endian): (b: seq<Byte>)
    requires WellTyped(i)
    ensures b != []
  {
    match i.kind
    case Fuint(w) => Ordered(i.value.n, w, order)
    case Fint(w) => Ordered(ToUnsigned(i.value.n, Pow256(w)), w, order)
    case Uint(w) => VarintBytes(i.value.n)
    case Int(w) => VarintBytes(EncodeZigzag(i.value.n, VarModulus(w)))
    case StringF(w) => Ordered(|i.value.s| % Pow256(w), w, order)
    case StringVint => VarintBytes(|i.value.s|)
  }

  /** The second write() of a value: the text of a string. */
  function Body(i: Item): seq<Byte> {
    if i.value.Text? then i.value.s else []
  }

  function Encode(i: Item, order: Endian): (b: seq<Byte>)
    requires WellTyped(i)
    ensures b != []
  {
    Head(i, order) + Body(i)
  }

  function ParseFixed(w: nat, b: seq<Byte>, order: Endian): (p: Parsed<nat>)
    ensures p.used <= |b| && !p.outcome.Fault?
  {
    if |b| < w then Parsed(OutOfRange, 0) else Parsed(Ok(FromOrdered(b[..w], order)), w)
  }

  function ParseWrapped(w: nat, b: seq<Byte>): (p: Parsed<nat>)
    ensures p.used <= |b| && !p.outcome.Fault?
    ensures p.outcome.Ok? ==> p.outcome.value < VarModulus(w)
  {
    var p := ParseVarint(b, Groups(w));
    if p.outcome.Ok? then Parsed(Ok(p.outcome.value % VarModulus(w)), p.used) else p
  }

  /** The first read of a value: the bits of the number, or of the length prefix. */
  function ParseHead(k: Kind, b: seq<Byte>, order: Endian): (p: Parsed<nat>)
    ensures p.used <= |b| && !p.outcome.Fault?
  {
    match k
    case Fuint(w) => ParseFixed(w, b, order)
    case Fint(w) => ParseFixed(w, b, order)
    case Uint(w) => ParseWrapped(w, b)
    case Int(w) => ParseWrapped(w, b)
    case StringF(w) => ParseFixed(w, b, order)
    case StringVint => ParseWrapped(8, b)
  }

  /** The number that a numeric kind makes of its bits. */
  function NumberOf(k: Kind, bits: nat): int
    requires k.Fuint? || k.Fint? || k.Uint? || k.Int?
  {
    match k
    case Fuint(_) => bits
    case Fint(w) => ToSigned(bits, Pow256(w))
    case Uint(_) => bits
    case Int(w) => DecodeZigzag(bits % VarModulus(w), VarModulus(w))
  }

  /**
   * Reading one value off `b`. `full` says that nothing lies behind `b`, not even unwritten memory;
   * then an empty text at the very end faults.
   */
  function ParseValue(k: Kind, b: seq<Byte>, full: bool, order: Endian): (p: Parsed<Value>)
    ensures p.used <= |b|
  {
    var head := ParseHead(k, b, order);
    if !head.outcome.Ok? then Parsed(OutOfRange, head.used)
    else if !k.StringF? && !k.StringVint? then Parsed(Ok(Num(NumberOf(k, head.outcome.value))), head.used)
    else
      var n, rest := head.outcome.value, b[head.used..];
      if n > |rest| then Parsed(OutOfRange, head.used)
      else if n == 0 && rest == [] && full then Parsed(Fault, head.used)
      else Parsed(Ok(Text(rest[..n])), head.used + n)
  }

  lemma {:induction false} OrderedRoundTrip(v: nat, w: nat, order: Endian)
    requires v < Pow256(w)
    ensures FromOrdered(Ordered(v, w, order), order) == v
  {
    LittleEndianValue(v, w);
    ReverseReverse(LittleEndian(v, w));
  }

  lemma {:induction false} Pow256Values()
    ensures Pow256(1) == 0x100 && Pow256(2) == 0x1_0000 && Pow256(4) == TWO_32 && Pow256(8) == TWO_64
  {
    assert Pow256(0) == 1 && Pow256(3) == 0x100_0000;
    assert Pow256(5) == 0x100_0000_0000 && Pow256(6) == 0x1_0000_0000_0000 && Pow256(7) == 0x100_0000_0000_0000;
  }

  lemma {:induction false} VarintHead(v: nat, w: nat, rest: seq<Byte>)
    requires w in {4, 8} && v < VarModulus(w)
    ensures |VarintBytes(v)| <= Groups(w)
    ensures ParseWrapped(w, VarintBytes(v) + rest) == Parsed(Ok(v), |VarintBytes(v)|)
  {
    VarintFitsScratch(v);
    VarintRoundTrip(v, Groups(w), rest);
    assert v % VarModulus(w) == v;
  }

  lemma {:induction false} FixedHead(v: nat, w: nat, rest: seq<Byte>, order: Endian)
    requires v < Pow256(w)
    ensures ParseFixed(w, Ordered(v, w, order) + rest, order) == Parsed(Ok(v), w)
  {
    assert (Ordered(v, w, order) + rest)[..w] == Ordered(v, w, order);
    OrderedRoundTrip(v, w, order);
  }

  /** The bits of a head: what the first read gives back. */
  function HeadBits(i: Item): nat
    requires WellTyped(i)
  {
    match i.kind
    case Fuint(_) => i.value.n
    case Fint(w) => ToUnsigned(i.value.n, Pow256(w))
    case Uint(_) => i.value.n
    case Int(w) => EncodeZigzag(i.value.n, VarModulus(w))
    case StringF(w) => |i.value.s| % Pow256(w)
    case StringVint => |i.value.s|
  }

  lemma {:induction false} HeadRoundTrip(i: Item, rest: seq<Byte>, order: Endian)
    requires WellTyped(i)
    ensures ParseHead(i.kind, Head(i, order) + rest, order) == Parsed(Ok(HeadBits(i)), |Head(i, order)|)
  {
    match i.kind
    case Fuint(w) => FixedHead(HeadBits(i), w, rest, order);
    case Fint(w) => FixedHead(HeadBits(i), w, rest, order);
    case Uint(w) => VarintHead(HeadBits(i), w, rest);
    case Int(w) => VarintHead(HeadBits(i), w, rest);
    case StringF(w) => FixedHead(HeadBits(i), w, rest, order);
    case StringVint => VarintHead(HeadBits(i), 8, rest);
  }

  lemma {:induction false} NumberRoundTrip(i: Item)
    requires WellTyped(i) && i.value.Num?
    ensures NumberOf(i.kind, HeadBits(i)) == i.value.n
  {
    Pow256Values();
    hide ToSigned, ToUnsigned, EncodeZigzag, DecodeZigzag, Pow256;
    match i.kind
    case Fuint(_) =>
    case Fint(w) => SignedRoundTrip(i.value.n, Pow256(w));
    case Uint(_) =>
    case Int(w) => ZigzagRoundTrip(i.value.n, VarModulus(w));
  }

  lemma {:induction false} TextRoundTrip(k: Kind, head: seq<Byte>, s: seq<Byte>, rest: seq<Byte>, full: bool,
        order: Endian)
    requires k.StringF? || k.StringVint?
    requires ParseHead(k, head + (s + rest), order) == Parsed(Ok(|s|), |head|)
    ensures ParseValue(k, head + (s + rest), full, order)
         == if s == [] && rest == [] && full then Parsed(Fault, |head|) else Parsed(Ok(Text(s)), |head| + |s|)
  {
    var after := (head + (s + rest))[|head|..];
    assert after == s + rest;
    assert after[..|s|] == s;
    assert |s| == 0 ==> after == rest;
  }

  /** The bytes of a value read back as that value, whatever follows, short of the empty text at the end. */
  lemma {:induction false} ValueRoundTrip(i: Item, rest: seq<Byte>, full: bool, order: Endian)
    requires Fits(i)
    ensures ParseValue(i.kind, Encode(i, order) + rest, full, order)
         == Parsed(if i.value == Text([]) && rest == [] && full then Fault else Ok(i.value), |Encode(i, order)|)
  {
    assert Encode(i, order) + rest == Head(i, order) + (Body(i) + rest);
    HeadRoundTrip(i, Body(i) + rest, order);
    if i.value.Num? {
      NumberRoundTrip(i);
    } else {
      SmallHead(i);
      TextRoundTrip(i.kind, Head(i, order), i.value.s, rest, full, order);
    }
  }

  lemma {:induction false} SmallHead(i: Item)
    requires Fits(i) && i.value.Text?
    ensures HeadBits(i) == |i.value.s|
  {
  }

  /** A string longer than its prefix can say comes back cut to the length modulo the prefix range. */
  lemma {:induction false} OverlongString(s: seq<Byte>, w: nat, order: Endian)
    requires w in {2, 4, 8} && Pow256(w) <= |s| < TWO_64
    ensures |s| % Pow256(w) < |s|
    ensures ParseValue(StringF(w), Encode(Item(StringF(w), Text(s)), order), false, order)
         == Parsed(Ok(Text(s[..|s| % Pow256(w)])), w + |s| % Pow256(w))
  {
    var i := Item(StringF(w), Text(s));
    assert Encode(i, order) == Head(i, order) + s;
    HeadRoundTrip(i, s, order);
    assert Encode(i, order)[w..] == s;
  }

  // Lists.

  predicate AllWellTyped(items: seq<Item>) {
    forall k :: 0 <= k < |items| ==> WellTyped(items[k])
  }

  predicate AllFit(items: seq<Item>): (r: bool)
    ensures r ==> AllWellTyped(items)
  {
    forall k :: 0 <= k < |items| ==> Fits(items[k])
  }

  function EncodeAll(items: seq<Item>, order: Endian): seq<Byte>
    requires AllWellTyped(items)
  {
    if items == [] then [] else Encode(items[0], order) + EncodeAll(items[1..], order)
  }

  /** The write() calls that a list makes, in order. */
  function Chunks(items: seq<Item>, order: Endian): seq<seq<Byte>>
    requires AllWellTyped(items)
  {
    if items == [] then [] else [Head(items[0], order), Body(items[0])] + Chunks(items[1..], order)
  }

  function Values(items: seq<Item>): (vs: seq<Value>)
    ensures |vs| == |items|
  {
    if items == [] then [] else [items[0].value] + Values(items[1..])
  }

  /** Reading a value of each kind in turn, up to the first that fails. */
  function ParseAll(kinds: seq<Kind>, b: seq<Byte>, full: bool, order: Endian): (p: Parsed<seq<Value>>)
    ensures p.used <= |b|
  {
    if kinds == [] then Parsed(Ok([]), 0)
    else
      var first := ParseValue(kinds[0], b, full, order);
      if first.outcome.Fault? then Parsed(Fault, first.used)
      else if first.outcome.OutOfRange? then Parsed(OutOfRange, first.used)
      else
        var rest := ParseAll(kinds[1..], b[first.used..], full, order);
        Parsed(if rest.outcome.Ok? then Ok([first.outcome.value] + rest.outcome.value) else rest.outcome,
               first.used + rest.used)
  }

  function Kinds(items: seq<Item>): (ks: seq<Kind>)
    ensures |ks| == |items|
  {
    if items == [] then [] else [items[0].kind] + Kinds(items[1..])
  }

  predicate EndsInEmptyText(items: seq<Item>) {
    items != [] && items[|items| - 1].value == Text([])
  }

  /** The bytes of a list read back as the list and leave nothing unread. */
  lemma {:induction false} ListRoundTrip(items: seq<Item>, full: bool, order: Endian)
    requires AllFit(items)
    ensures var p := ParseAll(Kinds(items), EncodeAll(items, order), full, order);
            p.used == |EncodeAll(items, order)| &&
            p.outcome == if EndsInEmptyText(items) && full then Fault else Ok(Values(items))
  {
    if items != [] {
      var rest := EncodeAll(items[1..], order);
      assert rest == [] <==> |items| == 1;
      ValueRoundTrip(items[0], rest, full, order);
      var b := EncodeAll(items, order);
      assert b[|Encode(items[0], order)|..] == rest;
      assert Kinds(items)[1..] == Kinds(items[1..]);
      ListRoundTrip(items[1..], full, order);
      if |items| > 1 {
        assert items[1..][|items| - 2] == items[|items| - 1];
      }
    }
  }

  lemma {:induction false} WellTypedAppend(a: seq<Item>, b: seq<Item>)
    requires AllWellTyped(a) && AllWellTyped(b)
    ensures AllWellTyped(a + b)
  {
  }

  lemma {:induction false} ChunksAppend(a: seq<Item>, b: seq<Item>, order: Endian)
    requires AllWellTyped(a) && AllWellTyped(b) && AllWellTyped(a + b)
    ensures Chunks(a + b, order) == Chunks(a, order) + Chunks(b, order)
  {
    hide Head, Body, WellTyped;
    if a == [] {
      assert a + b == b;
    } else {
      assert (a + b)[1..] == a[1..] + b;
      ChunksAppend(a[1..], b, order);
    }
  }

  lemma {:induction false} BytesAppend(a: seq<Item>, b: seq<Item>, order: Endian)
    requires AllWellTyped(a) && AllWellTyped(b) && AllWellTyped(a + b)
    ensures EncodeAll(a + b, order) == EncodeAll(a, order) + EncodeAll(b, order)
  {
    hide Encode, WellTyped;
    if a == [] {
      assert a + b == b;
    } else {
      assert (a + b)[1..] == a[1..] + b;
      BytesAppend(a[1..], b, order);
    }
  }

  lemma {:induction false} EncodeAllAppend(a: seq<Item>, b: seq<Item>, order: Endian)
    requires AllWellTyped(a) && AllWellTyped(b)
    ensures AllWellTyped(a + b)
    ensures EncodeAll(a + b, order) == EncodeAll(a, order) + EncodeAll(b, order)
    ensures Chunks(a + b, order) == Chunks(a, order) + Chunks(b, order)
  {
    WellTypedAppend(a, b);
    BytesAppend(a, b, order);
    ChunksAppend(a, b, order);
  }

  /** The write() calls carry the encoding, piece by piece. */
  lemma {:induction false} ChunksConcat(items: seq<Item>, order: Endian)
    requires AllWellTyped(items)
    ensures Concat(Chunks(items, order)) == EncodeAll(items, order)
  {
    if items != [] {
      ChunksConcat(items[1..], order);
      var h, b, rest := Head(items[0], order), Body(items[0]), Chunks(items[1..], order);
      assert Chunks(items, order)[1..] == [b] + rest && ([b] + rest)[1..] == rest;
      assert Concat(Chunks(items, order)) == h + (b + Concat(rest));
    }
  }
}
