/** The encodings of bytearray.cpp as functions between numbers and byte strings. */
module Codec {
  import opened Bytes

  function Pow256(w: nat): (p: nat)
    ensures p > 0
  {
    if w == 0 then 1 else 256 * Pow256(w - 1)
  }

  function Pow128(k: nat): (p: nat)
    ensures p > 0
  {
    if k == 0 then 1 else 128 * Pow128(k - 1)
  }

  // Fixed width.

  /** The low `w` bytes of `v`, least significant first. */
  function LittleEndian(v: nat, w: nat): (b: seq<Byte>)
    ensures |b| == w
  {
    if w == 0 then [] else [v % 256] + LittleEndian(v / 256, w - 1)
  }

  function FromLittleEndian(b: seq<Byte>): (v: nat)
  {
    if b == [] then 0 else b[0] + 256 * FromLittleEndian(b[1..])
  }

  function Reverse(b: seq<Byte>): (r: seq<Byte>)
    ensures |r| == |b|
  {
    if b == [] then [] else Reverse(b[1..]) + [b[0]]
  }

  /** The memory image of a `w`-byte unsigned value on a host of the given order. */
  function Memory(v: nat, w: nat, host: Endian): (b: seq<Byte>)
    ensures |b| == w
  {
    if host.Little? then LittleEndian(v, w) else Reverse(LittleEndian(v, w))
  }

  function FromMemory(b: seq<Byte>, host: Endian): nat {
    FromLittleEndian(if host.Little? then b else Reverse(b))
  }

  /** bswap: the value whose memory image is the mirror image. */
  function ByteSwap(v: nat, w: nat): nat {
    FromLittleEndian(Reverse(LittleEndian(v, w)))
  }

  /** What a fixed-width write puts into the array on a given host. */
  function FixedBytes(v: nat, w: nat, order: Endian, host: Endian): (b: seq<Byte>)
    ensures |b| == w
  {
    Memory(if order != host then ByteSwap(v, w) else v, w, host)
  }

  /** What a fixed-width read makes of `b` on a given host. */
  function FixedValue(b: seq<Byte>, order: Endian, host: Endian): nat {
    var v := FromMemory(b, host);
    if order == host then v else ByteSwap(v, |b|)
  }

  lemma {:induction false} LittleEndianRange(b: seq<Byte>)
    ensures FromLittleEndian(b) < Pow256(|b|)
    ensures LittleEndian(FromLittleEndian(b), |b|) == b
  {
    if b != [] {
      LittleEndianRange(b[1..]);
      assert b == [b[0]] + b[1..];
    }
  }

  lemma {:induction false} LittleEndianValue(v: nat, w: nat)
    requires v < Pow256(w)
    ensures FromLittleEndian(LittleEndian(v, w)) == v
  {
    if w > 0 {
      LittleEndianValue(v / 256, w - 1);
      assert LittleEndian(v, w)[1..] == LittleEndian(v / 256, w - 1);
    }
  }

  lemma {:induction false} ReverseSnoc(b: seq<Byte>, x: Byte)
    ensures Reverse(b + [x]) == [x] + Reverse(b)
  {
    if b != [] {
      ReverseSnoc(b[1..], x);
      assert (b + [x])[1..] == b[1..] + [x];
    }
  }

  lemma {:induction false} ReverseReverse(b: seq<Byte>)
    ensures Reverse(Reverse(b)) == b
  {
    if b != [] {
      ReverseReverse(b[1..]);
      ReverseSnoc(Reverse(b[1..]), b[0]);
    }
  }

  /** The byte order in the array is the array's setting, whatever the host's order. */
  lemma {:induction false} FixedBytesHostFree(v: nat, w: nat, order: Endian, host: Endian)
    requires v < Pow256(w)
    ensures FixedBytes(v, w, order, host) == if order.Little? then LittleEndian(v, w) else Reverse(LittleEndian(v, w))
  {
    LittleEndianRange(Reverse(LittleEndian(v, w)));
    ReverseReverse(LittleEndian(v, w));
  }

  lemma {:induction false} FixedValueHostFree(b: seq<Byte>, order: Endian, host: Endian)
    ensures FixedValue(b, order, host) == FromLittleEndian(if order.Little? then b else Reverse(b))
  {
    LittleEndianRange(b);
    LittleEndianRange(Reverse(b));
    ReverseReverse(b);
  }

  /** A fixed-width value survives, even when writer and reader run on hosts of different order. */
  lemma {:induction false} FixedRoundTrip(v: nat, w: nat, order: Endian, writer: Endian, reader: Endian)
    requires v < Pow256(w)
    ensures FixedValue(FixedBytes(v, w, order, writer), order, reader) == v
  {
    FixedBytesHostFree(v, w, order, writer);
    FixedValueHostFree(FixedBytes(v, w, order, writer), order, reader);
    LittleEndianValue(v, w);
    ReverseReverse(LittleEndian(v, w));
  }

  // Two's complement.

  predicate InSignedRange(n: int, modulus: nat) {
    0 - modulus / 2 <= n < modulus / 2
  }

  /** The unsigned value with the same bits. */
  function ToUnsigned(n: int, modulus: nat): (v: nat)
    requires InSignedRange(n, modulus)
    ensures v < modulus
  {
    if n < 0 then n + modulus else n
  }

  function ToSigned(v: nat, modulus: nat): int {
    if v < modulus / 2 then v else v - modulus
  }

  lemma {:induction false} SignedRoundTrip(n: int, modulus: nat)
    requires InSignedRange(n, modulus)
    ensures ToSigned(ToUnsigned(n, modulus), modulus) == n
  {
  }

  // Variable width.

  /** Seven bits a byte, least significant first, the top bit set on all bytes but the last. */
  function VarintBytes(v: nat): (b: seq<Byte>)
    ensures b != []
  {
    if v < 128 then [v] else [v % 128 + 128] + VarintBytes(v / 128)
  }

  /** A complete code: the first byte without the top bit is the last byte. */
  predicate IsVarint(b: seq<Byte>) {
    b != [] && if b[0] < 128 then |b| == 1 else IsVarint(b[1..])
  }

  /** Unsigned LEB128: the weighted sum of the low seven bits of each byte. */
  function VarintValue(b: seq<Byte>): nat {
    if b == [] then 0 else b[0] % 128 + 128 * VarintValue(b[1..])
  }

  lemma {:induction false} VarintIsCode(v: nat)
    ensures IsVarint(VarintBytes(v)) && VarintValue(VarintBytes(v)) == v
  {
    if v >= 128 {
      VarintIsCode(v / 128);
      assert VarintBytes(v)[1..] == VarintBytes(v / 128);
    }
  }

  /** A value has a code of at most k bytes exactly when it has at most 7k bits. */
  lemma {:induction false} VarintLength(v: nat, k: nat)
    requires k > 0
    ensures |VarintBytes(v)| <= k <==> v < Pow128(k)
  {
    if v >= 128 {
      if k > 1 {
        VarintLength(v / 128, k - 1);
      }
      assert VarintBytes(v)[1..] == VarintBytes(v / 128);
    }
  }

  /** The scratch buffers of five and of ten bytes are never overrun. */
  lemma {:induction false} VarintFitsScratch(v: nat)
    ensures v < 0x1_0000_0000 ==> |VarintBytes(v)| <= 5
    ensures v < 0x1_0000_0000_0000_0000 ==> |VarintBytes(v)| <= 10
  {
    Pow128Values();
    VarintLength(v, 5);
    VarintLength(v, 10);
  }

  /** A shorter scratch buffer would be: some values of each width need every byte. */
  lemma {:induction false} VarintNeedsScratch(v: nat)
    ensures 0x1000_0000 <= v ==> |VarintBytes(v)| > 4
    ensures 0x8000_0000_0000_0000 <= v ==> |VarintBytes(v)| > 9
  {
    Pow128Values();
    VarintLength(v, 4);
    VarintLength(v, 9);
  }

  lemma {:induction false} Pow128Values()
    ensures Pow128(4) == 0x1000_0000 && Pow128(5) == 0x8_0000_0000
    ensures Pow128(9) == 0x8000_0000_0000_0000 && Pow128(10) == 0x40_0000_0000_0000_0000
  {
    assert Pow128(3) == 0x20_0000;
    assert Pow128(6) == 0x400_0000_0000;
    assert Pow128(8) == 0x100_0000_0000_0000;
  }

  /** No code is a proper prefix of another. */
  lemma {:induction false} VarintPrefixFree(a: seq<Byte>, b: seq<Byte>)
    requires IsVarint(a) && IsVarint(b) && a <= b
    ensures a == b
  {
    if a[0] >= 128 {
      assert a[1..] <= b[1..];
      VarintPrefixFree(a[1..], b[1..]);
      assert a == [a[0]] + a[1..] && b == [b[0]] + b[1..];
    }
  }

  /** The written code is the shortest code of its value, and the only one of that length. */
  lemma {:induction false} VarintMinimal(b: seq<Byte>)
    requires IsVarint(b)
    ensures |VarintBytes(VarintValue(b))| <= |b|
    ensures |VarintBytes(VarintValue(b))| == |b| ==> VarintBytes(VarintValue(b)) == b
  {
    var v := VarintValue(b);
    if b[0] >= 128 {
      VarintMinimal(b[1..]);
      assert v / 128 == VarintValue(b[1..]) && v % 128 == b[0] - 128;
      assert b == [b[0]] + b[1..];
    } else {
      assert b[1..] == [];
    }
  }

  /** A result and how many bytes were taken to reach it. */
  datatype Parsed<+T> = Parsed(outcome: Outcome<T>, used: nat)

  /** The reader's loop: at most `groups` bytes, stopping at the first without the top bit. */
  function ParseVarint(b: seq<Byte>, groups: nat): (p: Parsed<nat>)
    ensures p.used <= |b| && !p.outcome.Fault?
    decreases groups
  {
    if groups == 0 then Parsed(Ok(0), 0)
    else if b == [] then Parsed(OutOfRange, 0)
    else if b[0] < 128 then Parsed(Ok(b[0]), 1)
    else
      var rest := ParseVarint(b[1..], groups - 1);
      Parsed(if rest.outcome.Ok? then Ok(b[0] % 128 + 128 * rest.outcome.value) else OutOfRange, rest.used + 1)
  }

  /** The reader takes exactly the written bytes, whatever follows them. */
  lemma {:induction false} VarintRoundTrip(v: nat, groups: nat, rest: seq<Byte>)
    requires |VarintBytes(v)| <= groups
    ensures ParseVarint(VarintBytes(v) + rest, groups) == Parsed(Ok(v), |VarintBytes(v)|)
  {
    if v >= 128 {
      assert VarintBytes(v)[1..] == VarintBytes(v / 128);
      VarintRoundTrip(v / 128, groups - 1, rest);
      assert (VarintBytes(v) + rest)[1..] == VarintBytes(v / 128) + rest;
    }
  }

  // Zigzag.

  const TWO_32: nat := 0x1_0000_0000
  const TWO_64: nat := 0x1_0000_0000_0000_0000

  /** The writer's arithmetic, wrapping around at the modulus as the machine does. */
  function EncodeZigzag(n: int, modulus: nat): (v: nat)
    requires modulus == TWO_32 || modulus == TWO_64
    ensures v < modulus
  {
    if n < 0 then ((-n) % modulus * 2 - 1) % modulus else n * 2 % modulus
  }

  /** Half of v, with all bits flipped when v is odd. */
  function DecodeZigzag(v: nat, modulus: nat): int
    requires modulus == TWO_32 || modulus == TWO_64
    requires v < modulus
  {
    ToSigned(if v % 2 == 0 then v / 2 else modulus - 1 - v / 2, modulus)
  }

  /** Zigzag is a bijection between the signed and the unsigned values, the minimum included. */
  lemma {:induction false} ZigzagRoundTrip(n: int, modulus: nat)
    requires modulus == TWO_32 || modulus == TWO_64
    requires InSignedRange(n, modulus)
    ensures DecodeZigzag(EncodeZigzag(n, modulus), modulus) == n
    ensures EncodeZigzag(n, modulus) == if n < 0 then -2 * n - 1 else 2 * n
  {
    if n < 0 {
      assert (-n) % modulus == -n;
      var e := -n * 2 - 1;
      assert e % modulus == e && e % 2 == 1 && e / 2 == -n - 1;
    } else {
      var e := n * 2;
      assert e % modulus == e && e % 2 == 0 && e / 2 == n;
    }
  }

  lemma {:induction false} ZigzagOnto(v: nat, modulus: nat)
    requires modulus == TWO_32 || modulus == TWO_64
    requires v < modulus
    ensures InSignedRange(DecodeZigzag(v, modulus), modulus)
    ensures EncodeZigzag(DecodeZigzag(v, modulus), modulus) == v
  {
    var n, h := DecodeZigzag(v, modulus), v / 2;
    if v % 2 == 0 {
      ZigzagEven(h, modulus);
      assert n == h;
    } else {
      ZigzagOdd(h, n, modulus);
    }
  }

  lemma {:induction false} ZigzagEven(h: nat, modulus: nat)
    requires (modulus == TWO_32 || modulus == TWO_64) && 2 * h < modulus
    ensures EncodeZigzag(h, modulus) == 2 * h
  {
  }

  lemma {:induction false} ZigzagOdd(h: nat, n: int, modulus: nat)
    requires (modulus == TWO_32 || modulus == TWO_64) && 2 * h + 1 < modulus && n + h + 1 == 0
    ensures EncodeZigzag(n, modulus) == 2 * h + 1
  {
    assert (-n) % modulus == -n;
  }
}
