/** Bytes, and flat byte sequences seen as a row of equal-size blocks. */
module Bytes {
  type Byte = b: int | 0 <= b < 256

  datatype Endian = Little | Big

  /** What a call reports: a result, the out_of_range exception, or a null node being dereferenced. */
  datatype Outcome<+T> = Ok(value: T) | OutOfRange | Fault

  /** `data` with the bytes from `pos` on replaced by `chunk`. */
  function Splice(data: seq<Byte>, pos: nat, chunk: seq<Byte>): (r: seq<Byte>)
    requires pos + |chunk| <= |data|
    ensures |r| == |data|
  {
    data[..pos] + chunk + data[pos + |chunk|..]
  }

  lemma {:induction false} SpliceNothing(data: seq<Byte>, pos: nat)
    requires pos <= |data|
    ensures Splice(data, pos, []) == data
  {
  }

  /** Two adjacent splices are one. */
  lemma {:induction false} SpliceSplice(data: seq<Byte>, pos: nat, first: seq<Byte>, second: seq<Byte>)
    requires pos + |first| + |second| <= |data|
    ensures Splice(Splice(data, pos, first), pos + |first|, second) == Splice(data, pos, first + second)
  {
  }

  function Concat(blocks: seq<seq<Byte>>): seq<Byte> {
    if blocks == [] then [] else blocks[0] + Concat(blocks[1..])
  }

  /** The bytes that `count` blocks hold: count * base, by repeated addition. */
  function Span(count: nat, base: nat): (r: nat)
  {
    if count == 0 then 0 else Span(count - 1, base) + base
  }

  lemma {:induction false} SpanIsProduct(count: nat, base: nat)
    ensures Span(count, base) == count * base
  {
    if count > 0 {
      SpanIsProduct(count - 1, base);
      assert count * base == (count - 1) * base + base;
    }
  }

  lemma {:induction false} SpanMonotone(a: nat, b: nat, base: nat)
    requires a <= b
    ensures Span(a, base) <= Span(b, base)
    ensures a < b ==> Span(a, base) + base <= Span(b, base)
    decreases b
  {
    if a < b {
      SpanMonotone(a, b - 1, base);
    }
  }

  lemma {:induction false} SpanAdd(a: nat, b: nat, base: nat)
    ensures Span(a + b, base) == Span(a, base) + Span(b, base)
  {
    if b > 0 {
      SpanAdd(a, b - 1, base);
      assert Span(a + b, base) == Span(a + b - 1, base) + base;
    }
  }

  predicate Uniform(blocks: seq<seq<Byte>>, base: nat) {
    forall i :: 0 <= i < |blocks| ==> |blocks[i]| == base
  }

  lemma {:induction false} ConcatLength(blocks: seq<seq<Byte>>, base: nat)
    requires Uniform(blocks, base)
    ensures |Concat(blocks)| == Span(|blocks|, base)
  {
    if blocks != [] {
      ConcatLength(blocks[1..], base);
    }
  }

  lemma {:induction false} ConcatAppend(left: seq<seq<Byte>>, right: seq<seq<Byte>>)
    ensures Concat(left + right) == Concat(left) + Concat(right)
  {
    if left == [] {
      assert left + right == right;
    } else {
      ConcatAppend(left[1..], right);
      assert (left + right)[1..] == left[1..] + right;
      assert Concat(left + right) == left[0] + Concat((left + right)[1..]);
    }
  }

  lemma {:induction false} ConcatSnoc(blocks: seq<seq<Byte>>, b: seq<Byte>)
    ensures Concat(blocks + [b]) == Concat(blocks) + b
  {
    ConcatAppend(blocks, [b]);
    assert Concat([b]) == b;
  }

  lemma {:induction false} ConcatThree(head: seq<seq<Byte>>, block: seq<Byte>, tail: seq<seq<Byte>>)
    ensures Concat(head + [block] + tail) == Concat(head) + block + Concat(tail)
  {
    ConcatAppend(head, [block]);
    ConcatAppend(head + [block], tail);
    assert Concat([block]) == block;
  }

  lemma {:induction false} SpliceMiddle(head: seq<Byte>, block: seq<Byte>, tail: seq<Byte>, off: nat, chunk: seq<Byte>)
    requires off + |chunk| <= |block|
    ensures head + Splice(block, off, chunk) + tail == Splice(head + block + tail, |head| + off, chunk)
  {
  }

  /** Writing inside one block is writing at the matching flat offset. */
  lemma {:induction false} SpliceInBlock(blocks: seq<seq<Byte>>, base: nat, i: nat, off: nat, chunk: seq<Byte>)
    requires Uniform(blocks, base) && i < |blocks| && off + |chunk| <= base
    ensures Span(i, base) + off + |chunk| <= |Concat(blocks)|
    ensures Concat(blocks[i := Splice(blocks[i], off, chunk)]) == Splice(Concat(blocks), Span(i, base) + off, chunk)
  {
    var head, tail := blocks[..i], blocks[i + 1..];
    var block := Splice(blocks[i], off, chunk);
    ConcatLength(head, base);
    assert blocks == head + [blocks[i]] + tail;
    ConcatThree(head, blocks[i], tail);
    assert blocks[i := block] == head + [block] + tail;
    ConcatThree(head, block, tail);
    SpliceMiddle(Concat(head), blocks[i], Concat(tail), off, chunk);
  }

  /** Reading inside one block is reading at the matching flat offset. */
  lemma {:induction false} SliceInBlock(blocks: seq<seq<Byte>>, base: nat, i: nat, off: nat, n: nat)
    requires Uniform(blocks, base) && i < |blocks| && off + n <= base
    ensures Span(i, base) + off + n <= |Concat(blocks)|
    ensures Concat(blocks)[Span(i, base) + off..Span(i, base) + off + n] == blocks[i][off..off + n]
  {
    var head, tail := blocks[..i], blocks[i + 1..];
    ConcatLength(head, base);
    assert blocks == head + [blocks[i]] + tail;
    ConcatThree(head, blocks[i], tail);
    SliceMiddle(Concat(head), blocks[i], Concat(tail), off, n);
  }

  lemma {:induction false} SliceMiddle(head: seq<Byte>, block: seq<Byte>, tail: seq<Byte>, off: nat, n: nat)
    requires off + n <= |block|
    ensures (head + block + tail)[|head| + off..|head| + off + n] == block[off..off + n]
  {
  }

  /** Quotient and remainder of a position are the block and the offset in it. */
  lemma {:induction false} BlockOfPosition(pos: nat, base: nat, q: nat, r: nat)
    requires base > 0 && r < base && pos == Span(q, base) + r
    ensures pos / base == q && pos % base == r
  {
    var p := pos / base;
    SpanIsProduct(p, base);
    assert pos == p * base + pos % base;
    if p < q {
      SpanMonotone(p, q, base);
    } else if q < p {
      SpanMonotone(q, p, base);
    }
  }
}
