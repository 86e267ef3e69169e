/** The byte array of bytearray.cpp: a chain of equal-size nodes, a cursor and a cached current node. */
module ByteArrays {
  import opened Bytes
  import opened FlatArray

  class Node {
    const ptr: array<Byte>
    const size: nat
    var next: Node?
    ghost const index: nat

    constructor (s: nat, ghost i: nat)
      ensures ptr.Length == size == s && next == null && index == i && fresh(ptr)
    {
      index := i;
      ptr := new Byte[s];
      size := s;
      next := null;
    }
  }

  method Memcpy(dst: array<Byte>, off: nat, src: seq<Byte>)
    requires off + |src| <= dst.Length
    modifies dst
    ensures dst[..] == Splice(old(dst[..]), off, src)
  {
    forall k | 0 <= k < |src| {
      dst[off + k] := src[k];
    }
  }

  /** A piece of one node's memory, as handed to readv and writev. */
  datatype Iovec = Iovec(mem: array<Byte>, off: nat, len: nat)

  /** What writev would send: the described memory, piece after piece. */
  ghost function Gather(iovs: seq<Iovec>): (r: seq<Byte>)
    requires forall v <- iovs :: v.off + v.len <= v.mem.Length
    reads set v <- iovs :: v.mem
  {
    if iovs == [] then []
    else
      var last := iovs[|iovs| - 1];
      Gather(iovs[..|iovs| - 1]) + last.mem[last.off..last.off + last.len]
  }

  class ByteArray {
    const baseSize: nat
    var position: nat
    var capacity: nat
    var size: nat
    var order: Endian
    var root: Node
    var cur: Node?
    ghost var chain: seq<Node>
    ghost var blocks: seq<seq<Byte>>
    ghost var data: seq<Byte>
    ghost var at: nat

    ghost function Buffers(): set<object>
      reads this`chain
    {
      set n <- chain :: n.ptr
    }

    /** The nodes: equally large, linked in order, with memory of their own. */
    ghost predicate Links()
      reads this`chain, this`root, this`capacity, chain
    {
      && baseSize > 0
      && |chain| > 0 && root == chain[0]
      && (forall i :: 0 <= i < |chain| ==> chain[i].size == chain[i].ptr.Length == baseSize)
      && (forall i {:trigger chain[i].next} :: 0 <= i < |chain| ==> chain[i].next == NodeAt(i + 1))
      && (forall i {:trigger chain[i].index} :: 0 <= i < |chain| ==> chain[i].index == i)
      && (forall i, j {:trigger chain[i].ptr, chain[j].ptr} :: 0 <= i < j < |chain| ==> chain[i].ptr != chain[j].ptr)
      && capacity == Span(|chain|, baseSize)
    }

    /** What is in the first `n` of them. */
    ghost predicate Stored(n: nat)
      reads this`chain, this`blocks, this`data, chain, Buffers()
    {
      && |blocks| == n <= |chain|
      && (forall i {:trigger blocks[i]} :: 0 <= i < n ==> blocks[i] == chain[i].ptr[..])
      && data == Concat(blocks) && |data| == Span(n, baseSize)
    }

    ghost predicate ValidChain()
      reads this`chain, this`blocks, this`data, this`root, this`capacity, chain, Buffers()
    {
      Links() && Stored(|chain|)
    }

    ghost predicate Valid()
      reads this, chain, Buffers()
    {
      && ValidChain()
      && position <= size <= capacity
      && AtCursor()
    }

    ghost predicate AtCursor()
      reads this`chain, this`at, this`cur, this`position, this`capacity
    {
      AtNodeOf(position)
    }

    /** `at` is the index of the node that holds byte `v`, one past the last at the very end. */
    ghost predicate AtNodeOf(v: nat)
      reads this`chain, this`at, this`cur, this`capacity
    {
      && at <= |chain|
      && cur == NodeAt(at)
      && Span(at, baseSize) <= v
      && if at < |chain| then v < Span(at, baseSize) + baseSize else v == capacity
    }

    /** The cached node is the one at position / base, and it is null exactly at the end. */
    lemma {:induction false} CurrentNode()
      requires Valid()
      ensures at == position / baseSize && cur == NodeAt(position / baseSize)
      ensures position - Span(at, baseSize) == position % baseSize
      ensures cur == null <==> position == capacity
      ensures baseSize > 0 && |data| == capacity
    {
      BlockOfPosition(position, baseSize, at, position - Span(at, baseSize));
      SpanMonotone(at, |chain|, baseSize);
    }

    /** The current node, when there is one, has the size of all the others. */
    lemma {:induction false} CurrentSize()
      requires ValidChain() && AtCursor() && cur != null
      ensures cur.size == baseSize && baseSize > 0
    {
    }

    lemma {:induction false} SizeOf(i: nat)
      requires ValidChain() && i < |chain|
      ensures chain[i].size == baseSize && baseSize > 0 && chain[i].next == NodeAt(i + 1)
      ensures |data| == capacity == Span(|chain|, baseSize) && |chain| == |blocks|
    {
    }

    lemma {:induction false} InNode(i: nat, off: nat)
      requires ValidChain() && i < |chain| && off < baseSize
      ensures Span(i, baseSize) + off < capacity == |data| && chain[i].size == baseSize
    {
      SpanMonotone(i + 1, |chain|, baseSize);
    }

    /** The i-th node, null beyond the last one. */
    ghost function NodeAt(i: nat): Node?
      reads this`chain
    {
      if i < |chain| then chain[i] else null
    }

    ghost function View(): (f: Flat)
      requires Valid()
      reads this, chain, Buffers()
      ensures f.Valid() && |f.data| == capacity
    {
      Flat(data, position, size)
    }

    constructor (base: nat)
      requires base > 0
      ensures Valid() && fresh(chain) && forall n <- chain :: fresh(n.ptr)
      ensures baseSize == base && position == 0 && size == 0 && capacity == base && order == Big
    {
      baseSize := base;
      position := 0;
      capacity := base;
      size := 0;
      order := Big;
      var n := new Node(base, 0);
      root := n;
      cur := n;
      chain := [n];
      at := 0;
      blocks := [n.ptr[..]];
      data := n.ptr[..];
    }

    method SetIsLittleEndian(val: bool)
      requires Valid()
      modifies this`order
      ensures Valid() && View() == old(View()) && (order == Little <==> val)
    {
      order := if val then Little else Big;
    }

    /** Makes room for `n` bytes after the cursor, as far as the source's node count goes. */
    method AddCapacity(n: nat)
      requires Valid()
      modifies this, chain
      ensures ValidChain() && position == old(position) && size == old(size) && position <= size <= capacity
      ensures order == old(order)
      ensures |chain| == |old(chain)| + NodesAdded(baseSize, old(View().Room()), n)
      ensures old(chain) <= chain && old(data) <= data
      ensures forall j :: |old(chain)| <= j < |chain| ==> fresh(chain[j]) && fresh(chain[j].ptr)
      ensures AtCursor()
      ensures ShortGrowth(baseSize, old(View().Room()), n) <==> capacity - position < n
      ensures n <= capacity - position ==>
                capacity == old(capacity) + Span(NodesNeeded(baseSize, old(View().Room()), n), baseSize)
    {
      var oldCap := capacity - position;
      assert oldCap == View().Room();
      CurrentNode();
      GrowthOutcome(baseSize, |chain|, oldCap, n);
      if n != 0 && oldCap < n {
        var missing := n - oldCap;
        var count := missing / baseSize + (if missing % baseSize > oldCap then 1 else 0);
        assert count == NodesAdded(baseSize, oldCap, n);
        var first := Grow(count);
        if oldCap == 0 {
          cur := first;
        }
      }
    }

    method Grow(count: nat) returns (first: Node?)
      requires ValidChain()
      modifies this`chain, this`blocks, this`data, this`capacity, chain
      ensures ValidChain() && |chain| == |old(chain)| + count && old(chain) <= chain
      ensures old(capacity) <= capacity
      ensures forall j :: |old(chain)| <= j < |chain| ==> fresh(chain[j]) && fresh(chain[j].ptr)
      ensures first == NodeAt(|old(chain)|)
      ensures old(data) <= data
    {
      var tmp := LastNode();
      first := null;
      for i := 0 to count
        invariant ValidChain() && |chain| == |old(chain)| + i && old(chain) <= chain
        invariant old(capacity) <= capacity
        invariant tmp == chain[|chain| - 1]
        invariant forall j :: |old(chain)| <= j < |chain| ==> fresh(chain[j]) && fresh(chain[j].ptr)
        invariant first == NodeAt(|old(chain)|)
        invariant old(data) <= data
      {
        tmp := AppendNode(tmp);
        if first == null {
          first := tmp;
        }
      }
    }

    method AppendNode(tmp: Node) returns (node: Node)
      requires ValidChain() && tmp == chain[|chain| - 1]
      modifies this`chain, this`blocks, this`data, this`capacity, tmp`next
      ensures ValidChain() && chain == old(chain) + [node] && fresh(node) && fresh(node.ptr)
      ensures capacity == old(capacity) + baseSize
      ensures old(data) <= data
    {
      hide Links, Concat;
      node := new Node(baseSize, |chain|);
      LinkNode(tmp, node);
      RecordNode(node);
    }

    method LinkNode(tmp: Node, node: Node)
      requires Links() && Stored(|chain|) && tmp == chain[|chain| - 1]
      requires node.size == node.ptr.Length == baseSize && node.next == null && node.index == |chain|
      requires node !in chain && forall j :: 0 <= j < |chain| ==> chain[j].ptr != node.ptr
      modifies this`chain, this`capacity, tmp`next
      ensures Links() && Stored(|old(chain)|) && chain == old(chain) + [node]
      ensures capacity == old(capacity) + baseSize
    {
      hide Concat;
      tmp.next := node;
      chain := chain + [node];
      capacity := capacity + baseSize;
    }

    ghost method RecordNode(node: Node)
      requires |chain| > 0 && node == chain[|chain| - 1] && node.ptr.Length == baseSize && Stored(|chain| - 1)
      modifies this`blocks, this`data
      ensures Stored(|chain|) && old(data) <= data
    {
      hide Concat;
      ConcatSnoc(blocks, node.ptr[..]);
      blocks := blocks + [node.ptr[..]];
      data := data + node.ptr[..];
    }

    method LastNode() returns (tmp: Node)
      requires ValidChain()
      ensures tmp == chain[|chain| - 1]
    {
      tmp := root;
      ghost var i := 0;
      while tmp.next != null
        invariant 0 <= i < |chain| && tmp == chain[i]
        decreases |chain| - i
      {
        tmp := tmp.next;
        i := i + 1;
      }
    }

    /** memcpy into one node. */
    method Store(mem: array<Byte>, ghost i: nat, off: nat, chunk: seq<Byte>)
      requires ValidChain() && i < |chain| && mem == chain[i].ptr && off + |chunk| <= baseSize
      modifies mem, this`blocks, this`data
      ensures ValidChain()
      ensures Span(i, baseSize) + off + |chunk| <= old(|data|)
      ensures data == Splice(old(data), Span(i, baseSize) + off, chunk)
    {
      SpliceInBlock(blocks, baseSize, i, off, chunk);
      Memcpy(mem, off, chunk);
      blocks := blocks[i := Splice(blocks[i], off, chunk)];
      data := Splice(data, Span(i, baseSize) + off, chunk);
    }

    /** Moves the cursor `m` bytes on inside its node, to the next node when that one is used up. */
    method Advance(npos: nat, m: nat)
      requires ValidChain() && AtCursor() && cur != null
      requires position == Span(at, baseSize) + npos && npos + m <= baseSize
      modifies this`position, this`cur, this`at
      ensures AtCursor() && position == old(position) + m <= capacity
      ensures npos + m < baseSize ==> at == old(at)
      ensures npos + m == baseSize ==> at == old(at) + 1 && position == Span(at, baseSize)
    {
      SpanMonotone(at + 1, |chain|, baseSize);
      if at + 1 < |chain| {
        SpanMonotone(at + 2, |chain|, baseSize);
      }
      if cur.size == npos + m {
        assert chain[at].next == NodeAt(at + 1);
        cur := cur.next;
        at := at + 1;
      }
      position := position + m;
    }

    /** The first `k` bytes of `buf` have been copied over `d` from position `p` on. */
    ghost predicate Copied(d: seq<Byte>, p: nat, buf: seq<Byte>, k: nat)
      reads this`data
    {
      && k <= |buf|
      && p + k <= |d|
      && data == Splice(d, p, buf[..k])
    }

    lemma {:induction false} NothingCopied(p: nat, buf: seq<Byte>)
      requires p <= |data|
      ensures Copied(data, p, buf, 0)
    {
      assert buf[..0] == [];
      SpliceNothing(data, p);
    }

    lemma {:induction false} AllCopied(d: seq<Byte>, p: nat, buf: seq<Byte>)
      requires Copied(d, p, buf, |buf|)
      ensures p + |buf| <= |d| && data == Splice(d, p, buf)
    {
      assert buf[..|buf|] == buf;
    }

    /** One memcpy of a longer copy: the bytes of `buf` from `k` to `k + m` go to node `i` at `off`. */
    method StorePart(mem: array<Byte>, ghost i: nat, off: nat, ghost d: seq<Byte>, ghost p: nat,
                     buf: seq<Byte>, k: nat, m: nat)
      returns (next: nat)
      requires ValidChain() && i < |chain| && mem == chain[i].ptr && off + m <= baseSize
      requires Copied(d, p, buf, k) && k + m <= |buf| && p + k == Span(i, baseSize) + off
      modifies mem, this`blocks, this`data
      ensures ValidChain()
      ensures next == k + m && Copied(d, p, buf, next)
    {
      Store(mem, i, off, buf[k..k + m]);
      SpliceSplice(d, p, buf[..k], buf[k..k + m]);
      next := k + m;
      assert buf[..k] + buf[k..next] == buf[..next];
    }

    /** The copy loop of a write. `fault` says that it ran off the chain. */
    method CopyIn(buf: seq<Byte>, start: nat) returns (fault: bool)
      requires ValidChain() && AtCursor() && cur != null && position == Span(at, baseSize) + start
      requires buf != [] && start < baseSize
      modifies this`position, this`cur, this`at, this`blocks, this`data, Buffers()
      ensures ValidChain()
      ensures fault <==> old(capacity - position) < |buf|
      ensures !fault ==> AtCursor() && position == old(position) + |buf|
      ensures !fault ==> Copied(old(data), old(position), buf, |buf|)
    {
      hide ValidChain, Concat, Span, Copied;
      InNode(at, start);
      ghost var d, p := data, position;
      NothingCopied(p, buf);
      fault := false;
      var n: nat := |buf|;
      var npos := start;
      var ncap: nat := cur.size - npos;
      var bpos: nat := 0;
      while n > 0 && !fault
        invariant ValidChain() && AtCursor()
        invariant bpos + n == |buf| && position == p + bpos <= capacity
        invariant Copied(d, p, buf, bpos)
        invariant n > 0 && !fault ==>
                    cur != null && npos + ncap == baseSize && ncap > 0 && position == Span(at, baseSize) + npos
        invariant n == 0 ==> !fault
        invariant fault ==> position == capacity
      {
        if ncap >= n {
          bpos := CopyPiece(d, p, buf, bpos, npos, n);
          n := 0;
        } else {
          bpos := CopyPiece(d, p, buf, bpos, npos, ncap);
          n := n - ncap;
          if cur == null {
            fault := true;
          } else {
            CurrentSize();
            ncap := cur.size;
            npos := 0;
          }
        }
      }
    }

    /** One memcpy of the copy loop: `m` bytes of `buf` from `bpos` on. */
    method CopyPiece(ghost d: seq<Byte>, ghost p: nat, buf: seq<Byte>, bpos: nat, npos: nat, m: nat)
      returns (next: nat)
      requires ValidChain() && AtCursor() && cur != null
      requires bpos + m <= |buf| && position == p + bpos
      requires Copied(d, p, buf, bpos)
      requires position == Span(at, baseSize) + npos && npos + m <= baseSize
      modifies this`position, this`cur, this`at, this`blocks, this`data, Buffers()
      ensures ValidChain() && AtCursor() && position == old(position) + m <= capacity
      ensures next == bpos + m && Copied(d, p, buf, next)
      ensures npos + m == baseSize ==> position == Span(at, baseSize)
    {
      next := StorePart(cur.ptr, at, npos, d, p, buf, bpos, m);
      Advance(npos, m);
    }

    /**
     * Copies `buf` to the cursor after growing the chain. `fault` says that the copy ran off the
     * chain, where the source reads the size of a null node.
     */
    method Write(buf: seq<Byte>) returns (fault: bool)
      requires Valid()
      modifies this, chain, Buffers()
      ensures fault <==> ShortGrowth(baseSize, old(View().Room()), |buf|)
      ensures !fault ==> Valid() && WriteStep(baseSize, old(View()), buf, View())
      ensures forall n <- chain :: n in old(chain) || (fresh(n) && fresh(n.ptr))
      ensures order == old(order)
    {
      hide ValidChain, Concat, Span, WriteStep, NodesAdded, NodesNeeded;
      CurrentNode();
      fault := false;
      ghost var f := View();
      if buf == [] {
        EmptyWrite(baseSize, f);
      } else {
        AddCapacity(|buf|);
        ghost var grown := data;
        CurrentNode();
        fault := CopyIn(buf, position % baseSize);
        if position > size {
          size := position;
        }
        if !fault {
          AllCopied(grown, f.pos, buf);
          SpliceIsWrite(baseSize, f, grown, buf, View());
        }
      }
    }

    /** One memcpy out of the current node: the next `m` bytes at the cursor, after those in `buf`. */
    method TakePiece(ghost p: nat, buf: seq<Byte>, npos: nat, m: nat) returns (longer: seq<Byte>)
      requires ValidChain() && AtCursor() && cur != null
      requires position == Span(at, baseSize) + npos && npos + m <= baseSize
      requires p <= position <= capacity && buf == data[p..position]
      modifies this`position, this`cur, this`at
      ensures ValidChain() && AtCursor() && position == old(position) + m <= capacity
      ensures longer == data[p..position]
      ensures npos + m == baseSize ==> position == Span(at, baseSize)
    {
      SliceInBlock(blocks, baseSize, at, npos, m);
      longer := buf + cur.ptr[npos..npos + m];
      Advance(npos, m);
    }

    /**
     * Takes `n` bytes at the cursor. Even an empty read looks at the current node first, so it
     * faults when the cursor is at the very end and there is no current node.
     */
    method Read(n: nat) returns (r: Outcome<seq<Byte>>)
      requires Valid()
      modifies this`position, this`cur, this`at
      ensures Valid()
      ensures r.OutOfRange? <==> n > |old(View()).Unread()|
      ensures r.Fault? <==> n == 0 && old(position) == capacity
      ensures r.Ok? ==> r.value == old(View()).Unread()[..n] && View() == MoveTo(old(View()), old(position) + n)
      ensures !r.Ok? ==> View() == old(View())
    {
      if n > size - position {
        return OutOfRange;
      }
      if cur == null {
        return Fault;
      }
      CurrentNode();
      ghost var before := data[position..size];
      var buf := TakeOut(n, position % baseSize);
      assert before[..n] == buf;
      return Ok(buf);
    }

    /** The copy loop of a read. */
    method TakeOut(n: nat, start: nat) returns (buf: seq<Byte>)
      requires ValidChain() && AtCursor() && cur != null && position + n <= capacity
      requires start < baseSize && position == Span(at, baseSize) + start
      modifies this`position, this`cur, this`at
      ensures AtCursor() && position == old(position) + n && buf == data[old(position)..position]
    {
      hide ValidChain, Concat, Span;
      CurrentSize();
      InNode(at, start);
      var rest := n;
      var npos := start;
      var ncap := cur.size - npos;
      buf := [];
      ghost var p := position;
      while rest > 0
        invariant ValidChain() && AtCursor() && rest >= 0 && |data| == capacity
        invariant p <= position <= capacity && position + rest == p + n
        invariant buf == data[p..position]
        invariant rest > 0 ==>
                    cur != null && npos + ncap == baseSize && npos >= 0 && ncap > 0
                        && position == Span(at, baseSize) + npos
      {
        if ncap >= rest {
          buf := TakePiece(p, buf, npos, rest);
          rest := 0;
        } else {
          buf := TakePiece(p, buf, npos, ncap);
          rest := rest - ncap;
          CurrentSize();
          ncap := cur.size;
          npos := 0;
        }
      }
    }

    /** Drops every node but the first and rewinds. */
    method Clear()
      requires Valid()
      modifies this, chain
      ensures Valid() && chain == old(chain)[..1]
      ensures capacity == baseSize && position == 0 && size == 0 && order == old(order)
    {
      position, size := 0, 0;
      capacity := baseSize;
      cur := root;
      root.next := null;
      chain, blocks, data, at := chain[..1], blocks[..1], blocks[0], 0;
    }

    /** Moves the cursor, walking the chain from the root. */
    method SetPosition(v: nat) returns (r: Outcome<()>)
      requires Valid()
      modifies this`position, this`size, this`cur, this`at
      ensures Valid()
      ensures r == if v > capacity then OutOfRange else Ok(())
      ensures View() == if v > capacity then old(View()) else MoveTo(old(View()), v)
    {
      if v > capacity {
        return OutOfRange;
      }
      position := v;
      if position > size {
        size := position;
      }
      Seek(v);
      return Ok(());
    }

    method Seek(v: nat)
      requires ValidChain() && v <= capacity
      modifies this`cur, this`at
      ensures AtNodeOf(v)
    {
      var left := v;
      cur := root;
      at := 0;
      while left > cur.size
        invariant at < |chain| && cur == chain[at] && left >= 0 && Span(at, baseSize) + left == v
        decreases left
      {
        assert chain[at].next == NodeAt(at + 1);
        left := left - cur.size;
        cur := cur.next;
        at := at + 1;
      }
      if left == cur.size {
        assert chain[at].next == NodeAt(at + 1);
        cur := cur.next;
        at := at + 1;
      }
    }

    // Scatter and gather views.

    /** `v` lies inside one node and starts at byte `p` of the whole. */
    ghost predicate Inside(v: Iovec, p: int)
      reads this`chain
    {
      v.off + v.len <= v.mem.Length == baseSize &&
      exists i :: 0 <= i < |chain| && v.mem == chain[i].ptr && p == Span(i, baseSize) + v.off
    }

    /** `iovs` is a row of non-empty pieces that describes the bytes from `p` up to `q`. */
    ghost predicate Pieces(iovs: seq<Iovec>, p: int, q: int)
      reads this`chain
    {
      if iovs == [] then p == q
      else
        var last := iovs[|iovs| - 1];
        last.len > 0 && Inside(last, q - last.len) && Pieces(iovs[..|iovs| - 1], p, q - last.len)
    }

    lemma {:induction false} PushPiece(iovs: seq<Iovec>, p: int, q: int, v: Iovec, q': int)
      requires Pieces(iovs, p, q) && v.len > 0 && Inside(v, q) && q' == q + v.len
      ensures Pieces(iovs + [v], p, q')
    {
      var longer := iovs + [v];
      assert longer[..|iovs|] == iovs && longer[|iovs|] == v;
      assert q' - v.len == q;
    }

    lemma {:induction false} NoPieces(p: int)
      ensures Pieces([], p, p)
    {
    }

    /** One more piece: `m` bytes of node `i` from `npos` on. */
    method CutPiece(node: Node, ghost i: nat, npos: nat, m: nat, iovs: seq<Iovec>, ghost q: nat)
      returns (longer: seq<Iovec>, ghost q': nat)
      requires ValidChain() && i < |chain| && node == chain[i] && m > 0 && npos + m <= baseSize
      requires q == Span(i, baseSize) + npos && Pieces(iovs, position, q)
      ensures ValidChain() && q' == q + m && Pieces(longer, position, q')
      ensures q' <= capacity
      ensures npos + m == baseSize ==> q' == Span(i + 1, baseSize)
      ensures q' < capacity && npos + m == baseSize ==> i + 1 < |chain|
    {
      SpanMonotone(i + 1, |chain|, baseSize);
      var v := Iovec(node.ptr, npos, m);
      q' := q + m;
      PushPiece(iovs, position, q, v, q');
      longer := iovs + [v];
    }

    /** The loop shared by the view methods. `fault` says that it ran off the chain. */
    method CutPieces(n: nat) returns (fault: bool, iovs: seq<Iovec>)
      requires Valid() && n > 0 && position < capacity
      ensures Valid() && (fault <==> capacity - position < n)
      ensures !fault ==> Pieces(iovs, position, position + n)
    {
      CurrentNode();
      fault, iovs := CutRow(n, cur, at, position % baseSize);
    }

    method CutRow(n: nat, first: Node, ghost at: nat, start: nat) returns (fault: bool, iovs: seq<Iovec>)
      requires ValidChain() && n > 0 && at < |chain| && first == chain[at]
      requires start < baseSize && position == Span(at, baseSize) + start && position <= capacity
      ensures fault <==> capacity - position < n
      ensures !fault ==> Pieces(iovs, position, position + n)
    {
      hide ValidChain, Concat, Span, Pieces;
      SizeOf(at);
      NoPieces(position);
      iovs, fault := [], false;
      var left: nat := n;
      var npos: nat := start;
      var ncap: nat := first.size - npos;
      var node: Node? := first;
      ghost var i: nat, q: nat := at, position;
      while left > 0 && !fault
        invariant ValidChain() && q + left == position + n && q <= capacity
        invariant Pieces(iovs, position, q)
        invariant left > 0 && !fault ==>
                    i < |chain| && node == chain[i] && ncap > 0 && npos + ncap == baseSize
                        && q == Span(i, baseSize) + npos
        invariant left == 0 ==> !fault
        invariant fault ==> q == capacity
      {
        SizeOf(i);
        if ncap >= left {
          iovs, q := CutPiece(node, i, npos, left, iovs, q);
          left := 0;
        } else {
          iovs, q := CutPiece(node, i, npos, ncap, iovs, q);
          left := left - ncap;
          node := node.next;
          i := i + 1;
          if node == null {
            fault := true;
          } else {
            SizeOf(i);
            ncap := node.size;
            npos := 0;
          }
        }
      }
    }

    /** The memory in front of the cursor, at most `len` bytes of it. */
    method GetReadBuffers(len: nat) returns (n: nat, iovs: seq<Iovec>)
      requires Valid()
      ensures Valid() && n == if len > |View().Unread()| then |View().Unread()| else len
      ensures Pieces(iovs, position, position + n)
    {
      n := if len > size - position then size - position else len;
      iovs := [];
      if n > 0 {
        var fault;
        fault, iovs := CutPieces(n);
      }
    }

    /** Memory for `len` bytes at the cursor, grown as for a write but with the cursor left alone. */
    method GetWriteBuffers(len: nat) returns (fault: bool, iovs: seq<Iovec>)
      requires Valid()
      modifies this, chain
      ensures Valid() && old(chain) <= chain && old(data) <= data
      ensures forall j :: |old(chain)| <= j < |chain| ==> fresh(chain[j]) && fresh(chain[j].ptr)
      ensures position == old(position) && size == old(size) && order == old(order)
      ensures fault <==> ShortGrowth(baseSize, old(View().Room()), len)
      ensures !fault ==> position + len <= capacity && Pieces(iovs, position, position + len)
    {
      hide ValidChain, Concat, Span, Pieces, NodesAdded, NodesNeeded;
      fault, iovs := false, [];
      NoPieces(position);
      if len > 0 {
        AddCapacity(len);
        CurrentNode();
        fault, iovs := CutPieces(len);
      }
    }

    /** The pieces of a view describe, in order, exactly the bytes they stand for. */
    lemma {:induction false} GatherIsSlice(iovs: seq<Iovec>, p: nat, q: nat)
      requires ValidChain() && Pieces(iovs, p, q) && q <= capacity
      ensures p <= q
      ensures forall v <- iovs :: v.off + v.len <= v.mem.Length
      ensures Gather(iovs) == data[p..q]
    {
      assert |data| == capacity;
      hide ValidChain, Inside;
      if iovs != [] {
        var init, last := iovs[..|iovs| - 1], iovs[|iovs| - 1];
        var s: int := q - last.len;
        PieceStart(last, s);
        assert iovs == init + [last];
        GatherIsSlice(init, p, s);
        assert data[p..s] + data[s..q] == data[p..q];
      }
    }

    /** A piece holds the bytes of the whole from its start on. */
    lemma {:induction false} PieceStart(v: Iovec, s: int)
      requires ValidChain() && Inside(v, s)
      ensures 0 <= s && s + v.len <= capacity && v.off + v.len <= v.mem.Length
      ensures v.mem[v.off..v.off + v.len] == data[s..s + v.len]
    {
      var i :| 0 <= i < |chain| && v.mem == chain[i].ptr && s == Span(i, baseSize) + v.off;
      SpanMonotone(i + 1, |chain|, baseSize);
      SliceInBlock(blocks, baseSize, i, v.off, v.len);
      assert blocks[i] == chain[i].ptr[..];
      assert blocks[i][v.off..v.off + v.len] == v.mem[v.off..v.off + v.len];
    }

    /** The k-th piece and where in the whole it starts. */
    lemma {:induction false} PieceAt(iovs: seq<Iovec>, p: nat, q: nat, k: nat) returns (s: nat)
      requires ValidChain() && Pieces(iovs, p, q) && k < |iovs|
      ensures p <= s && s + iovs[k].len <= q
      ensures iovs[k].len > 0 && Inside(iovs[k], s) && Pieces(iovs[..k], p, s)
    {
      var init, last := iovs[..|iovs| - 1], iovs[|iovs| - 1];
      var t: int := q - last.len;
      PieceStart(last, t);
      if k == |iovs| - 1 {
        s := t;
        PiecesSpan(init, p, t);
      } else {
        s := PieceAt(init, p, t, k);
        assert init[..k] == iovs[..k];
      }
    }

    lemma {:induction false} PiecesSpan(iovs: seq<Iovec>, p: nat, q: nat)
      requires ValidChain() && Pieces(iovs, p, q)
      ensures p <= q
    {
      if iovs != [] {
        PieceStart(iovs[|iovs| - 1], q - iovs[|iovs| - 1].len);
        PiecesSpan(iovs[..|iovs| - 1], p, q - iovs[|iovs| - 1].len);
      }
    }

    /** A row of pieces from `p` on can end in one place only. */
    lemma {:induction false} PiecesEndIf(here: bool, iovs: seq<Iovec>, p: int, q: int, e: int)
      requires Pieces(iovs, p, q) && (here ==> Pieces(iovs, p, e))
      ensures here ==> e == q
    {
      if here {
        PiecesEnd(iovs, p, q, e);
      }
    }

    lemma {:induction false} PiecesEnd(iovs: seq<Iovec>, p: int, q: int, q': int)
      requires Pieces(iovs, p, q) && Pieces(iovs, p, q')
      ensures q == q'
    {
      if iovs != [] {
        var len := iovs[|iovs| - 1].len;
        PiecesEnd(iovs[..|iovs| - 1], p, q - len, q' - len);
      }
    }

    /** No byte of memory is in two pieces. */
    lemma {:induction false} PiecesDisjoint(iovs: seq<Iovec>, p: nat, q: nat, j: nat, k: nat)
      requires ValidChain() && Pieces(iovs, p, q) && j < k < |iovs|
      ensures iovs[j].mem == iovs[k].mem ==> iovs[j].off + iovs[j].len <= iovs[k].off
    {
      var t := PieceAt(iovs, p, q, k);
      var s := PieceAt(iovs[..k], p, t, j);
      var i1 :| 0 <= i1 < |chain| && iovs[k].mem == chain[i1].ptr && t == Span(i1, baseSize) + iovs[k].off;
      var i0 :| 0 <= i0 < |chain| && iovs[j].mem == chain[i0].ptr && s == Span(i0, baseSize) + iovs[j].off;
      assert chain[i0].ptr == chain[i1].ptr ==> i0 == i1;
    }

    /** What readv does to the memory behind a view of the bytes up to `q`: it fills the pieces in order. */
    method Scatter(iovs: seq<Iovec>, ghost q: nat, bytes: seq<Byte>)
      requires Valid() && Pieces(iovs, position, q) && position + |bytes| <= q <= capacity
      modifies this`blocks, this`data, Buffers()
      ensures Valid()
      ensures data == Splice(old(data), position, bytes)
    {
      hide Pieces, Copied, ValidChain, Concat, Span;
      ghost var d, p := data, position;
      CurrentNode();
      NothingCopied(p, bytes);
      NoPieces(p);
      assert iovs[..0] == [];
      var done: nat := 0;
      ghost var e := p;
      for k := 0 to |iovs|
        invariant ValidChain()
        invariant Copied(d, p, bytes, done) && e == p + done && done <= |bytes|
        invariant done < |bytes| ==> Pieces(iovs[..k], p, e)
      {
        if done < |bytes| {
          done, e := FillPiece(iovs, k, d, p, q, bytes, done, e);
        }
      }
      assert iovs[..|iovs|] == iovs;
      PiecesEndIf(done < |bytes|, iovs, p, q, e);
      AllCopied(d, p, bytes);
    }

    /** Fills piece `k`, or as much of it as there are bytes left. */
    method FillPiece(iovs: seq<Iovec>, k: nat, ghost d: seq<Byte>, ghost p: nat, ghost q: nat,
                     bytes: seq<Byte>, done: nat, ghost e: nat)
      returns (next: nat, ghost e': nat)
      requires ValidChain() && Pieces(iovs, p, q) && k < |iovs| && Pieces(iovs[..k], p, e)
      requires done < |bytes| && e == p + done
      requires Copied(d, p, bytes, done)
      modifies this`blocks, this`data, Buffers()
      ensures ValidChain()
      ensures Copied(d, p, bytes, next) && e' == p + next && next <= |bytes|
      ensures next < |bytes| ==> Pieces(iovs[..k + 1], p, e')
    {
      hide Pieces, Copied;
      ghost var s := PieceAt(iovs, p, q, k);
      PiecesEnd(iovs[..k], p, s, e);
      var v := iovs[k];
      ghost var i :| 0 <= i < |chain| && v.mem == chain[i].ptr && s == Span(i, baseSize) + v.off;
      var m := if |bytes| - done < v.len then |bytes| - done else v.len;
      next := StorePart(v.mem, i, v.off, d, p, bytes, done, m);
      e' := e + m;
      if next < |bytes| {
        PushPiece(iovs[..k], p, e, v, e');
        assert iovs[..k + 1] == iovs[..k] + [v];
      }
    }
  }
}
