/** Whole runs of a byte array against the flat picture. */
module ByteArrayRuns {
  import opened Bytes
  import opened FlatArray
  import opened ByteArrays

  datatype Op = Write(bytes: seq<Byte>) | Read(n: nat) | SetPosition(v: nat) | Clear

  datatype Answer = Done | Got(bytes: seq<Byte>) | TooFar | Crash

  /** What an operation may answer and leave behind, told without nodes. A crash leaves nothing to tell. */
  ghost predicate FlatStep(base: nat, f: Flat, op: Op, a: Answer, f': Flat)
    requires base > 0 && f.Valid()
  {
    match op
    case Write(bytes) =>
      if ShortGrowth(base, f.Room(), |bytes|) then a == Crash
      else a == Done && WriteStep(base, f, bytes, f')
    case Read(n) =>
      if n > |f.Unread()| then a == TooFar && f' == f
      else if n == 0 && f.pos == |f.data| then a == Crash
      else a == Got(f.Unread()[..n]) && f' == MoveTo(f, f.pos + n)
    case SetPosition(v) =>
      if v > |f.data| then a == TooFar && f' == f
      else a == Done && f' == MoveTo(f, v)
    case Clear =>
      a == Done && f'.pos == f'.size == 0 && |f'.data| == base
  }

  /** One call. */
  method Perform(ba: ByteArray, op: Op) returns (a: Answer)
    requires ba.Valid()
    modifies ba, ba.chain, ba.Buffers()
    ensures forall n <- ba.chain :: n in old(ba.chain) || (fresh(n) && fresh(n.ptr))
    ensures a != Crash ==> ba.Valid() && FlatStep(ba.baseSize, old(ba.View()), op, a, ba.View())
    ensures a == Crash ==> forall f' :: FlatStep(ba.baseSize, old(ba.View()), op, a, f')
  {
    match op {
      case Write(bytes) =>
        var fault := ba.Write(bytes);
        a := if fault then Crash else Done;
      case Read(n) =>
        var r := ba.Read(n);
        a := match r case Ok(b) => Got(b) case OutOfRange => TooFar case Fault => Crash;
      case SetPosition(v) =>
        var r := ba.SetPosition(v);
        a := if r.Ok? then Done else TooFar;
      case Clear =>
        ba.Clear();
        a := Done;
    }
  }

  /** `trace` is the flat picture before each call and after the last one. */
  ghost predicate FlatRun(base: nat, ops: seq<Op>, answers: seq<Answer>, trace: seq<Flat>)
    requires base > 0
  {
    && |answers| <= |ops| && |trace| == |answers| + 1
    && trace[0].pos == trace[0].size == 0 && |trace[0].data| == base
    && forall k :: 0 <= k < |answers| ==>
         trace[k].Valid() && FlatStep(base, trace[k], ops[k], answers[k], trace[k + 1])
  }

  /**
   * Every list of calls on a fresh array, for every node size, answers as the flat picture says, up
   * to the first call that crashes.
   */
  method Replay(base: nat, ops: seq<Op>) returns (answers: seq<Answer>, ghost trace: seq<Flat>)
    requires base > 0
    ensures FlatRun(base, ops, answers, trace)
    ensures |answers| < |ops| ==> answers != [] && answers[|answers| - 1] == Crash
    ensures forall k :: 0 <= k < |answers| - 1 ==> answers[k] != Crash
  {
    hide FlatStep, Concat, Span;
    var ba := new ByteArray(base);
    answers, trace := [], [ba.View()];
    var crashed := false;
    while |answers| < |ops| && !crashed
      invariant ba.baseSize == base && fresh(ba) && forall n <- ba.chain :: fresh(n) && fresh(n.ptr)
      invariant FlatRun(base, ops, answers, trace)
      invariant !crashed ==> ba.Valid() && trace[|answers|] == ba.View()
      invariant forall k :: 0 <= k < |answers| - 1 ==> answers[k] != Crash
      invariant if crashed then answers != [] && answers[|answers| - 1] == Crash
                else forall k :: 0 <= k < |answers| ==> answers[k] != Crash
      decreases |ops| - |answers|
    {
      var a := Perform(ba, ops[|answers|]);
      crashed := a == Crash;
      ghost var after := if crashed then trace[|answers|] else ba.View();
      trace := trace + [after];
      answers := answers + [a];
    }
  }
}
