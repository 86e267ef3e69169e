/** The ByteArray overloads of socket_stream.cpp, with the socket's answers as parameters. */
module SocketStreams {
  import opened Bytes
  import opened FlatArray
  import opened ByteArrays

  /**
   * Receives up to `length` bytes into `ba`. The socket answers with `incoming` (a positive result)
   * or with the non-positive `error`. A byte array that runs off its chain faults as in a write.
   */
  method Read(ba: ByteArray, length: nat, connected: bool, incoming: seq<Byte>, error: int)
    returns (fault: bool, rt: int)
    requires ba.Valid() && |incoming| <= length && error <= 0
    modifies ba, ba.chain, ba.Buffers()
    ensures ba.Valid()
    ensures fault <==> connected && ShortGrowth(ba.baseSize, old(ba.View().Room()), length)
    ensures !connected ==> rt == -1
    ensures connected && !fault ==> rt == if incoming == [] then error else |incoming|
    ensures rt > 0 ==> ba.View().Contents() == Overwritten(old(ba.View()), incoming)
    ensures rt <= 0 ==> ba.View().Contents() == old(ba.View().Contents())
    ensures ba.position == old(ba.position) + if rt > 0 then rt else 0
  {
    hide ByteArray.ValidChain, ByteArray.Inside, ByteArray.Pieces, Overwritten, Concat, Span, ShortGrowth;
    fault, rt := false, -1;
    if connected {
      var iovs;
      ghost var f := ba.View();
      fault, iovs := ba.GetWriteBuffers(length);
      if !fault {
        rt := if incoming == [] then error else |incoming|;
        if rt > 0 {
          ghost var grown := ba.data;
          ghost var q := ba.position + length;
          ba.Scatter(iovs, q, incoming);
          var moved := ba.SetPosition(ba.position + rt);
          FillThenMove(f, grown, incoming, ba.View());
        }
      }
    }
  }

  lemma {:induction false} SliceOfSlice(d: seq<Byte>, p: nat, q: nat, r: nat, n: nat)
    requires p + n <= q <= r <= |d|
    ensures d[p..q][..n] == d[p..r][..n]
  {
  }

  /** Sends up to `length` unread bytes. The socket takes `taken` of those offered, or fails with `error`. */
  method Write(ba: ByteArray, length: nat, connected: bool, taken: nat, error: int)
    returns (rt: int, ghost sent: seq<Byte>)
    requires ba.Valid() && error <= 0 && taken <= length && taken <= |ba.View().Unread()|
    modifies ba
    ensures ba.Valid()
    ensures rt == if !connected then -1 else if taken == 0 then error else taken
    ensures rt > 0 ==> sent == old(ba.View()).Unread()[..rt]
    ensures ba.View() == if rt > 0 then MoveTo(old(ba.View()), old(ba.position) + rt) else old(ba.View())
  {
    hide ByteArray.ValidChain, ByteArray.Inside, ByteArray.Pieces, Gather, Concat, Span;
    rt, sent := -1, [];
    ba.CurrentNode();
    if connected {
      var n, iovs := ba.GetReadBuffers(length);
      ba.GatherIsSlice(iovs, ba.position, ba.position + n);
      rt := if taken == 0 then error else taken;
      if rt > 0 {
        sent := Gather(iovs)[..taken];
        SliceOfSlice(ba.data, ba.position, ba.position + n, ba.size, taken);
        var moved := ba.SetPosition(ba.position + rt);
      }
    }
  }
}
