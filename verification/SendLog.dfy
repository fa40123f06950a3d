/** What a retransmission buffer should remember: a log of the packets put in
    since it was last emptied, of which the last one under each number counts. */
module SendLog {
  import opened Basics
  import opened JitterNodes

  /** The packet as it goes out again: with the RTP version restored. */
  function Restored(p: Packet): Packet { p.(version := 2) }

  /** Nothing else of a packet changes, and no packet goes out with the internal mark, 1. */
  lemma RestoredIs(p: Packet, q: Packet)
    ensures Restored(p).version == 2 && (Restored(p) == Restored(q) <==> p == q.(version := p.version))
    ensures p.version == 2 ==> Restored(p) == p
  {
  }

  ghost function Latest(log: seq<Packet>): map<U16, Packet> {
    if log == [] then map[]
    else
      var p := log[|log| - 1];
      Latest(log[..|log| - 1])[p.seqNo := Restored(p)]
  }

  /** Looking a number up finds the last packet logged under it. */
  lemma {:induction false} LastPutWins(log: seq<Packet>, i: nat)
    requires i < |log| && forall j :: i < j < |log| ==> log[j].seqNo != log[i].seqNo
    ensures log[i].seqNo in Latest(log) && Latest(log)[log[i].seqNo] == Restored(log[i])
  {
    if i < |log| - 1 { LastPutWins(log[..|log| - 1], i); }
  }

  lemma {:induction false} NeverPutNotFound(log: seq<Packet>, s: U16)
    requires forall i :: 0 <= i < |log| ==> log[i].seqNo != s
    ensures s !in Latest(log)
  {
    if log != [] { NeverPutNotFound(log[..|log| - 1], s); }
  }
}
