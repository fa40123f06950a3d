/** Both ends of the NACK loop: collecting a batch of words from the receiver's
    buffer, and answering a word from the sender's retransmission buffer. */
module NackLoop {
  import opened Basics
  import opened JitterNodes
  import opened NackWords
  import opened NackBatch
  import opened SendLog
  import opened JitterBuffers

  const MAX_NACK := 10

  /** The words for one feedback packet. Pop i takes the clock readings from position
      ps[i] up to ps[i + 1]. */
  method CollectNacks(vb: JitterBuffer, clock: nat -> int)
    returns (words: seq<nat>, ghost popped: seq<nat>, ghost ms: seq<Pending>, ghost rs: seq<Readings>,
             ghost ps: seq<nat>)
    requires vb.Valid() && vb.kind.Video? && !vb.queueOnly
    modifies vb`missing, vb`past
    ensures vb.Valid()
    ensures |popped| <= MAX_NACK && Batch(ms, rs, popped, vb.targetSeq, vb.frameLen) && Timed(rs, clock, ps)
    ensures ms[0] == old(vb.missing) && ms[|popped|] == vb.missing
    ensures popped == if |words| == MAX_NACK then words else words + [0]
    ensures forall i :: 0 <= i < |words| ==> words[i] != 0
  {
    hide Pops, Taken;
    words, popped, ms, rs, ps := [], [], [vb.missing], [], [0];
    var n, next := 0, 0;
    while n < MAX_NACK
      invariant 0 <= n <= MAX_NACK && vb.Valid()
      invariant words == popped && |popped| == n && forall i :: 0 <= i < |words| ==> words[i] != 0
      invariant Batch(ms, rs, popped, vb.targetSeq, vb.frameLen) && Timed(rs, clock, ps) && next == ps[n]
      invariant ms[0] == old(vb.missing) && ms[n] == vb.missing
    {
      ghost var from := next;
      ghost var r;
      var nack;
      nack, next, r := vb.PopNack(clock, next);
      BatchAppend(ms, rs, popped, vb.targetSeq, vb.frameLen, r, nack, vb.missing);
      TimedAppend(rs, clock, ps, r, next);
      popped, ms, rs, ps := popped + [nack], ms + [vb.missing], rs + [r], ps + [next];
      if nack == 0 { break; }
      words := words + [nack];
      n := n + 1;
    }
  }

  /** The pops read the clock one after the other, the first one from the start. */
  ghost predicate Timed(rs: seq<Readings>, clock: nat -> int, ps: seq<nat>) {
    && |ps| == |rs| + 1 && ps[0] == 0
    && forall i :: 0 <= i < |rs| ==>
         ps[i] <= ps[i + 1] && Taken(rs[i].seen, clock, ps[i], ps[i + 1])
         && Taken(rs[i].stamped, clock, ps[i], ps[i + 1])
  }

  lemma TimedAppend(rs: seq<Readings>, clock: nat -> int, ps: seq<nat>, r: Readings, next: nat)
    requires Timed(rs, clock, ps)
    requires Taken(r.seen, clock, ps[|rs|], next) && Taken(r.stamped, clock, ps[|rs|], next)
    ensures Timed(rs + [r], clock, ps + [next])
  {
    assert ps[|rs|] <= next;
    hide Taken;
    var rs', ps' := rs + [r], ps + [next];
    forall i | 0 <= i < |rs'|
      ensures ps'[i] <= ps'[i + 1] && Taken(rs'[i].seen, clock, ps'[i], ps'[i + 1])
      ensures Taken(rs'[i].stamped, clock, ps'[i], ps'[i + 1])
    {
      if i < |rs| { assert Taken(rs[i].seen, clock, ps[i], ps[i + 1]); }
    }
  }

  lemma BatchAppend(ms: seq<Pending>, rs: seq<Readings>, words: seq<nat>, target: U16, frameLen: U32, r: Readings,
                    word: nat, after: Pending)
    requires Batch(ms, rs, words, target, frameLen) && Pops(ms[|words|], after, r, target, frameLen, word)
    ensures Batch(ms + [after], rs + [r], words + [word], target, frameLen)
  {
    hide Pops;
    forall i | 0 <= i < |words| + 1
      ensures Pops((ms + [after])[i], (ms + [after])[i + 1], (rs + [r])[i], target, frameLen, (words + [word])[i])
    {
      if i < |words| {
        assert Pops(ms[i], ms[i + 1], rs[i], target, frameLen, words[i]);
      }
    }
  }

  /** The clock does not run backwards, shows no time after end, and moves less than
      RENACK_TIME; it never shows the value that marks a number as never requested. */
  ghost predicate Rising(clock: nat -> int, end: int) {
    && (forall i, j :: 0 <= i <= j ==> clock(i) <= clock(j) <= end)
    && (forall i :: 0 <= i ==> clock(i) != 1) && end - clock(0) < RENACK_TIME
  }

  ghost function TimesAt(clock: nat -> int, ps: seq<nat>): (r: seq<int>)
    ensures |r| == |ps|
  {
    seq(|ps|, i requires 0 <= i < |ps| => clock(ps[i]))
  }

  /** With such a clock the pops take place one after the other. */
  lemma RisingClock(rs: seq<Readings>, clock: nat -> int, ps: seq<nat>, end: int)
    requires Timed(rs, clock, ps) && Rising(clock, end)
    ensures Clock(rs, TimesAt(clock, ps), end) && TimesAt(clock, ps)[0] == clock(0)
  {
    PositionsRise(rs, clock, ps, |rs|);
    forall i | 0 <= i < |rs| ensures Between(rs[i], clock(ps[i]), clock(ps[i + 1])) {
      TakenBetween(rs[i], clock, ps[i], ps[i + 1], end);
    }
  }

  lemma {:induction false} PositionsRise(rs: seq<Readings>, clock: nat -> int, ps: seq<nat>, n: nat)
    requires Timed(rs, clock, ps) && n <= |rs|
    ensures forall i, j :: 0 <= i <= j <= n ==> ps[i] <= ps[j]
  {
    if n > 0 {
      PositionsRise(rs, clock, ps, n - 1);
      var m := n - 1;
      assert ps[m] <= ps[m + 1];
    }
  }

  lemma TakenBetween(r: Readings, clock: nat -> int, from: nat, next: nat, end: int)
    requires Taken(r.seen, clock, from, next) && Taken(r.stamped, clock, from, next) && Rising(clock, end)
    ensures Between(r, clock(from), clock(next))
  {
  }

  /** The numbers a word makes its receiver look up, in order. */
  function Lookups(word: nat): seq<U16> { [Pid(word)] + LookupsAfter(Pid(word), Blp(word), 16) }

  function LookupsAfter(pid: U16, blp: nat, n: nat): seq<U16> {
    if n == 0 then []
    else LookupsAfter(pid, blp, n - 1) + if BitAt(blp, n - 1) then [Following(pid, n - 1)] else []
  }

  /** The packets found under the given numbers, in order. */
  ghost function Found(stored: map<U16, Packet>, numbers: seq<U16>): seq<Packet> {
    if numbers == [] then []
    else
      var last := numbers[|numbers| - 1];
      Found(stored, numbers[..|numbers| - 1]) + if last in stored then [stored[last]] else []
  }

  /** Resend what the word asks for and the retransmission buffer still has: as long as
      nothing has been read from it, what its log says. */
  method HandleNack(word: nat, vbw: JitterBuffer) returns (sent: seq<Packet>)
    requires vbw.Valid()
    ensures forall k :: k in vbw.nodeHash ==> vbw.nodeHash[k] in vbw.nodes
    ensures sent == Found(vbw.Stored(), Lookups(word))
    ensures vbw.queueOnly && !vbw.past.tapped ==> sent == Found(Latest(vbw.past.log), Lookups(word))
  {
    hide *;
    vbw.StoredIsLatest();
    LookupsAre(word);
    var seqNo, blp := Pid(word), Blp(word);
    ghost var stored := vbw.Stored();
    var found, packet := vbw.GetPacketBySeq(seqNo);
    sent := [];
    if found {
      sent := [packet];
    }
    FoundFirst(stored, seqNo, blp);
    var i := 0;
    while i < 16
      invariant 0 <= i <= 16
      invariant sent == Found(stored, [seqNo] + LookupsAfter(seqNo, blp, i))
    {
      if BitAt(blp, i) {
        found, packet := vbw.GetPacketBySeq(Following(seqNo, i));
        FoundAppend(stored, [seqNo] + LookupsAfter(seqNo, blp, i), Following(seqNo, i));
        if found {
          sent := sent + [packet];
        }
      }
      NextLookup(seqNo, blp, i);
      i := i + 1;
    }
  }

  lemma LookupsAre(word: nat)
    ensures Lookups(word) == [Pid(word)] + LookupsAfter(Pid(word), Blp(word), 16)
  {
  }

  lemma FoundFirst(stored: map<U16, Packet>, pid: U16, blp: nat)
    ensures Found(stored, [pid] + LookupsAfter(pid, blp, 0)) == if pid in stored then [stored[pid]] else []
  {
    assert LookupsAfter(pid, blp, 0) == [] && Found(stored, []) == [];
    hide LookupsAfter, Found;
    assert [pid] + [] == [pid] == [] + [pid];
    FoundAppend(stored, [], pid);
  }

  lemma NextLookup(pid: U16, blp: nat, i: nat)
    ensures
      var before := [pid] + LookupsAfter(pid, blp, i);
      [pid] + LookupsAfter(pid, blp, i + 1) == if BitAt(blp, i) then before + [Following(pid, i)] else before
  {
  }

  lemma FoundAppend(stored: map<U16, Packet>, numbers: seq<U16>, k: U16)
    ensures Found(stored, numbers + [k]) == Found(stored, numbers) + if k in stored then [stored[k]] else []
  {
    assert (numbers + [k])[..|numbers|] == numbers;
  }

  lemma {:induction false} LookupsAreAsked(pid: U16, blp: nat, n: nat)
    ensures forall k :: k in LookupsAfter(pid, blp, n) <==> k in AskedAfter(pid, blp, n)
  {
    if n > 0 { LookupsAreAsked(pid, blp, n - 1); }
  }

  lemma {:induction false} FoundContents(stored: map<U16, Packet>, numbers: seq<U16>, p: Packet)
    requires forall k :: k in stored ==> stored[k].seqNo == k
    ensures p in Found(stored, numbers) <==> p.seqNo in numbers && p.seqNo in stored && stored[p.seqNo] == p
  {
    if numbers != [] {
      var init, last := numbers[..|numbers| - 1], numbers[|numbers| - 1];
      FoundContents(stored, init, p);
      assert numbers == init + [last];
    }
  }

  lemma {:induction false} LatestByNumber(log: seq<Packet>)
    ensures forall k :: k in Latest(log) ==> Latest(log)[k].seqNo == k && Latest(log)[k].version == 2
  {
    if log != [] { LatestByNumber(log[..|log| - 1]); }
  }

  /** Answering a receiver's word resends exactly the latest packets logged under
      the numbers the receiver was missing, and no packet with the frame mark on. */
  lemma AnswerIsExact(keys: set<U16>, least: U16, log: seq<Packet>, p: Packet)
    ensures p in Found(Latest(log), Lookups(Word(keys, least))) <==>
      Requests(keys, least, p.seqNo) && p.seqNo in Latest(log) && Latest(log)[p.seqNo] == p
    ensures p in Found(Latest(log), Lookups(Word(keys, least))) ==> p.version == 2
  {
    hide Word, Requests, Latest, Found, LookupsAfter, AskedAfter, Pid, Blp;
    var word := Word(keys, least);
    LatestByNumber(log);
    FoundContents(Latest(log), Lookups(word), p);
    LookupsAreAsked(Pid(word), Blp(word), 16);
    WordRoundTrip(keys, least);
  }
}
