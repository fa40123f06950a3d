/** One whole round of the feedback loop: the receiver's buffer is asked for words, which
    travel in a compound packet, and the sender resends what they ask for, or forgets
    what it has sent if it is to start over. */
module FeedbackLoop {
  import opened Basics
  import opened JitterNodes
  import opened NackWords
  import opened NackBatch
  import opened NackLoop
  import opened JitterBuffers
  import Builder = RtcpBuilder
  import opened RtcpFraming

  /** All numbers that words make their receiver look up, in order. */
  ghost function AllLookups(words: seq<nat>): seq<U16> {
    if words == [] then [] else AllLookups(words[..|words| - 1]) + Lookups(words[|words| - 1])
  }

  ghost predicate Words32(words: seq<nat>) { forall i :: 0 <= i < |words| ==> words[i] < 0x1_0000_0000 }

  lemma {:induction false} FoundConcat(stored: map<U16, Packet>, a: seq<U16>, b: seq<U16>)
    ensures Found(stored, a + b) == Found(stored, a) + Found(stored, b)
  {
    FoundNone(stored);
    hide Found;
    if b == [] {
      assert a + b == a;
    } else {
      var init, last := b[..|b| - 1], b[|b| - 1];
      FoundConcat(stored, a, init);
      FoundAppend(stored, a + init, last);
      FoundAppend(stored, init, last);
      assert b == init + [last] && a + b == (a + init) + [last];
    }
  }

  lemma FoundNone(stored: map<U16, Packet>)
    ensures Found(stored, []) == []
  {
  }

  /** What is resent from a store for one call, and what is stored then. A stream that
      only receives is not refreshed. */
  ghost function SentFor(stored: map<U16, Packet>, call: Call): seq<Packet> {
    if call.Refresh? then [] else Found(stored, Lookups(call.word))
  }

  function LeftBy(stored: map<U16, Packet>, call: Call, recvOnly: bool): map<U16, Packet> {
    if call.Refresh? && !recvOnly then map[] else stored
  }

  /** The same for the calls of one feedback packet, in order. */
  ghost function Answers(stored: map<U16, Packet>, calls: seq<Call>, recvOnly: bool): (seq<Packet>, map<U16, Packet>) {
    if calls == [] then ([], stored)
    else
      var (sent, left) := Answers(stored, calls[..|calls| - 1], recvOnly);
      var call := calls[|calls| - 1];
      (sent + SentFor(left, call), LeftBy(left, call, recvOnly))
  }

  /** Answer the calls of one feedback packet from the retransmission buffer. */
  method Answer(calls: seq<Call>, vbw: JitterBuffer, recvOnly: bool) returns (resent: seq<Packet>)
    requires vbw.Valid()
    modifies vbw`visibleNodes, vbw`nodeHash, vbw`completeFrames, vbw`nodes, vbw`nodeList
    modifies vbw.nodes`visible, vbw.nodes`next, vbw.nodes`prev
    modifies vbw`missing, vbw`lastTargetSeq, vbw`targetSeq, vbw`nextSeq, vbw`wrote, vbw`read, vbw`period
    modifies vbw`unique, vbw`tally, vbw`past, vbw`ledger
    ensures vbw.Valid() && vbw.nodes == old(vbw.nodes)
    ensures (resent, vbw.Stored()) == Answers(old(vbw.Stored()), calls, recvOnly)
  {
    hide *;
    vbw.StoredIsLatest();
    ghost var stored := vbw.Stored();
    resent := [];
    NothingCalled(stored, recvOnly);
    var i := 0;
    while i < |calls|
      invariant 0 <= i <= |calls| && vbw.Valid() && vbw.nodes == old(vbw.nodes)
      invariant forall k :: k in vbw.nodeHash ==> vbw.nodeHash[k] in vbw.nodes
      invariant (resent, vbw.Stored()) == Answers(stored, calls[..i], recvOnly)
    {
      NextCalled(stored, calls, i, recvOnly);
      var packets := AnswerOne(calls[i], vbw, recvOnly);
      resent := resent + packets;
      i := i + 1;
    }
    assert calls[..i] == calls;
  }

  /** Answer one call. */
  method AnswerOne(call: Call, vbw: JitterBuffer, recvOnly: bool) returns (packets: seq<Packet>)
    requires vbw.Valid()
    modifies vbw`visibleNodes, vbw`nodeHash, vbw`completeFrames, vbw`nodes, vbw`nodeList
    modifies vbw.nodes`visible, vbw.nodes`next, vbw.nodes`prev
    modifies vbw`missing, vbw`lastTargetSeq, vbw`targetSeq, vbw`nextSeq, vbw`wrote, vbw`read, vbw`period
    modifies vbw`unique, vbw`tally, vbw`past, vbw`ledger
    ensures vbw.Valid() && vbw.nodes == old(vbw.nodes)
    ensures forall k :: k in vbw.nodeHash ==> vbw.nodeHash[k] in vbw.nodes
    ensures packets == SentFor(old(vbw.Stored()), call) && vbw.Stored() == LeftBy(old(vbw.Stored()), call, recvOnly)
  {
    hide *;
    vbw.StoredIsLatest();
    CallIs(vbw.Stored(), call, recvOnly);
    packets := [];
    match call {
      case Refresh =>
        if !recvOnly {
          vbw.ResetBuffer();
        }
      case Resend(word) =>
        packets := HandleNack(word, vbw);
    }
    vbw.StoredIsLatest();
  }

  lemma CallIs(stored: map<U16, Packet>, call: Call, recvOnly: bool)
    ensures SentFor(stored, call) == if call.Refresh? then [] else Found(stored, Lookups(call.word))
    ensures LeftBy(stored, call, recvOnly) == if call.Refresh? && !recvOnly then map[] else stored
  {
  }

  lemma NothingCalled(stored: map<U16, Packet>, recvOnly: bool)
    ensures forall calls: seq<Call> :: calls[..0] == []
    ensures Answers(stored, [], recvOnly) == ([], stored)
  {
  }

  lemma NextCalled(stored: map<U16, Packet>, calls: seq<Call>, i: nat, recvOnly: bool)
    requires i < |calls|
    ensures
      var (sent, left) := Answers(stored, calls[..i], recvOnly);
      Answers(stored, calls[..i + 1], recvOnly) ==
      (sent + SentFor(left, calls[i]), LeftBy(left, calls[i], recvOnly))
  {
    hide SentFor, LeftBy;
    assert calls[..i + 1][..i] == calls[..i];
  }

  /** Calls in two parts are answered one part after the other. */
  lemma {:induction false} AnswersConcat(stored: map<U16, Packet>, a: seq<Call>, b: seq<Call>, recvOnly: bool)
    ensures
      var (sent, left) := Answers(stored, a, recvOnly);
      var (sent', left') := Answers(left, b, recvOnly);
      Answers(stored, a + b, recvOnly) == (sent + sent', left')
  {
    hide SentFor, LeftBy, Answers;
    var (sent, left) := Answers(stored, a, recvOnly);
    NothingCalled(left, recvOnly);
    if b == [] {
      assert a + b == a && sent + [] == sent;
    } else {
      var n := |b| - 1;
      AnswersConcat(stored, a, b[..n], recvOnly);
      var (sent', left') := Answers(left, b[..n], recvOnly);
      assert (a + b)[..|a| + n] == a + b[..n];
      NextCalled(stored, a + b, |a| + n, recvOnly);
      NextCalled(left, b, n, recvOnly);
      assert (a + b)[..|a| + n + 1] == a + b && b[..n + 1] == b && (a + b)[|a| + n] == b[n];
      Regroup(sent, sent', SentFor(left', b[n]));
    }
  }

  /** Words are answered from the store that they find. */
  lemma {:induction false} AnswersResends(stored: map<U16, Packet>, words: seq<U32>, recvOnly: bool)
    ensures Answers(stored, Resends(words), recvOnly) == (Found(stored, AllLookups(words)), stored)
  {
    hide Lookups;
    NothingAsked(stored);
    if words != [] {
      var n := |words| - 1;
      AnswersResends(stored, words[..n], recvOnly);
      assert Resends(words)[..n] == Resends(words[..n]);
      NextCalled(stored, Resends(words), n, recvOnly);
      assert Resends(words)[..n + 1] == Resends(words) && words[..n + 1] == words;
      FoundConcat(stored, AllLookups(words[..n]), Lookups(words[n]));
      NextAsked(words, n);
    }
  }

  lemma {:induction false} NothingFound(numbers: seq<U16>)
    ensures Found(map[], numbers) == []
  {
    if numbers != [] { NothingFound(numbers[..|numbers| - 1]); }
  }

  /** What a compound packet does to the other end: a PLI, which goes first, leaves its
      words nothing to find, and a FIR, which goes last, only forgets. */
  lemma AnswersDue(stored: map<U16, Packet>, asks: Builder.Asks, r: Builder.Round, recvOnly: bool)
    requires r.video && r.nack
    ensures Answers(stored, Builder.CallsDue(asks, r), recvOnly) ==
            (if asks.pli != 0 && !recvOnly then [] else Found(stored, AllLookups(r.words)),
             if (asks.pli != 0 || asks.fir != 0) && !recvOnly then map[] else stored)
  {
    hide AllLookups, Found, SentFor, LeftBy, Answers;
    var pli, words, fir := Builder.Refreshes(asks.pli), Resends(r.words), Builder.Refreshes(asks.fir);
    var kept := if asks.pli != 0 && !recvOnly then map[] else stored;
    AnswersRefreshes(stored, asks.pli, recvOnly);
    AnswersResends(kept, r.words, recvOnly);
    NothingFound(AllLookups(r.words));
    AnswersRefreshes(kept, asks.fir, recvOnly);
    AnswersConcat(stored, pli, words, recvOnly);
    AnswersConcat(stored, pli + words, fir, recvOnly);
    assert Builder.CallsDue(asks, r) == pli + words + fir;
    var found := Found(kept, AllLookups(r.words));
    assert [] + found == found && found + [] == found;
  }

  lemma AnswersRefreshes(stored: map<U16, Packet>, asked: nat, recvOnly: bool)
    ensures Answers(stored, Builder.Refreshes(asked), recvOnly) ==
            ([], if asked != 0 && !recvOnly then map[] else stored)
  {
    NothingCalled(stored, recvOnly);
    if asked != 0 {
      NextCalled(stored, [Refresh], 0, recvOnly);
      assert [Refresh][..1] == [Refresh] && [Refresh][..0] == [];
      assert [] + SentFor(stored, Refresh) == [];
    }
  }

  lemma NothingAsked(stored: map<U16, Packet>)
    ensures Found(stored, AllLookups([])) == []
  {
  }

  lemma NextAsked(words: seq<nat>, i: nat)
    requires i < |words|
    ensures AllLookups(words[..i + 1]) == AllLookups(words[..i]) + Lookups(words[i])
  {
    assert words[..i + 1][..i] == words[..i];
  }

  lemma WordsFit(ms: seq<Pending>, rs: seq<Readings>, popped: seq<nat>, target: U16, frameLen: U32)
    requires Batch(ms, rs, popped, target, frameLen)
    ensures Words32(popped)
  {
    hide Pops;
    forall i | 0 <= i < |popped| ensures popped[i] < 0x1_0000_0000 {
      WordFits(ms[i], ms[i + 1], rs[i], target, frameLen, popped[i]);
    }
  }

  lemma WordFits(before: Pending, after: Pending, r: Readings, target: U16, frameLen: U32, word: nat)
    requires Pops(before, after, r, target, frameLen, word)
    ensures word < 0x1_0000_0000
  {
    hide Word, Pid;
    if word != 0 { WordParts(Live(before, r.seen, target, frameLen).Keys, Pid(word)); }
  }

  // ---- what a quick batch looks up ----

  ghost predicate NoRepeats(numbers: seq<U16>) {
    forall i, j :: 0 <= i < j < |numbers| ==> numbers[i] != numbers[j]
  }

  lemma AskedAreLookups(word: nat, k: U16)
    ensures k in Lookups(word) <==> k in Asked(word)
  {
    LookupsAreAsked(Pid(word), Blp(word), 16);
  }

  lemma {:induction false} LookupsRise(pid: U16, blp: nat, n: nat)
    requires pid <= 0xFFFF - 16 && n <= 16
    ensures NoRepeats([pid] + LookupsAfter(pid, blp, n))
    ensures forall k :: k in LookupsAfter(pid, blp, n) ==> pid < k <= pid + n
  {
    hide BitAt, Following, LookupsAfter;
    LookupsStep(pid, blp, n);
    if n > 0 {
      LookupsRise(pid, blp, n - 1);
      NextLookup(pid, blp, n - 1);
      if BitAt(blp, n - 1) { Joined([pid] + LookupsAfter(pid, blp, n - 1), [Following(pid, n - 1)]); }
    }
  }

  lemma LookupsStep(pid: U16, blp: nat, n: nat)
    requires pid <= 0xFFFF - 16 && n <= 16
    ensures n == 0 ==> LookupsAfter(pid, blp, n) == []
    ensures n > 0 ==>
              && Following(pid, n - 1) == pid + n
              && LookupsAfter(pid, blp, n) ==
                 LookupsAfter(pid, blp, n - 1) + if BitAt(blp, n - 1) then [Following(pid, n - 1)] else []
  {
  }

  lemma {:induction false} LookedUpBy(words: seq<nat>, k: U16)
    ensures k in AllLookups(words) <==> exists i :: 0 <= i < |words| && k in Asked(words[i])
  {
    hide Lookups, Asked;
    if words != [] {
      var n := |words| - 1;
      LookedUpBy(words[..n], k);
      AskedAreLookups(words[n], k);
      assert words == words[..n] + [words[n]];
    }
  }

  /** A quick batch has the sender look up no number twice. */
  lemma {:induction false} LookupsDistinct(ms: seq<Pending>, rs: seq<Readings>, ts: seq<int>, popped: seq<nat>,
                                           target: U16, frameLen: U32, end: int, n: nat)
    requires QuickBatch(ms, rs, ts, popped, target, frameLen, end) && n <= |popped|
    requires forall i :: 0 <= i < n ==> popped[i] != 0
    ensures NoRepeats(AllLookups(popped[..n]))
  {
    hide Lookups, Asked, Pid, Word, QuickBatch, Steady;
    if n > 0 {
      var before, word := popped[..n - 1], popped[n - 1];
      LookupsDistinct(ms, rs, ts, popped, target, frameLen, end, n - 1);
      NextAsked(popped, n - 1);
      PopDistinct(ms, rs, ts, popped, target, frameLen, end, n - 1);
      forall k | k in AllLookups(before) ensures k !in Lookups(word) {
        LookedUpBy(before, k);
        var i :| 0 <= i < |before| && k in Asked(before[i]);
        BatchDisjoint(ms, rs, ts, popped, target, frameLen, end, i, n - 1);
        AskedAreLookups(word, k);
      }
      Joined(AllLookups(before), Lookups(word));
    }
  }

  lemma Joined(a: seq<U16>, b: seq<U16>)
    requires NoRepeats(a) && NoRepeats(b) && forall k :: k in a ==> k !in b
    ensures NoRepeats(a + b)
  {
    forall i, j | 0 <= i < j < |a + b| ensures (a + b)[i] != (a + b)[j] {
      if i < |a| <= j { assert a[i] in a && b[j - |a|] in b; }
    }
  }

  lemma PopDistinct(ms: seq<Pending>, rs: seq<Readings>, ts: seq<int>, popped: seq<nat>, target: U16, frameLen: U32,
                    end: int, i: nat)
    requires QuickBatch(ms, rs, ts, popped, target, frameLen, end) && i < |popped| && popped[i] != 0
    ensures NoRepeats(Lookups(popped[i]))
  {
    hide Pid, Blp, Word, Asked, LookupsAfter;
    BatchStays(ms, rs, ts, popped, target, frameLen, end, i);
    assert Pops(ms[i], ms[i + 1], rs[i], target, frameLen, popped[i]);
    assert Pid(popped[i]) in ms[i];
    LookupsRise(Pid(popped[i]), Blp(popped[i]), 16);
  }

  lemma {:induction false} FoundOnce(stored: map<U16, Packet>, numbers: seq<U16>)
    requires NoRepeats(numbers) && forall k :: k in stored ==> stored[k].seqNo == k
    ensures forall i, j :: 0 <= i < j < |Found(stored, numbers)| ==>
      Found(stored, numbers)[i].seqNo != Found(stored, numbers)[j].seqNo
  {
    if numbers != [] {
      var init, last := numbers[..|numbers| - 1], numbers[|numbers| - 1];
      FoundOnce(stored, init);
      forall i | 0 <= i < |Found(stored, init)| ensures Found(stored, init)[i].seqNo != last {
        FoundContents(stored, init, Found(stored, init)[i]);
      }
    }
  }

  lemma BatchSizes(ms: seq<Pending>, rs: seq<Readings>, ts: seq<int>, popped: seq<nat>, target: U16, frameLen: U32,
                   end: int)
    requires QuickBatch(ms, rs, ts, popped, target, frameLen, end)
    ensures |ms| == |popped| + 1 && |ts| == |popped| + 1
  {
  }

  /** What one round resends: every packet still stored whose number the receiver was
      missing, due to be asked for and not too old, if the batch ended by itself; and
      no packet twice. */
  lemma RoundResends(ms: seq<Pending>, rs: seq<Readings>, ts: seq<int>, popped: seq<nat>, target: U16, frameLen: U32,
                     end: int, stored: map<U16, Packet>, n: nat)
    requires QuickBatch(ms, rs, ts, popped, target, frameLen, end)
    requires n <= |popped| && forall i :: 0 <= i < n ==> popped[i] != 0
    requires forall k :: k in stored ==> stored[k].seqNo == k
    ensures
      var resent := Found(stored, AllLookups(popped[..n]));
      && (forall i, j :: 0 <= i < j < |resent| ==> resent[i].seqNo != resent[j].seqNo)
      && (n == |popped| - 1 && popped[n] == 0 ==>
           forall k :: k in ms[0] && Due(ms[0], k, ts[0]) && !TooOld(k, target, frameLen) && k in stored ==>
             stored[k] in resent)
  {
    BatchSizes(ms, rs, ts, popped, target, frameLen, end);
    hide Asked, Word, Pid, Found, QuickBatch, AllLookups;
    LookupsDistinct(ms, rs, ts, popped, target, frameLen, end, n);
    FoundOnce(stored, AllLookups(popped[..n]));
    if n == |popped| - 1 && popped[n] == 0 {
      forall k | k in ms[0] && Due(ms[0], k, ts[0]) && !TooOld(k, target, frameLen) && k in stored
        ensures stored[k] in Found(stored, AllLookups(popped[..n]))
      {
        BatchCovers(ms, rs, ts, popped, target, frameLen, end, k);
        var i :| 0 <= i < n && k in Asked(popped[i]);
        assert popped[..n][i] == popped[i];
        LookedUpBy(popped[..n], k);
        FoundContents(stored, AllLookups(popped[..n]), stored[k]);
      }
    }
  }

  /** Number k was due and not too old, and is still stored. */
  ghost predicate DueAndStored(before: Pending, now: int, target: U16, frameLen: U32, stored: map<U16, Packet>,
                               k: U16) {
    k in before && Due(before, k, now) && !TooOld(k, target, frameLen) && k in stored
  }

  /** Every such number is resent. */
  ghost predicate Served(before: Pending, now: int, target: U16, frameLen: U32, stored: map<U16, Packet>,
                         resent: seq<Packet>) {
    forall k: U16 :: DueAndStored(before, now, target, frameLen, stored, k) ==> stored[k] in resent
  }

  ghost predicate NoneTwice(resent: seq<Packet>) {
    forall i, j :: 0 <= i < j < |resent| ==> resent[i].seqNo != resent[j].seqNo
  }

  /** A round, through the wire, while the clock moves less than RENACK_TIME and no
      pending number becomes due. clock gives its readings in turn, r says what else the feedback packet carries, and
      recvOnly whether the sender's stream only receives. What is due and stored is
      resent exactly if no PLI goes with the words, or the sender does not heed it; else
      nothing is. After a PLI or a FIR that is heeded the sender has nothing stored. */
  method Round(vb: JitterBuffer, clock: nat -> int, ghost end: int, sender: Builder.RtcpSender, r: Builder.Round,
               vbw: JitterBuffer, recvOnly: bool)
    returns (words: seq<nat>, resent: seq<Packet>)
    requires vb.Valid() && vb.kind.Video? && !vb.queueOnly
    requires vbw.Valid() && vb != vbw && forall n :: n in vb.nodes ==> n !in vbw.nodes
    requires sender.Valid() && Builder.RoundOk(r) && r.video && r.nack
    requires Rising(clock, end) && NoWrap(vb.missing) && Steady(vb.missing, clock(0), end)
    modifies vb`missing, vb`past, sender.buf, sender`asks, sender`nacksInflight
    modifies vbw`visibleNodes, vbw`nodeHash, vbw`completeFrames, vbw`nodes, vbw`nodeList
    modifies vbw.nodes`visible, vbw.nodes`next, vbw.nodes`prev
    modifies vbw`missing, vbw`lastTargetSeq, vbw`targetSeq, vbw`nextSeq, vbw`wrote, vbw`read, vbw`period
    modifies vbw`unique, vbw`tally, vbw`past, vbw`ledger
    ensures vb.Valid() && vbw.Valid() && |words| <= NackLoop.MAX_NACK && NoneTwice(resent)
    ensures resent ==
            if old(sender.asks).pli != 0 && !recvOnly then [] else Found(old(vbw.Stored()), AllLookups(words))
    ensures vbw.Stored() ==
            if (old(sender.asks).pli != 0 || old(sender.asks).fir != 0) && !recvOnly then map[] else old(vbw.Stored())
    ensures sender.asks == Builder.Answered(old(sender.asks), true)
    ensures |words| < NackLoop.MAX_NACK ==>
              forall k: U16 :: DueAndStored(old(vb.missing), clock(0), old(vb.targetSeq), old(vb.frameLen),
                                       old(vbw.Stored()), k) ==>
                (old(vbw.Stored())[k] in resent <==> old(sender.asks).pli == 0 || recvOnly)
  {
    hide *;
    TenWords();
    vbw.StoredIsLatest();
    ghost var stored := vbw.Stored();
    ghost var popped, ms, rs, ps;
    words, popped, ms, rs, ps := CollectNacks(vb, clock);
    RisingClock(rs, clock, ps, end);
    Conclude(ms, rs, TimesAt(clock, ps), popped, words, vb.targetSeq, vb.frameLen, end, stored);
    Concluded(old(vb.missing), clock(0), vb.targetSeq, vb.frameLen, stored, words);
    assert forall i :: 0 <= i < |vbw.nodes| ==> vbw.nodes[i] !in vb.nodes;
    resent := Relay(words, sender, r, vbw, recvOnly);
  }

  /** Send words in a compound packet and answer what comes out of it. */
  method Relay(words: seq<U32>, sender: Builder.RtcpSender, r: Builder.Round, vbw: JitterBuffer, recvOnly: bool)
    returns (resent: seq<Packet>)
    requires vbw.Valid()
    requires sender.Valid() && Builder.RoundOk(r) && r.video && r.nack && |words| <= 10
    modifies sender.buf, sender`asks, sender`nacksInflight
    modifies vbw`visibleNodes, vbw`nodeHash, vbw`completeFrames, vbw`nodes, vbw`nodeList
    modifies vbw.nodes`visible, vbw.nodes`next, vbw.nodes`prev
    modifies vbw`missing, vbw`lastTargetSeq, vbw`targetSeq, vbw`nextSeq, vbw`wrote, vbw`read, vbw`period
    modifies vbw`unique, vbw`tally, vbw`past, vbw`ledger
    ensures vbw.Valid() && vbw.nodes == old(vbw.nodes)
    ensures resent ==
            if old(sender.asks).pli != 0 && !recvOnly then [] else Found(old(vbw.Stored()), AllLookups(words))
    ensures vbw.Stored() ==
            if (old(sender.asks).pli != 0 || old(sender.asks).fir != 0) && !recvOnly then map[] else old(vbw.Stored())
    ensures sender.asks == Builder.Answered(old(sender.asks), true)
  {
    hide *;
    vbw.StoredIsLatest();
    ghost var stored, asks := vbw.Stored(), sender.asks;
    WordsRoundOk(r, words);
    AnswersDue(stored, asks, r.(words := words), recvOnly);
    var n, outcome, visited, remain, calls, pad := Builder.SendRound(sender, r.(words := words));
    resent := Answer(calls, vbw, recvOnly);
  }

  lemma TenWords()
    ensures NackLoop.MAX_NACK == 10 == Builder.MAX_NACK
  {
  }

  lemma WordsRoundOk(r: Builder.Round, words: seq<U32>)
    requires Builder.RoundOk(r) && |words| <= 10
    ensures Builder.RoundOk(r.(words := words))
  {
  }

  lemma Conclude(ms: seq<Pending>, rs: seq<Readings>, ts: seq<int>, popped: seq<nat>, words: seq<nat>, target: U16,
                 frameLen: U32, end: int, stored: map<U16, Packet>)
    requires |popped| <= 10 && Batch(ms, rs, popped, target, frameLen) && Clock(rs, ts, end)
    requires popped == (if |words| == 10 then words else words + [0]) && forall i :: 0 <= i < |words| ==> words[i] != 0
    requires NoWrap(ms[0]) && Steady(ms[0], ts[0], end)
    requires forall k :: k in stored ==> stored[k].seqNo == k
    ensures forall i :: 0 <= i < |words| ==> words[i] < 0x1_0000_0000
    ensures
      var resent := Found(stored, AllLookups(words));
      NoneTwice(resent) && (|words| < 10 ==> Served(ms[0], ts[0], target, frameLen, stored, resent))
  {
    hide Pops, Found, Due, Steady, Between;
    WordsFit(ms, rs, popped, target, frameLen);
    assert forall i :: 0 <= i < |words| ==> words[i] == popped[i];
    assert popped[..|words|] == words;
    RoundResends(ms, rs, ts, popped, target, frameLen, end, stored, |words|);
  }

  lemma Concluded(before: Pending, now: int, target: U16, frameLen: U32, stored: map<U16, Packet>, words: seq<nat>)
    ensures NoneTwice([]) && forall k: U16 :: DueAndStored(before, now, target, frameLen, stored, k) ==> k in stored
    ensures Served(before, now, target, frameLen, stored, Found(stored, AllLookups(words))) <==>
            forall k: U16 :: DueAndStored(before, now, target, frameLen, stored, k) ==>
              stored[k] in Found(stored, AllLookups(words))
  {
    hide Due, TooOld, Found, AllLookups;
  }

  // ---- words in network order ----

  /** A word's bytes in memory are the number and the bitmap, each with its high byte first. */
  lemma WordOnWire(keys: set<U16>, least: U16)
    ensures Word(keys, least) < 0x1_0000_0000 && FromBits(LostBits(keys, least, 16)) < 0x1_0000
    ensures
      var blp := FromBits(LostBits(keys, least, 16));
      LittleEndian(Word(keys, least)) == [least / 256, least % 256, blp / 256, blp % 256]
  {
    hide FromBits, LostBits;
    WordParts(keys, least);
    BlpBound(keys, least);
    SwappedBytes(least, FromBits(LostBits(keys, least, 16)));
  }

  lemma SwappedBytes(a: U16, b: U16)
    ensures Swap16(a) + 0x1_0000 * Swap16(b) < 0x1_0000_0000
    ensures LittleEndian(Swap16(a) + 0x1_0000 * Swap16(b)) == [a / 256, a % 256, b / 256, b % 256]
  {
    var w := Swap16(a) + 0x1_0000 * Swap16(b);
    DivUnique(w, 0x1_0000, Swap16(b), Swap16(a));
    DivUnique(w, 0x100_0000, b % 256, b / 256 * 0x1_0000 + Swap16(a));
    DivUnique(w, 256, 0x100 * Swap16(b) + a % 256, a / 256);
    DivUnique(0x100 * Swap16(b) + a % 256, 256, Swap16(b), a % 256);
    DivUnique(Swap16(b), 256, b % 256, b / 256);
  }

  /** The 16-bit number at a position, the high byte first. */
  ghost function Half(b: seq<Byte>, at: nat): int
    requires at + 2 <= |b|
  {
    var hi: int, lo: int := b[at], b[at + 1];
    hi * 256 + lo
  }

  /** A bit of a number, by its weight. */
  lemma {:induction false} BitByWeight(n: nat, i: nat)
    ensures Pow2(i) > 0 && (BitAt(n, i) <==> n / Pow2(i) % 2 == 1)
  {
    if i > 0 {
      BitByWeight(n / 2, i - 1);
      DivTwice(n, Pow2(i - 1));
    }
  }

  lemma DivTwice(n: nat, p: nat)
    requires p > 0
    ensures n / (2 * p) == n / 2 / p
  {
    var q, r := n / 2 / p, n / 2 % p;
    assert n / 2 == q * p + r;
    assert q * (2 * p) == 2 * (q * p);
    DivUnique(n, 2 * p, q, 2 * r + n % 2);
  }

  /** Bytes 8 to 11 of a NACK that asks from a number on: section 6.2.1 of RFC 4585. */
  ghost predicate Reports(b: seq<Byte>, keys: set<U16>, least: U16) {
    && |b| == 12 && Half(b, 8) == least
    && forall j: nat :: j < 16 ==>
         Pow2(j) > 0 && (Half(b, 10) / Pow2(j) % 2 == 1 <==> (least + j + 1) % 0x1_0000 in keys)
  }

  lemma WordReports(keys: set<U16>, least: U16, ssrc: U32, remote: U32)
    ensures Word(keys, least) < 0x1_0000_0000
    ensures Reports(Builder.NackSub(ssrc, remote, Word(keys, least)).body, keys, least)
  {
    var bits, w := LostBits(keys, least, 16), Word(keys, least);
    var blp := FromBits(bits);
    WordOnWire(keys, least);
    var b := Builder.NackSub(ssrc, remote, w).body;
    BodyBytes(b, BigEndian(ssrc) + BigEndian(remote), LittleEndian(w));
    forall j: nat | j < 16
      ensures Pow2(j) > 0 && (blp / Pow2(j) % 2 == 1 <==> (least + j + 1) % 0x1_0000 in keys)
    {
      BitsOf(bits, j);
      BitByWeight(blp, j);
    }
    hide FromBits, LostBits, Word, LittleEndian, BigEndian;
    HalfIs(blp);
    HalfIs(least);
  }

  lemma BodyBytes(b: seq<Byte>, front: seq<Byte>, item: seq<Byte>)
    requires |front| == 8 && |item| == 4 && b == front + item
    ensures |b| == 12 && b[8] == item[0] && b[9] == item[1] && b[10] == item[2] && b[11] == item[3]
  {
  }

  lemma HalfIs(x: U16)
    ensures x / 256 * 256 + x % 256 == x
  {
  }

  /** The NACK for a word that a pop returned reports the least number that could be
      requested, and which of the sixteen after it are missing. */
  lemma PopReports(before: Pending, after: Pending, r: Readings, target: U16, frameLen: U32, word: nat,
                   ssrc: U32, remote: U32)
    requires Pops(before, after, r, target, frameLen, word) && word != 0
    ensures word < 0x1_0000_0000
    ensures
      var b := Builder.NackSub(ssrc, remote, word).body;
      && |b| == 12 && Reports(b, Live(before, r.seen, target, frameLen).Keys, Half(b, 8))
      && Requestable(before, Half(b, 8), r.seen, target, frameLen)
      && forall k: U16 :: Requestable(before, k, r.seen, target, frameLen) ==> Half(b, 8) <= k
  {
    var least := Pid(word);
    LiveDue(before, r.seen, target, frameLen);
    hide Word, Pid, Live, Due, TooOld, Asked, Stamped, Reports;
    WordReports(Live(before, r.seen, target, frameLen).Keys, least, ssrc, remote);
    ReportsAt(Builder.NackSub(ssrc, remote, word).body, Live(before, r.seen, target, frameLen).Keys, least);
  }

  lemma ReportsAt(b: seq<Byte>, keys: set<U16>, least: U16)
    requires Reports(b, keys, least)
    ensures |b| == 12 && Half(b, 8) == least
  {
  }

  /** All the words of a batch are reported so. */
  lemma BatchReports(ms: seq<Pending>, rs: seq<Readings>, words: seq<nat>, target: U16, frameLen: U32, i: nat,
                     ssrc: U32, remote: U32)
    requires Batch(ms, rs, words, target, frameLen) && i < |words| && words[i] != 0
    ensures words[i] < 0x1_0000_0000
    ensures
      var b := Builder.NackSub(ssrc, remote, words[i]).body;
      && |b| == 12 && Reports(b, Live(ms[i], rs[i].seen, target, frameLen).Keys, Half(b, 8))
      && Requestable(ms[i], Half(b, 8), rs[i].seen, target, frameLen)
      && forall k: U16 :: Requestable(ms[i], k, rs[i].seen, target, frameLen) ==> Half(b, 8) <= k
  {
    hide Pops, Reports, Requestable;
    PopReports(ms[i], ms[i + 1], rs[i], target, frameLen, words[i], ssrc, remote);
  }

  /** The other way round: a word as it comes off the wire makes its receiver look up the
      number in its first two bytes, and those after it whose bits are set in the others. */
  lemma WordLooksUp(b: seq<Byte>, k: U16)
    requires |b| == 4
    ensures k in Lookups(WordAt(b, 0)) <==>
            k == Half(b, 0) || exists j: nat :: j < 16 && Weighs(Half(b, 2), j) && k == (Half(b, 0) + j + 1) % 0x1_0000
  {
    hide Lookups, AskedAfter, Weighs, Half, WordAt, Pid, Blp;
    var w := WordAt(b, 0);
    WordHalves(b);
    AskedAreLookups(w, k);
    AskedByWeight(Pid(w), Blp(w), 16, k);
  }

  ghost predicate Weighs(n: int, j: nat)
    requires n >= 0
  {
    BitByWeight(n, j);
    n / Pow2(j) % 2 == 1
  }

  lemma WordHalves(b: seq<Byte>)
    requires |b| == 4
    ensures Pid(WordAt(b, 0)) == Half(b, 0) && Blp(WordAt(b, 0)) == Half(b, 2)
  {
    hide Pid, Blp, Swap16, Long;
    var b0: int, b1: int, b2: int, b3: int := b[0], b[1], b[2], b[3];
    LongHalves(b0, b1, b2, b3);
    SwapOf(b0, b1);
    SwapOf(b2, b3);
    PartsOf(WordAt(b, 0), b0 + b1 * 256, b2 + b3 * 256);
  }

  lemma LongHalves(b0: Byte, b1: Byte, b2: Byte, b3: Byte)
    ensures
      var w := Long(b0, b1, b2, b3);
      0 <= w < 0x1_0000_0000 && w % 0x1_0000 == b0 + b1 * 256 && w / 0x1_0000 == b2 + b3 * 256
  {
    var lo: int, hi: int, w: int := b0 + b1 * 256, b2 + b3 * 256, Long(b0, b1, b2, b3);
    assert w == hi * 0x1_0000 + lo;
    hide *;
    DivUnique(w, 0x1_0000, hi, lo);
  }

  lemma PartsOf(w: nat, lo: U16, hi: U16)
    requires w % 0x1_0000 == lo && w / 0x1_0000 == hi
    ensures Pid(w) == Swap16(lo) && Blp(w) == Swap16(hi)
  {
    hide Swap16;
    assert hi % 0x1_0000 == hi;
  }

  lemma SwapOf(lo: Byte, hi: Byte)
    ensures Swap16(lo + hi * 256) == lo * 256 + hi
  {
    var x: int := lo + hi * 256;
    assert Swap16(x) == x % 256 * 256 + x / 256;
    hide *;
    DivUnique(x, 256, hi, lo);
  }

  lemma {:induction false} AskedByWeight(least: U16, blp: nat, n: nat, k: U16)
    ensures k in AskedAfter(least, blp, n) <==>
            exists j: nat :: j < n && Weighs(blp, j) && k == (least + j + 1) % 0x1_0000
  {
    if n > 0 {
      AskedByWeight(least, blp, n - 1, k);
      BitByWeight(blp, n - 1);
      hide Pow2;
      if BitAt(blp, n - 1) { assert Weighs(blp, n - 1); }
    }
  }
}
