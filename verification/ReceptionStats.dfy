/** RTCP reception statistics: extended sequence numbers and interval loss. */
module ReceptionStats {
  import opened Basics

  const MAX_DROPOUT := 3000
  const MAX_MISORDER := 100
  const RTP_SEQ_MOD := 0x1_0000

  /** ssrc, cycle and high describe the stream; period and count are packets counted
      since the last close and since the start; lastRpt is high at the last close. */
  datatype Stats = Stats(ssrc: U32, init: bool, cycle: nat, high: U32, base: U16, bad: nat,
                         cumLost: int, period: nat, count: nat, lastRpt: U32, reports: nat)

  /** Statistics that start with packet seqNo. bad is set so that no number matches it. */
  function Init(seqNo: U16, ssrc: U32): Stats {
    Stats(ssrc, true, 0, seqNo, seqNo, RTP_SEQ_MOD + 1, 0, 0, 0, 0, 0)
  }

  /** How far seqNo is ahead of the highest number, modulo 2^16. */
  function SeqDiff(s: Stats, seqNo: U16): U16 { (seqNo - s.high % RTP_SEQ_MOD) % RTP_SEQ_MOD }

  predicate InOrder(s: Stats, seqNo: U16) { SeqDiff(s, seqNo) < MAX_DROPOUT }

  predicate OutOfSync(s: Stats, seqNo: U16) { MAX_DROPOUT <= SeqDiff(s, seqNo) <= RTP_SEQ_MOD - MAX_MISORDER }

  /** The statistics of one stream, updated by each packet that arrives. */
  class Reception {
    var ssrc: U32
    var init: bool
    var cycle: nat
    var high: U32
    var base: U16
    var bad: nat
    var cumLost: int
    var period: nat
    var count: nat
    var lastRpt: U32
    var reports: nat

    function State(): Stats
      reads this
    {
      Stats(ssrc, init, cycle, high, base, bad, cumLost, period, count, lastRpt, reports)
    }

    constructor (seqNo: U16, ssrc: U32)
      ensures State() == Init(seqNo, ssrc)
    {
      this.ssrc, init, cycle, high, base, bad := ssrc, true, 0, seqNo, seqNo, RTP_SEQ_MOD + 1;
      cumLost, period, count, lastRpt, reports := 0, 0, 0, 0, 0;
    }

    method StatsInit(seqNo: U16, ssrc: U32)
      modifies this
      ensures State() == Init(seqNo, ssrc)
    {
      this.ssrc, init, lastRpt, cycle, high, base := ssrc, true, 0, 0, seqNo, seqNo;
      bad, cumLost, period, count, reports := RTP_SEQ_MOD + 1, 0, 0, 0, 0;
    }

    /** Account for packet seqNo; false if it is out of sync and not counted. */
    method RtcpStats(seqNo: U16, ssrc: U32) returns (counted: bool)
      modifies this
      ensures (State(), counted) == Arrive(old(State()), seqNo, ssrc)
    {
      var maxSeq := high % RTP_SEQ_MOD;
      var seqDiff := (seqNo - maxSeq) % RTP_SEQ_MOD;
      if seqDiff < MAX_DROPOUT {
        if seqNo < maxSeq {
          cycle := cycle + 1;
        }
        var ext := (cycle * RTP_SEQ_MOD + seqNo) % 0x1_0000_0000;
        if ext > high {
          high := ext;
        }
      } else if seqDiff <= RTP_SEQ_MOD - MAX_MISORDER {
        if seqNo == bad {
          StatsInit(seqNo, ssrc);
        } else {
          bad := (seqNo + 1) % RTP_SEQ_MOD;
        }
        return false;
      }
      if ssrc != this.ssrc || !init {
        StatsInit(seqNo, ssrc);
      }
      period, count := period + 1, count + 1;
      return true;
    }

    /** Generate a report block if there is to be one, and close the interval. */
    method Report(block: bool, extra: int) returns (expected: int, lost: int)
      modifies this
      ensures State() == (if block then Close(Block(old(State()), extra)) else old(State()))
      ensures block ==> expected == Expected(old(State()), extra) && lost == Lost(old(State()), extra)
      ensures !block ==> expected == lost == 0
    {
      expected, lost := 0, 0;
      if block {
        if reports == 0 {
          expected := (high - base + 1) % 0x1_0000_0000;
        } else {
          expected := (high - lastRpt + extra) % 0x1_0000_0000;
        }
        lost := Int32(expected - period);
        if lost < 0 {
          lost := 0;
        }
        cumLost := cumLost + lost;
        reports := reports + 1;
      }
      if block {
        lastRpt, period := high, 0;
      }
    }
  }

  function Int32(x: int): int { (x + 0x8000_0000) % 0x1_0000_0000 - 0x8000_0000 }

  /** What the arrival of a packet does to the statistics, and whether it is counted. */
  function Arrive(s: Stats, seqNo: U16, ssrc: U32): (Stats, bool) {
    if OutOfSync(s, seqNo) then
      (if seqNo == s.bad then Init(seqNo, ssrc) else s.(bad := (seqNo + 1) % RTP_SEQ_MOD), false)
    else
      var cycle := if InOrder(s, seqNo) && seqNo < s.high % RTP_SEQ_MOD then s.cycle + 1 else s.cycle;
      var ext := (cycle * RTP_SEQ_MOD + seqNo) % 0x1_0000_0000;
      var s' := s.(cycle := cycle, high := if InOrder(s, seqNo) && ext > s.high then ext else s.high);
      var s'' := if ssrc != s.ssrc || !s.init then Init(seqNo, ssrc) else s';
      (s''.(period := s''.period + 1, count := s''.count + 1), true)
  }

  /** A packet of a new source that is in sync starts all statistics over and is counted
      as the first; any other one in sync is counted and keeps what came before. */
  lemma NewSource(s: Stats, seqNo: U16, ssrc: U32)
    requires !(3000 <= (seqNo - s.high) % 0x1_0000 <= 0x1_0000 - 100)
    ensures
      var (s', counted) := Arrive(s, seqNo, ssrc);
      && counted && s'.ssrc == ssrc && s'.init
      && if ssrc != s.ssrc || !s.init then
           s'.base == s'.high == seqNo && s'.cycle == s'.cumLost == s'.reports == 0 && s'.period == s'.count == 1
         else
           && s'.base == s.base && s'.bad == s.bad && s'.cumLost == s.cumLost && s'.reports == s.reports
           && s'.period == s.period + 1 && s'.count == s.count + 1 && s'.lastRpt == s.lastRpt && s'.high >= s.high
  {
    SameAhead(s, seqNo);
  }

  lemma SameAhead(s: Stats, seqNo: U16)
    ensures SeqDiff(s, seqNo) == (seqNo - s.high) % 0x1_0000
  {
    var q, r := s.high / 0x1_0000, s.high % 0x1_0000;
    var d := (seqNo - r) % 0x1_0000;
    assert seqNo - s.high == ((seqNo - r) / 0x1_0000 - q) * 0x1_0000 + d;
    DivUnique(seqNo - s.high, 0x1_0000, (seqNo - r) / 0x1_0000 - q, d);
  }

  /** A packet out of sync is not counted. The statistics start over at the second of two
      exactly if their numbers are next to each other; until then nothing changes. */
  lemma ResyncIff(s: Stats, first: U16, second: U16, ssrc: U32)
    requires 3000 <= (first - s.high) % 0x1_0000 <= 0x1_0000 - 100 && first != s.bad
    requires 3000 <= (second - s.high) % 0x1_0000 <= 0x1_0000 - 100
    ensures
      var (s1, counted1) := Arrive(s, first, ssrc);
      var (s2, counted2) := Arrive(s1, second, ssrc);
      && !counted1 && !counted2 && s1.(bad := s.bad) == s
      && (s2.(bad := s.bad) == s || s2 == Init(second, ssrc))
      && (second == (first + 1) % 0x1_0000 ==> s2 == Init(second, ssrc))
      && (second != (first + 1) % 0x1_0000 ==> s2.(bad := s.bad) == s)
  {
    SameAhead(s, first);
    SameAhead(s, second);
  }

  /** No number matches what new statistics wait for. */
  lemma NothingBad(seqNo: U16, ssrc: U32, k: U16)
    ensures Init(seqNo, ssrc).bad != k
  {
  }

  /** A difference of 32-bit counters as a signed number. */
  lemma Int32Is(x: int)
    ensures -0x8000_0000 <= x < 0x8000_0000 ==>
              Int32(x) == Int32(x + 0x1_0000_0000) == Int32(x - 0x1_0000_0000) == x
    ensures -0x8000_0000 <= Int32(x) < 0x8000_0000
  {
  }

  /** s tracks a stream whose highest true index so far is top. */
  predicate Tracks(s: Stats, top: nat) {
    s.init && s.high == top && s.cycle == top / RTP_SEQ_MOD
  }

  /** One arrival with true index t, near enough to the highest, is tracked. */
  lemma ArrivalTracked(s: Stats, top: nat, t: nat)
    requires Tracks(s, top) && t < 0x1_0000_0000
    requires t < top + 3000 && top < t + 100
    ensures
      var (s', counted) := Arrive(s, t % RTP_SEQ_MOD, s.ssrc);
      counted && Tracks(s', Max(top, t)) && s'.ssrc == s.ssrc && s'.count == s.count + 1
  {
    var q, r := top / RTP_SEQ_MOD, top % RTP_SEQ_MOD;
    assert top == q * RTP_SEQ_MOD + r;
    if t >= top {
      assert SeqDiff(s, t % RTP_SEQ_MOD) == t - top;
    } else {
      assert SeqDiff(s, t % RTP_SEQ_MOD) == RTP_SEQ_MOD - (top - t);
    }
  }

  /** Within half the number space, a packet is counted exactly if its true index
      is less than 3000 ahead or less than 100 behind. */
  lemma CountedIff(s: Stats, top: nat, t: nat)
    requires Tracks(s, top) && t < top + 0x8000 && top < t + 0x8000
    ensures Arrive(s, t % RTP_SEQ_MOD, s.ssrc).1 <==> t < top + 3000 && top < t + 100
  {
    if t >= top {
      assert SeqDiff(s, t % RTP_SEQ_MOD) == t - top;
    } else {
      assert SeqDiff(s, t % RTP_SEQ_MOD) == RTP_SEQ_MOD - (top - t);
    }
  }

  ghost function Highest(first: U16, indices: seq<nat>): nat {
    if indices == [] then first else Max(Highest(first, indices[..|indices| - 1]), indices[|indices| - 1])
  }

  ghost function ArriveAll(s: Stats, indices: seq<nat>): Stats {
    if indices == [] then s
    else
      var before := ArriveAll(s, indices[..|indices| - 1]);
      Arrive(before, indices[|indices| - 1] % RTP_SEQ_MOD, s.ssrc).0
  }

  /** Every arrival is near the highest index before it. */
  ghost predicate Nearby(first: U16, indices: seq<nat>) {
    forall i :: 0 <= i < |indices| ==>
      var top := Highest(first, indices[..i]);
      indices[i] < top + 3000 && top < indices[i] + 100 && indices[i] < 0x1_0000_0000
  }

  /** However often the 16-bit numbers wrap, the extended number is the highest
      true index and the cycle its upper half, and every packet is counted. */
  lemma {:induction false} ExtendedSequence(first: U16, ssrc: U32, indices: seq<nat>)
    requires Nearby(first, indices)
    ensures
      var s := ArriveAll(Init(first, ssrc), indices);
      Tracks(s, Highest(first, indices)) && s.ssrc == ssrc && s.count == |indices|
  {
    if indices != [] {
      var before, t := indices[..|indices| - 1], indices[|indices| - 1];
      forall i | 0 <= i < |before|
        ensures
          var top := Highest(first, before[..i]);
          before[i] < top + 3000 && top < before[i] + 100 && before[i] < 0x1_0000_0000
      {
        assert before[..i] == indices[..i];
      }
      ExtendedSequence(first, ssrc, before);
      ArrivalTracked(ArriveAll(Init(first, ssrc), before), Highest(first, before), t);
    }
  }

  // ---- interval loss ----

  /** Packets expected since the last report, in 32-bit arithmetic. */
  function Expected(s: Stats, extra: int): U32 {
    (if s.reports == 0 then s.high - s.base + 1 else s.high - s.lastRpt + extra) % 0x1_0000_0000
  }

  function Lost(s: Stats, extra: int): int { Max(0, Int32(Expected(s, extra) - s.period)) }

  /** The effect of generating a report block. */
  function Block(s: Stats, extra: int): Stats {
    s.(cumLost := s.cumLost + Lost(s, extra), reports := s.reports + 1)
  }

  /** The effect of closing the interval. */
  function Close(s: Stats): Stats { s.(lastRpt := s.high, period := 0) }

  datatype Event = Packet(seqNo: U16) | Report(block: bool)

  /** The statistics together with what the reports so far expected, counted, and
      received beyond what they expected. */
  datatype Books = Books(s: Stats, expected: int, counted: int, surplus: int)

  /** One event of a stream with constant SSRC; a report without a block leaves the
      interval open. */
  function Step(b: Books, e: Event): Books {
    match e
    case Packet(seqNo) => b.(s := Arrive(b.s, seqNo, b.s.ssrc).0)
    case Report(block) =>
      if !block then b
      else
        Books(Close(Block(b.s, 0)), b.expected + Expected(b.s, 0), b.counted + b.s.period,
              b.surplus + Max(0, b.s.period - Expected(b.s, 0)))
  }

  ghost function Run(b: Books, events: seq<Event>): Books {
    if events == [] then b
    else Step(Run(b, events[..|events| - 1]), events[|events| - 1])
  }

  /** A second packet out of sync, next to the first, starts the statistics over. */
  predicate StartsOver(s: Stats, seqNo: U16) { OutOfSync(s, seqNo) && seqNo == s.bad }

  /** The statistics are not started over, and all counts stay below 2^31. */
  ghost predicate Calm(b: Books, events: seq<Event>) {
    && |events| < 0x8000_0000
    && forall i :: 0 <= i < |events| && events[i].Packet? ==>
         var s := Run(b, events[..i]).s;
         !StartsOver(s, events[i].seqNo) && Arrive(s, events[i].seqNo, s.ssrc).0.high < 0x7FFF_FFFF
  }

  /** What every event keeps: the reports' expectations add up to the span of
      numbers up to the last report, and the losses to what was expected and not counted. */
  ghost predicate Balanced(b: Books, n: nat) {
    && b.s.init && b.s.base <= b.s.high < 0x7FFF_FFFF && b.s.lastRpt <= b.s.high
    && b.s.count == b.counted + b.s.period <= n && b.counted >= 0
    && b.expected == (if b.s.reports == 0 then 0 else b.s.lastRpt - b.s.base + 1)
    && b.s.cumLost == b.expected - b.counted + b.surplus && b.surplus >= 0
  }

  lemma StepBalanced(b: Books, e: Event, n: nat)
    requires Balanced(b, n) && n < 0x7FFF_FFFF
    requires e.Packet? ==> !StartsOver(b.s, e.seqNo) && Arrive(b.s, e.seqNo, b.s.ssrc).0.high < 0x7FFF_FFFF
    ensures Balanced(Step(b, e), n + 1)
    ensures e.Report? && e.block ==> Step(b, e).s.lastRpt == Step(b, e).s.high && Step(b, e).s.period == 0
  {
  }

  /** Loss accounting telescopes over any run of packets and reports, feedback-only
      reports and packets out of sync included: right after a report block the losses reported so far are the
      whole span of numbers less the packets counted, plus the surplus of intervals
      that received more than they expected. */
  lemma {:induction false} LossTelescopes(first: U16, ssrc: U32, events: seq<Event>)
    requires Calm(Books(Init(first, ssrc), 0, 0, 0), events)
    ensures Balanced(Run(Books(Init(first, ssrc), 0, 0, 0), events), |events|)
    ensures events != [] && events[|events| - 1] == Report(true) ==>
      var b := Run(Books(Init(first, ssrc), 0, 0, 0), events);
      && b.expected == b.s.high - b.s.base + 1
      && b.s.cumLost == b.s.high - b.s.base + 1 - b.s.count + b.surplus
      && b.s.cumLost >= b.s.high - b.s.base + 1 - b.s.count
  {
    if events != [] {
      var before, e := events[..|events| - 1], events[|events| - 1];
      var b := Books(Init(first, ssrc), 0, 0, 0);
      forall i | 0 <= i < |before| && before[i].Packet?
        ensures
          var s := Run(b, before[..i]).s;
          !StartsOver(s, before[i].seqNo) && Arrive(s, before[i].seqNo, s.ssrc).0.high < 0x7FFF_FFFF
      {
        assert before[..i] == events[..i];
      }
      LossTelescopes(first, ssrc, before);
      StepBalanced(Run(b, before), e, |before|);
    }
  }

  /** The losses reported in all if a block were generated now as first written: a
      negative loss counts. */
  function ReportedNow(s: Stats): int { s.cumLost + Int32(Expected(s, 0) - s.period) }

  /** As first written the interval is closed at every report. Without a block that is
      harmless exactly if, before the first block, no packet was counted, or, after it,
      as many were as expected. */
  lemma BlocklessCloseHarmlessIff(s: Stats)
    requires s.base <= s.high < 0x7FFF_FFFF && s.lastRpt <= s.high && s.period < 0x7FFF_FFFF
    ensures ReportedNow(Close(s)) == ReportedNow(s) <==>
      if s.reports == 0 then s.period == 0 else s.high - s.lastRpt == s.period
  {
  }

  /** So a stream that lost nothing at all is reported as having lost everything. */
  lemma BlocklessCloseInventsLoss(s: Stats)
    requires s.reports == 0 && s.base <= s.high < 0x7FFF_FFFF && s.period == s.high - s.base + 1
    ensures ReportedNow(s) == s.cumLost && ReportedNow(Close(s)) == s.cumLost + s.period
  {
    assert Expected(s, 0) == Expected(Close(s), 0) == s.period;
    assert Int32(0) == 0 && Int32(s.period) == s.period;
  }

  /** Already the second packet of a stream brings it there. */
  lemma LosslessStart(seqNo: U16, ssrc: U32)
    requires seqNo < 0xFFFF
    ensures
      var s := Arrive(Arrive(Init(seqNo, ssrc), seqNo, ssrc).0, seqNo + 1, ssrc).0;
      s.reports == 0 && s.base <= s.high < 0x7FFF_FFFF && s.period == s.high - s.base + 1
  {
    var s := Init(seqNo, ssrc);
    assert SeqDiff(s, seqNo) == 0;
    var s1 := s.(period := 1, count := 1);
    assert Arrive(s, seqNo, ssrc).0 == s1;
    assert SeqDiff(s1, seqNo + 1) == 1;
  }
}
