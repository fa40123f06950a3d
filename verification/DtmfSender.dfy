/** Sending queued digits as telephone events, one beat per call. */
module DtmfSenders {
  import opened Basics
  import opened DtmfPlan

  /** A queued digit, or a pause written as w or W among the digits. */
  datatype Digit = Key(event: Byte, dur: nat) | HalfSecond | WholeSecond

  /** The digit being sent: the payload, how long it has lasted in all and in this
      segment, its duration, which is zero if there is none, and the segment's timestamp. */
  datatype Out = Out(packet: seq<Byte>, sofar: nat, subSofar: nat, dur: nat, ts: U32)

  /** The timestamp last written, and when the next digit may go out. */
  datatype Clock = Clock(lastWriteTs: U32, nextWrite: nat, maxNext: nat, queueDelay: nat, delaySamples: nat)

  ghost function Loads(plan: seq<Entry>): (r: seq<Load>)
    ensures |r| == |plan|
  {
    seq(|plan|, i requires 0 <= i < |plan| => plan[i].load)
  }

  /** The digits that pauses leave over. */
  function Keys(digits: seq<Digit>): seq<Digit> {
    if digits == [] then []
    else (if digits[0].Key? then [digits[0]] else []) + Keys(digits[1..])
  }

  /** The digits of tones. */
  function KeysOf(tones: seq<Tone>): (r: seq<Digit>)
    ensures |r| == |tones|
  {
    seq(|tones|, i requires 0 <= i < |tones| => Key(tones[i].event, tones[i].dur))
  }

  lemma {:induction false} KeysAppend(digits: seq<Digit>, d: Digit)
    ensures Keys(digits + [d]) == Keys(digits) + if d.Key? then [d] else []
  {
    hide Keys;
    var k := if d.Key? then [d] else [];
    if digits == [] {
      assert [] + [d] == [d] && [d][1..] == [];
      KeysFirst([d]);
      NoKeys();
      assert k + [] == k == [] + k;
    } else {
      KeysAppend(digits[1..], d);
      assert (digits + [d])[1..] == digits[1..] + [d];
      KeysFirst(digits);
      KeysFirst(digits + [d]);
      Regroup(if digits[0].Key? then [digits[0]] else [], Keys(digits[1..]), k);
    }
  }

  lemma NoKeys()
    ensures Keys([]) == []
  {
  }

  /** Each packet carries its load. */
  ghost predicate Carries(sent: seq<Packet>, said: seq<Load>) {
    |sent| == |said| && forall j :: 0 <= j < |sent| ==> sent[j] == Carrying(sent[j].seqNo, said[j])
  }

  /** Sequence numbers rise, up to the last one used. */
  ghost predicate Numbered(sent: seq<Packet>, last: int) {
    && (forall j :: 0 <= j < |sent| ==> 1 <= sent[j].seqNo <= last)
    && forall i, j :: 0 <= i < j < |sent| ==> sent[i].seqNo < sent[j].seqNo
  }

  /** Timestamps rise, up to the last one written. */
  ghost predicate Timed(tones: seq<Tone>, last: int) {
    && (forall d :: 0 <= d < |tones| ==> 1 <= tones[d].ts <= last)
    && forall c, d :: 0 <= c < d < |tones| ==> tones[c].ts < tones[d].ts
  }

  ghost predicate QueueOk(queue: seq<Digit>) { forall i :: 0 <= i < |queue| && queue[i].Key? ==> queue[i].dur > 0 }

  function AtLeast(digit: Digit, min: nat): Digit {
    if digit.Key? && digit.dur < min then digit.(dur := min) else digit
  }

  /** The clock after a pause has been called for. */
  function Delayed(c: Clock, useTimer: bool, rate: nat, ms: nat, maxMs: nat, now: nat): Clock {
    var up, maxUp := ms * (rate / 1000), (if maxMs == 0 then ms else maxMs) * (rate / 1000);
    if useTimer then Clock((c.lastWriteTs + up) % 0x1_0000_0000, now + up, now + maxUp, up, c.delaySamples)
    else c.(queueDelay := up)
  }

  function Advance(seqNo: U16, n: nat): U16 { (seqNo + n) % 0x1_0000 }

  function WroteTo(c: Clock, samples: nat): Clock { c.(lastWriteTs := (c.lastWriteTs + samples) % 0x1_0000_0000) }

  /** The last write timestamp when a beat is sent. */
  function Started(c: Clock, hasTimer: bool, samples: nat, writeNow: U32): Clock {
    if c.lastWriteTs == 0 then c.(lastWriteTs := if hasTimer then writeNow else samples % 0x1_0000_0000) else c
  }

  /** What waiting does to the clock, and whether the next digit may go out. */
  function Waited(c: Clock, useTimer: bool, samples: nat, now: nat): (Clock, bool) {
    if useTimer then
      if now < c.nextWrite then (c, false)
      else if now >= c.maxNext then (c.(queueDelay := 0), true)
      else (c, c.queueDelay == 0)
    else if c.queueDelay == 0 then (c, true)
    else if c.delaySamples > samples then (c.(delaySamples := c.delaySamples - samples), false)
    else (c.(delaySamples := 0, queueDelay := 0), true)
  }

  /** The clock after n calls in a row that were held back, without timer. */
  ghost function HeldBack(c: Clock, samples: nat, n: nat): Clock {
    if n == 0 then c else Waited(HeldBack(c, samples, n - 1), false, samples, 0).0
  }

  /** Without timer a pause that has been called for holds the next digit back for as many
      calls as intervals are still to be waited, less one, and never for none. */
  lemma {:induction false} HeldUntil(c: Clock, samples: nat, n: nat, now: nat)
    requires c.queueDelay > 0 && samples > 0 && (n == 0 || n * samples < c.delaySamples)
    ensures HeldBack(c, samples, n) == c.(delaySamples := c.delaySamples - n * samples)
    ensures
      var (c', ready) := Waited(HeldBack(c, samples, n), false, samples, now);
      && (ready <==> c.delaySamples <= (n + 1) * samples)
      && (ready ==> c'.queueDelay == c'.delaySamples == 0)
  {
    assert (n + 1) * samples == n * samples + samples;
    if n > 0 {
      assert n * samples == (n - 1) * samples + samples;
      HeldUntil(c, samples, n - 1, now);
    }
  }

  /** But what is still to be waited is set only by audio, which at the same time cancels
      the pause. So without timer a pause holds nothing back, unless audio went out during
      one before. */
  lemma PauseNotHeld(c: Clock, rate: nat, ms: nat, maxMs: nat, samples: nat, now: nat)
    ensures c.delaySamples == 0 ==> Waited(Delayed(c, false, rate, ms, maxMs, now), false, samples, now).1
    ensures c.queueDelay == 0 ==> Waited(c, false, samples, now) == (c, true)
  {
  }

  /** With a timer a pause holds the next digit back until its time is up, and then as
      long as no audio goes out, ten times that at most. */
  lemma HeldByTimer(c: Clock, rate: nat, ms: nat, samples: nat, now: nat, later: nat)
    requires ms > 0 && rate >= 1000
    ensures
      var d := Delayed(c, true, rate, ms, ms * 10, now);
      var audio := d.(queueDelay := 0);
      && (Waited(d, true, samples, later).1 <==> later >= now + ms * 10 * (rate / 1000))
      && (Waited(audio, true, samples, later).1 <==> later >= now + ms * (rate / 1000))
  {
    var k := rate / 1000;
    assert k >= 1;
    MulAtLeast(k, 1, ms);
    MulAtLeast(k, ms, ms * 10);
    assert ms * k > 0 && k * ms == ms * k && k * (ms * 10) == ms * 10 * k;
  }

  /** The write timestamp moves on by an interval with each beat. */
  ghost function WroteTimes(c: Clock, samples: nat, n: nat): Clock {
    if n == 0 then c else WroteTo(WroteTimes(c, samples, n - 1), samples)
  }

  lemma {:induction false} WriteTimeAdvances(c: Clock, samples: nat, n: nat)
    ensures WroteTimes(c, samples, n) == c.(lastWriteTs := (c.lastWriteTs + n * samples) % 0x1_0000_0000)
  {
    if n > 0 {
      WriteTimeAdvances(c, samples, n - 1);
      assert c.lastWriteTs + n * samples == c.lastWriteTs + (n - 1) * samples + samples;
      AddMod(c.lastWriteTs + (n - 1) * samples, samples, 0x1_0000_0000);
    }
  }

  class DtmfSender {
    const samples: nat
    const samplesPerSecond: nat
    const useTimer: bool
    const hasTimer: bool
    const interdigitDelay: nat
    const minDuration: nat
    const capacity: nat
    var queue: seq<Digit>
    var out: Out
    var clock: Clock
    var seqNo: U16
    var sending: bool
    var needMark: bool
    var sent: seq<Packet>
    ghost var said: seq<Load>
    ghost var tones: seq<Tone>
    ghost var beats: nat

    /** What is still to be sent of the current digit. */
    ghost function Pending(): seq<Load>
      reads this`out, this`tones, this`beats
      requires 0 < samples <= SEGMENT_MAX
    {
      if out.dur > 0 && tones != [] then TrainFrom(tones[|tones| - 1], samples, beats) else []
    }

    /** The digit being sent is the last tone, after so many beats. */
    ghost predicate Sending()
      reads this`out, this`tones, this`beats
      requires 0 < samples <= SEGMENT_MAX
    {
      out.dur > 0 ==>
        && tones != [] && beats > 0
        && var t := tones[|tones| - 1];
        && !Over(t, samples, beats - 1) && out.dur == t.dur
        && out.sofar == beats * samples && out.subSofar == Sub(samples, beats - 1)
        && out.ts == SegmentTs(t.ts, Segments(samples, beats - 1))
        && |out.packet| == 4 && out.packet[0] == t.event && out.packet[1] == VOLUME
    }

    /** How long the timer is to run between digits, in samples. */
    function Gap(): nat { interdigitDelay * (samplesPerSecond / 1000) }

    ghost predicate Config() { 0 < samples <= SEGMENT_MAX && minDuration > 0 }

    /** What has been sent, and what is left of the current digit, is what the digits
        taken from the queue call for. */
    ghost predicate Valid()
      reads this`queue, this`out, this`sent, this`said, this`tones, this`beats
    {
      Config() && QueueOk(queue) && InStep()
    }

    ghost predicate InStep()
      requires Config()
      reads this`out, this`sent, this`said, this`tones, this`beats
    {
      && |out.packet| == 4 && Sending() && Carries(sent, said)
      && said + Pending() == Loads(Plan(tones, samples))
    }

    constructor (samples: nat, samplesPerSecond: nat, useTimer: bool, hasTimer: bool, interdigitDelay: nat,
                 minDuration: nat, capacity: nat, seqNo: U16, lastWriteTs: U32)
      requires 0 < samples <= SEGMENT_MAX && minDuration > 0
      ensures Valid() && queue == [] && tones == [] && sent == [] && out.dur == 0
      ensures this.samples == samples && this.seqNo == seqNo && clock.lastWriteTs == lastWriteTs
    {
      this.samples, this.samplesPerSecond := samples, samplesPerSecond;
      this.useTimer, this.hasTimer := useTimer, hasTimer;
      this.interdigitDelay, this.minDuration, this.capacity := interdigitDelay, minDuration, capacity;
      queue, sent, sending, needMark := [], [], false, false;
      out := Out([0, 0, 0, 0], 0, 0, 0, 0);
      clock := Clock(lastWriteTs, 0, 0, 0, 0);
      this.seqNo := seqNo;
      said, tones, beats := [], [], 0;
    }

    /** Queue a digit, unless the queue is full. No digit is shorter than the minimum. */
    method Queue(digit: Digit) returns (ok: bool)
      requires Valid()
      modifies this`queue
      ensures Valid() && ok == (|old(queue)| < capacity)
      ensures queue == if ok then old(queue) + [AtLeast(digit, minDuration)] else old(queue)
      ensures Keys(queue) == Keys(old(queue)) + if ok && digit.Key? then [AtLeast(digit, minDuration)] else []
    {
      KeysAppend(queue, AtLeast(digit, minDuration));
      ok := |queue| < capacity;
      if ok {
        queue := queue + [AtLeast(digit, minDuration)];
      }
    }

    /** Write the current payload under the next sequence number. */
    method WriteManual(mark: bool, ghost l: Load)
      requires Carries(sent, said) && l.ts == out.ts && l.mark == mark && out.packet == Bytes(l)
      modifies this`sent, this`said, this`seqNo
      ensures Carries(sent, said) && said == old(said) + [l]
      ensures sent == old(sent) + [Carrying(seqNo, l)] && seqNo == Advance(old(seqNo), 1)
    {
      seqNo := (seqNo + 1) % 0x1_0000;
      sent, said := sent + [Packet(seqNo, out.ts, mark, out.packet)], said + [l];
    }

    /** Write the current payload several times over. */
    method WriteTimes(loops: nat, ghost l: Load)
      requires Carries(sent, said) && l.ts == out.ts && !l.mark && out.packet == Bytes(l)
      modifies this`sent, this`said, this`seqNo, this`clock
      ensures Carries(sent, said) && said == old(said) + seq(loops, _ => l) && old(sent) <= sent
      ensures seqNo == Advance(old(seqNo), loops)
      ensures old(Numbered(sent, seqNo)) && old(seqNo) + loops < 0x1_0000 ==> Numbered(sent, seqNo)
      ensures clock == if loops != 1 then old(clock) else WroteTo(old(clock), samples)
    {
      hide *;
      var x := 0;
      AdvanceNone(seqNo);
      while x < loops
        invariant 0 <= x <= loops && out == old(out)
        invariant Carries(sent, said) && said == old(said) + seq(x, _ => l) && old(sent) <= sent
        invariant seqNo == Advance(old(seqNo), x)
        invariant old(Numbered(sent, seqNo)) && old(seqNo) + x < 0x1_0000 ==> Numbered(sent, seqNo)
        invariant clock == if loops != 1 || x == 0 then old(clock) else WroteTo(old(clock), samples)
      {
        AdvanceMore(old(seqNo), x);
        NumberedAppend(sent, seqNo, l);
        WriteManual(false, l);
        if loops == 1 {
          clock := WroteTo(clock, samples);
        }
        x := x + 1;
      }
    }

    /** Send the next beat of the current digit; at the end three packets, and no more. */
    method SendBeat(now: nat, writeNow: U32)
      requires Valid() && out.dur > 0
      modifies this`out, this`clock, this`seqNo, this`sending, this`needMark, this`sent, this`said, this`beats
      ensures Valid() && beats == old(beats) + 1
      ensures
        var t := tones[|tones| - 1];
        && said == old(said) + Beat(t, samples, old(beats)) && old(sent) <= sent
        && (out.dur == 0 <==> Over(t, samples, old(beats)))
        && seqNo == Advance(old(seqNo), if out.dur == 0 then 3 else 1)
        && (out.dur == 0 ==> !sending && needMark)
        && (out.dur > 0 ==> sending == old(sending) && needMark == old(needMark))
      ensures old(Numbered(sent, seqNo)) && old(seqNo) + 3 < 0x1_0000 ==> Numbered(sent, seqNo)
      ensures
        var c := Started(old(clock), hasTimer, samples, writeNow);
        clock ==
        if out.dur > 0 then WroteTo(c, samples)
        else if interdigitDelay > 0 then
          Delayed(c, useTimer, samplesPerSecond, interdigitDelay, interdigitDelay * 10, now)
        else c
      ensures useTimer ==>
        clock.nextWrite == if out.dur == 0 && interdigitDelay > 0 then now + Gap() else old(clock.nextWrite)
    {
      hide *;
      Unpacked();
      ghost var t, i, all := tones[|tones| - 1], beats, Loads(Plan(tones, samples));
      BeatSaid(said, t, samples, i, all);
      BeatLoadIs(t, samples, i);
      ghost var l := BeatLoad(t, samples, i);
      FillPayload(writeNow);
      StartedKeeps(old(clock), hasTimer, samples, writeNow);
      var loops := if out.sofar >= out.dur then 3 else 1;
      WriteTimes(loops, l);
      assert said == old(said) + Beat(t, samples, i) by { Copies(l, loops); }
      beats := beats + 1;
      if loops != 1 {
        sending, needMark := false, true;
        out := out.(dur := 0);
        if interdigitDelay > 0 {
          DelayedIs(clock, useTimer, samplesPerSecond, interdigitDelay, interdigitDelay * 10, now);
          SetDelay(interdigitDelay, interdigitDelay * 10, now);
          GapIs();
        }
      }
      BeatSent(t, i, all);
    }

    lemma GapIs()
      ensures Gap() == interdigitDelay * (samplesPerSecond / 1000)
    {
    }

    lemma Unpacked()
      requires Valid() && out.dur > 0
      ensures 0 < samples <= SEGMENT_MAX && Config() && |out.packet| == 4 && Sending()
      ensures tones != [] && beats > 0 && out.dur == tones[|tones| - 1].dur
      ensures QueueOk(queue)
      ensures Carries(sent, said)
      ensures said + TrainFrom(tones[|tones| - 1], samples, beats) == Loads(Plan(tones, samples))
    {
    }

    /** After a beat the state is consistent again. */
    lemma BeatSent(t: Tone, i: nat, all: seq<Load>)
      requires Config() && |out.packet| == 4 && Carries(sent, said)
      requires QueueOk(queue)
      requires tones != [] && t == tones[|tones| - 1] && t.dur > 0 && beats == i + 1
      requires all == Loads(Plan(tones, samples))
      requires said + (if Over(t, samples, i) then [] else TrainFrom(t, samples, i + 1)) == all
      requires out.dur == (if Over(t, samples, i) then 0 else t.dur)
      requires out.packet[0] == t.event && (!Over(t, samples, i) ==> out.packet[1] == VOLUME)
      requires out.sofar == (i + 1) * samples && out.subSofar == Sub(samples, i)
      requires out.ts == SegmentTs(t.ts, Segments(samples, i))
      ensures Valid()
    {
      hide Plan, Loads, TrainFrom, Carries, Sub, Segments;
    }

    /** Add one interval to the durations and write them to the payload, with the end
        bit if the digit has lasted long enough. */
    method FillPayload(writeNow: U32)
      requires Config() && |out.packet| == 4 && Sending() && out.dur > 0
      modifies this`out, this`clock
      ensures |out.packet| == 4
      ensures
        var t := tones[|tones| - 1];
        && out.packet == Bytes(BeatLoad(t, samples, beats)) && out.packet[0] == t.event
        && (!Over(t, samples, beats) ==> out.packet[1] == VOLUME) && out.ts == BeatLoad(t, samples, beats).ts
        && out.dur == t.dur && out.sofar == (beats + 1) * samples && out.subSofar == Sub(samples, beats)
      ensures clock == Started(old(clock), hasTimer, samples, writeNow)
    {
      hide *;
      SendingIs();
      ghost var t, i := tones[|tones| - 1], beats;
      BeatLoadIs(t, samples, i);
      if clock.lastWriteTs == 0 {
        clock := clock.(lastWriteTs := if hasTimer then writeNow else samples % 0x1_0000_0000);
      }
      StartedIs(old(clock), hasTimer, samples, writeNow);
      Lengthen();
      var end := out.sofar >= out.dur;
      ghost var packet := out.packet;
      if end {
        out := out.(packet := out.packet[1 := out.packet[1] + 0x80]);
      }
      FillBytes(BeatLoad(t, samples, i), packet, end, out.subSofar);
      out := out.(packet := out.packet[2 := out.subSofar / 256][3 := out.subSofar % 256]);
    }

    lemma SendingIs()
      requires Config() && Sending() && out.dur > 0
      ensures 0 < samples <= SEGMENT_MAX && tones != [] && beats > 0
    {
    }

    /** Add one interval to the durations; a segment that is full makes room for the next. */
    method Lengthen()
      requires Config() && Sending() && out.dur > 0
      modifies this`out
      ensures
        var t := tones[|tones| - 1];
        && out.packet == old(out.packet) && |out.packet| == 4 && out.packet[0] == t.event
        && out.packet[1] == VOLUME == 13
        && out.dur == t.dur && out.sofar == (beats + 1) * samples && out.subSofar == Sub(samples, beats)
        && out.ts == SegmentTs(t.ts, Segments(samples, beats))
    {
      ghost var t, i := tones[|tones| - 1], beats;
      BeatTimes(t, samples, i);
      hide Sub, Segments, SegmentTs;
      out := out.(sofar := out.sofar + samples, subSofar := out.subSofar + samples);
      if out.subSofar > SEGMENT_MAX {
        out := out.(subSofar := samples, ts := (out.ts + SEGMENT_MAX) % 0x1_0000_0000);
      }
    }

    /** Start the next digit, if there is one and no pause holds it back. */
    method NextDigit(now: nat)
      requires Valid() && out.dur == 0
      modifies this`queue, this`out, this`clock, this`seqNo, this`sending, this`sent, this`said, this`tones, this`beats
      ensures Valid()
      ensures KeysOf(tones) + Keys(queue) == KeysOf(old(tones)) + Keys(old(queue))
      ensures old(queue) == [] ==> clock == old(clock)
      ensures
        var (c, ready) := Waited(old(clock), useTimer, samples, now);
        if old(queue) == [] || !ready then
          && queue == old(queue) && out == old(out) && seqNo == old(seqNo) && sending == old(sending)
          && sent == old(sent) && said == old(said) && tones == old(tones)
          && (old(queue) != [] ==> clock == c)
        else
          && queue == old(queue)[1..] && sending
          && var d := old(queue)[0];
          if d.Key? then
            var t := Tone(d.event, d.dur, (c.lastWriteTs + samples) % 0x1_0000_0000);
            && tones == old(tones) + [t] && out.dur == d.dur && clock == c.(lastWriteTs := t.ts)
            && said == old(said) + Beat(t, samples, 0) && seqNo == Advance(old(seqNo), 1)
            && sent == old(sent) + [Carrying(seqNo, BeatLoad(t, samples, 0))]
          else
            && clock == Delayed(c, useTimer, samplesPerSecond, if d.HalfSecond? then 500 else 1000, 0, now)
            && out == old(out) && seqNo == old(seqNo) && sent == old(sent) && said == old(said) && tones == old(tones)
      ensures old(Numbered(sent, seqNo)) && old(seqNo) + 1 < 0x1_0000 ==> Numbered(sent, seqNo)
      ensures old(Timed(tones, clock.lastWriteTs)) && old(clock.lastWriteTs) <= clock.lastWriteTs ==>
                Timed(tones, clock.lastWriteTs)
      ensures useTimer ==>
        clock.nextWrite >= old(clock.nextWrite) && (|tones| > |old(tones)| ==> now >= old(clock.nextWrite))
      ensures |tones| == |old(tones)| + if out.dur > 0 then 1 else 0
    {
      hide *;
      if queue == [] { return; }
      WaitedKeeps(clock, useTimer, samples, now);
      var ready := Hold(now);
      if !ready { return; }
      sending := true;
      var d := queue[0];
      Split();
      TakeFirst(queue, tones, (clock.lastWriteTs + samples) % 0x1_0000_0000);
      queue := queue[1..];
      Join();
      match d {
        case HalfSecond =>
          DelayedIs(clock, useTimer, samplesPerSecond, 500, 0, now);
          SetDelay(500, 0, now);
        case WholeSecond =>
          DelayedIs(clock, useTimer, samplesPerSecond, 1000, 0, now);
          SetDelay(1000, 0, now);
        case Key(event, dur) =>
          ghost var t := Tone(event, dur, (clock.lastWriteTs + samples) % 0x1_0000_0000);
          TimedAppend(tones, clock.lastWriteTs, t, samples);
          StartDigit(event, dur);
      }
      TimedKept(old(tones), old(clock.lastWriteTs), clock.lastWriteTs);
    }

    /** Whether the next digit may go out; waiting is counted in intervals without timer. */
    method Hold(now: nat) returns (ready: bool)
      modifies this`clock
      ensures (clock, ready) == Waited(old(clock), useTimer, samples, now)
      ensures clock.lastWriteTs == old(clock.lastWriteTs)
    {
      if useTimer {
        if now < clock.nextWrite { return false; }
        if now >= clock.maxNext {
          clock := clock.(queueDelay := 0);
        }
      } else if clock.queueDelay != 0 {
        clock := clock.(delaySamples := if clock.delaySamples >= samples then clock.delaySamples - samples else 0);
        if clock.delaySamples == 0 {
          clock := clock.(queueDelay := 0);
        }
      }
      return clock.queueDelay == 0;
    }

    lemma Split()
      requires Valid()
      ensures 0 < samples <= 0xFFFF && Config() && InStep() && QueueOk(queue)
    {
    }

    lemma Join()
      requires Config() && InStep() && QueueOk(queue)
      ensures Valid()
    {
    }

    /** Send the first packet of a digit. */
    method StartDigit(event: Byte, dur: nat)
      requires Valid() && out.dur == 0 && dur > 0
      modifies this`out, this`clock, this`seqNo, this`sent, this`said, this`tones, this`beats
      ensures Valid()
      ensures
        var t := Tone(event, dur, (old(clock.lastWriteTs) + samples) % 0x1_0000_0000);
        && tones == old(tones) + [t] && out.dur == dur && clock == old(clock).(lastWriteTs := t.ts)
        && said == old(said) + Beat(t, samples, 0) && seqNo == Advance(old(seqNo), 1)
        && sent == old(sent) + [Carrying(seqNo, BeatLoad(t, samples, 0))]
      ensures old(Numbered(sent, seqNo)) && old(seqNo) + 1 < 0x1_0000 ==> Numbered(sent, seqNo)
    {
      hide *;
      Idle();
      ghost var t := Tone(event, dur, (clock.lastWriteTs + samples) % 0x1_0000_0000);
      NewTone(tones, t, samples);
      ghost var l := BeatLoad(t, samples, 0);
      out := Out([event, VOLUME, samples / 256, samples % 256], samples, samples, dur,
                 (clock.lastWriteTs + samples) % 0x1_0000_0000);
      clock := clock.(lastWriteTs := out.ts);
      PayloadIs(l, out.packet);
      AdvanceMore(seqNo, 0);
      NumberedAppend(sent, seqNo, l);
      tones, beats := tones + [t], 1;
      WriteManual(true, l);
      BeatSent(t, 0, Loads(Plan(tones, samples)));
    }

    /** What has been sent is the beginning of the plan. */
    lemma SentIsPlanned()
      requires Valid()
      ensures Config() && |sent| <= |Plan(tones, samples)|
      ensures forall j :: 0 <= j < |sent| ==> sent[j] == Carrying(sent[j].seqNo, Plan(tones, samples)[j].load)
    {
      hide Plan, TrainFrom;
      forall j | 0 <= j < |sent| ensures said[j] == Plan(tones, samples)[j].load {
        assert (said + Pending())[j] == said[j];
      }
    }

    lemma Idle()
      requires Valid() && out.dur == 0
      ensures 0 < samples <= SEGMENT_MAX && Config() && Carries(sent, said)
      ensures QueueOk(queue) && samples <= 0xFFFF
      ensures said == Loads(Plan(tones, samples))
    {
    }

    /** One call: another beat of the current digit, or the start of the next. */
    method Do2833(now: nat, writeNow: U32)
      requires Valid()
      modifies this
      ensures Valid() && old(sent) <= sent && old(tones) <= tones
      ensures KeysOf(tones) + Keys(queue) == KeysOf(old(tones)) + Keys(old(queue))
      ensures old(Numbered(sent, seqNo)) && old(seqNo) + 3 < 0x1_0000 ==> Numbered(sent, seqNo)
      ensures old(Timed(tones, clock.lastWriteTs)) && old(clock.lastWriteTs) <= clock.lastWriteTs ==>
                Timed(tones, clock.lastWriteTs)
      ensures useTimer ==>
                if old(out.dur) > 0 && out.dur == 0 && interdigitDelay > 0 then clock.nextWrite == now + Gap()
                else clock.nextWrite >= old(clock.nextWrite)
      ensures useTimer && |tones| > |old(tones)| ==> now >= old(clock.nextWrite)
      ensures |tones| == |old(tones)| + if old(out.dur) == 0 && out.dur > 0 then 1 else 0
      ensures old(out.dur) > 0 ==>
                && queue == old(queue) && tones == old(tones) && tones != []
                && said == old(said) + Beat(tones[|tones| - 1], samples, old(beats)) && beats == old(beats) + 1
                && (out.dur == 0 <==> Over(tones[|tones| - 1], samples, old(beats)))
      ensures old(out.dur) == 0 && (old(queue) == [] || !Waited(old(clock), useTimer, samples, now).1) ==>
                queue == old(queue) && sent == old(sent)
      ensures old(out.dur) == 0 && old(queue) != [] && Waited(old(clock), useTimer, samples, now).1 ==>
                && queue == old(queue)[1..]
                && if old(queue)[0].Key? then
                     tones != [] && sent == old(sent) + [Carrying(seqNo, BeatLoad(tones[|tones| - 1], samples, 0))]
                   else tones == old(tones) && sent == old(sent)
    {
      hide *;
      if out.dur > 0 {
        Unpacked();
        SendBeat(now, writeNow);
        TimedKept(tones, old(clock.lastWriteTs), clock.lastWriteTs);
      } else {
        NextDigit(now);
      }
    }

    /** An audio packet goes out, unless a digit is being sent or its timestamp is the
        last one written. A pause that has been called for begins with it. */
    method WriteAudio(ts: U32) returns (ok: bool)
      requires Valid()
      modifies this`clock, this`seqNo
      ensures Valid() && ok == (!sending && ts != old(clock.lastWriteTs))
      ensures !ok ==> clock == old(clock) && seqNo == old(seqNo)
      ensures ok ==> clock.lastWriteTs == ts && seqNo == Advance(old(seqNo), 1) && clock.queueDelay == 0
      ensures ok && old(clock.queueDelay) > 0 ==> clock.delaySamples == old(clock.queueDelay)
      ensures clock.nextWrite == old(clock.nextWrite)
      ensures old(Numbered(sent, seqNo)) && old(seqNo) + 1 < 0x1_0000 ==> Numbered(sent, seqNo)
      ensures old(Timed(tones, clock.lastWriteTs)) && old(clock.lastWriteTs) <= clock.lastWriteTs ==>
                Timed(tones, clock.lastWriteTs)
    {
      hide *;
      AdvanceMore(seqNo, 0);
      NumberedKept(sent, seqNo);
      TimedKept(tones, clock.lastWriteTs, ts);
      ok := !sending && ts != clock.lastWriteTs;
      if ok {
        seqNo := Advance(seqNo, 1);
        clock := clock.(lastWriteTs := ts);
        if clock.queueDelay > 0 {
          clock := clock.(delaySamples := clock.queueDelay, queueDelay := 0);
        }
      }
    }

    method SetDelay(ms: nat, maxMs: nat, now: nat)
      modifies this`clock
      ensures clock == Delayed(old(clock), useTimer, samplesPerSecond, ms, maxMs, now)
    {
      var max := if maxMs == 0 then ms else maxMs;
      var upsamp, maxUpsamp := ms * (samplesPerSecond / 1000), max * (samplesPerSecond / 1000);
      clock := clock.(queueDelay := upsamp);
      if useTimer {
        clock := clock.(maxNext := now + maxUpsamp, nextWrite := now + upsamp,
                        lastWriteTs := (clock.lastWriteTs + upsamp) % 0x1_0000_0000);
      }
    }
  }

  lemma DelayedIs(c: Clock, useTimer: bool, rate: nat, ms: nat, maxMs: nat, now: nat)
    ensures useTimer ==> Delayed(c, useTimer, rate, ms, maxMs, now).nextWrite == now + ms * (rate / 1000)
  {
  }

  lemma StartedKeeps(c: Clock, hasTimer: bool, samples: nat, writeNow: U32)
    ensures Started(c, hasTimer, samples, writeNow).nextWrite == c.nextWrite
    ensures forall c, n :: WroteTo(c, n).nextWrite == c.nextWrite
  {
  }

  lemma WaitedKeeps(c: Clock, useTimer: bool, samples: nat, now: nat)
    ensures
      var (c', ready) := Waited(c, useTimer, samples, now);
      c'.nextWrite == c.nextWrite && (useTimer && ready ==> now >= c.nextWrite)
  {
  }

  lemma AdvanceNone(s: U16)
    ensures Advance(s, 0) == s
  {
  }

  lemma AdvanceMore(s: U16, n: nat)
    ensures Advance(Advance(s, n), 1) == Advance(s, n + 1)
    ensures s + n < 0x1_0000 ==> Advance(s, n) == s + n
  {
  }

  lemma NumberedAppend(sent: seq<Packet>, last: U16, l: Load)
    ensures Numbered(sent, last) && last + 1 < 0x1_0000 ==>
              Advance(last, 1) == last + 1 && Numbered(sent + [Carrying(Advance(last, 1), l)], Advance(last, 1))
  {
  }

  lemma NumberedKept(sent: seq<Packet>, last: U16)
    ensures Numbered(sent, last) && last + 1 < 0x1_0000 ==> Numbered(sent, Advance(last, 1))
  {
  }

  lemma BeatSaid(said: seq<Load>, t: Tone, samples: nat, i: nat, all: seq<Load>)
    requires 0 < samples <= SEGMENT_MAX && said + TrainFrom(t, samples, i) == all
    ensures (said + Beat(t, samples, i)) + (if Over(t, samples, i) then [] else TrainFrom(t, samples, i + 1)) == all
  {
    TrainStep(t, samples, i);
  }

  lemma BeatTimes(t: Tone, samples: nat, i: nat)
    requires 0 < samples <= SEGMENT_MAX && i > 0
    ensures samples <= Sub(samples, i - 1) <= SEGMENT_MAX && samples <= Sub(samples, i) <= SEGMENT_MAX
    ensures
      var wraps := Sub(samples, i - 1) + samples > SEGMENT_MAX;
      && Sub(samples, i) == (if wraps then samples else Sub(samples, i - 1) + samples)
      && SegmentTs(t.ts, Segments(samples, i)) ==
         if wraps then (SegmentTs(t.ts, Segments(samples, i - 1)) + SEGMENT_MAX) % 0x1_0000_0000
         else SegmentTs(t.ts, Segments(samples, i - 1))
    ensures i * samples + samples == (i + 1) * samples
  {
    SubFits(samples, i);
    SubFits(samples, i - 1);
    NextSegmentTs(t.ts, Segments(samples, i - 1));
    hide SegmentTs;
  }

  lemma NextSegmentTs(ts: U32, n: nat)
    ensures SegmentTs(ts, n + 1) == (SegmentTs(ts, n) + SEGMENT_MAX) % 0x1_0000_0000
  {
    AddMod(ts + n * SEGMENT_MAX, SEGMENT_MAX, 0x1_0000_0000);
    assert ts + (n + 1) * SEGMENT_MAX == ts + n * SEGMENT_MAX + SEGMENT_MAX;
  }

  lemma BeatLoadIs(t: Tone, samples: nat, i: nat)
    requires 0 < samples <= SEGMENT_MAX
    ensures 0 <= Sub(samples, i) <= SEGMENT_MAX
    ensures BeatLoad(t, samples, i) ==
            Load(t.event, Over(t, samples, i), Sub(samples, i), SegmentTs(t.ts, Segments(samples, i)), i == 0)
    ensures Beat(t, samples, i) ==
            if Over(t, samples, i) then [BeatLoad(t, samples, i), BeatLoad(t, samples, i), BeatLoad(t, samples, i)]
            else [BeatLoad(t, samples, i)]
    ensures Over(t, samples, i) <==> i > 0 && (i + 1) * samples >= t.dur
  {
    SubFits(samples, i);
  }

  lemma TakeFirst(queue: seq<Digit>, tones: seq<Tone>, ts: U32)
    requires queue != [] && QueueOk(queue)
    ensures QueueOk(queue[1..])
    ensures
      var d := queue[0];
      if d.Key?
        then d.dur > 0 && KeysOf(tones + [Tone(d.event, d.dur, ts)]) + Keys(queue[1..]) == KeysOf(tones) + Keys(queue)
      else Keys(queue[1..]) == Keys(queue)
  {
    hide Keys, KeysOf;
    var d := queue[0];
    KeysFirst(queue);
    if d.Key? {
      KeysOfAppend(tones, Tone(d.event, d.dur, ts));
      Regroup(KeysOf(tones), [d], Keys(queue[1..]));
    } else {
      assert [] + Keys(queue[1..]) == Keys(queue[1..]);
    }
  }

  lemma KeysFirst(queue: seq<Digit>)
    requires queue != []
    ensures Keys(queue) == (if queue[0].Key? then [queue[0]] else []) + Keys(queue[1..])
  {
  }

  lemma KeysOfAppend(tones: seq<Tone>, t: Tone)
    ensures KeysOf(tones + [t]) == KeysOf(tones) + [Key(t.event, t.dur)]
  {
  }

  lemma TimedKept(tones: seq<Tone>, last: int, last': int)
    ensures Timed(tones, last) && last <= last' ==> Timed(tones, last')
  {
  }

  lemma TimedAppend(tones: seq<Tone>, last: U32, t: Tone, samples: nat)
    requires 0 < samples && t.ts == (last + samples) % 0x1_0000_0000
    ensures Timed(tones, last) && last <= t.ts && samples <= 0xFFFF ==> Timed(tones + [t], t.ts)
  {
  }

  /** A new tone adds its train to the plan; its first packet is a beat of its own. */
  lemma NewTone(tones: seq<Tone>, t: Tone, samples: nat)
    requires 0 < samples <= SEGMENT_MAX
    ensures
      Loads(Plan(tones, samples)) + Beat(t, samples, 0) + TrainFrom(t, samples, 1) == Loads(Plan(tones + [t], samples))
    ensures !Over(t, samples, 0) && Beat(t, samples, 0) == [BeatLoad(t, samples, 0)]
    ensures BeatLoad(t, samples, 0) == Load(t.event, false, samples, t.ts, true)
    ensures Sub(samples, 0) == samples && SegmentTs(t.ts, Segments(samples, 0)) == t.ts
  {
    var all := tones + [t];
    assert all[..|tones|] == tones;
    TrainStep(t, samples, 0);
  }

  lemma Copies(l: Load, n: nat)
    ensures n == 1 ==> seq(n, _ => l) == [l]
    ensures n == 3 ==> seq(n, _ => l) == [l, l, l]
  {
  }

  lemma StartedIs(c: Clock, hasTimer: bool, samples: nat, writeNow: U32)
    ensures Started(c, hasTimer, samples, writeNow) ==
            if c.lastWriteTs == 0 then c.(lastWriteTs := if hasTimer then writeNow else samples % 0x1_0000_0000) else c
  {
  }

  /** The payload, from one that has no end bit yet. */
  lemma FillBytes(l: Load, packet: seq<Byte>, end: bool, duration: U16)
    requires |packet| == 4 && packet[0] == l.event && packet[1] == VOLUME && end == l.end && duration == l.duration
    ensures duration / 256 < 256
    ensures
      var marked := if end then packet[1 := packet[1] + 0x80] else packet;
      marked[2 := duration / 256][3 := duration % 256] == Bytes(l)
  {
  }

  /** The payload with its end bit set, if it is to be, and the duration filled in. */
  lemma PayloadIs(l: Load, packet: seq<Byte>)
    requires |packet| == 4 && packet[0] == l.event && packet[1] == (if l.end then 0x80 + VOLUME else VOLUME)
    requires packet[2] == l.duration / 256 && packet[3] == l.duration % 256
    ensures packet == Bytes(l)
  {
  }

  // ---- the pause between digits ----

  /** What is done to a sender: a digit is queued, it is called at a time, or an audio
      packet is to be written. */
  datatype Step = Dial(digit: Digit) | Call(now: nat, writeNow: U32) | Audio(ts: U32)

  /** The timer does not run backwards. */
  ghost predicate Ticking(steps: seq<Step>) {
    forall i, j :: 0 <= i < j < |steps| && steps[i].Call? && steps[j].Call? ==> steps[i].now <= steps[j].now
  }

  /** The steps are calls, all before step k. */
  ghost predicate Calls(steps: seq<Step>, at: seq<nat>, k: nat) {
    k <= |steps| && forall x :: 0 <= x < |at| ==> at[x] < k && steps[at[x]].Call?
  }

  /** A digit that starts after another has ended starts gap or more after it. */
  ghost predicate Paced(steps: seq<Step>, starts: seq<nat>, ends: seq<nat>, gap: nat) {
    && Calls(steps, starts, |steps|) && Calls(steps, ends, |steps|)
    && forall x, y :: 0 <= x < |ends| && 0 <= y < |starts| && ends[x] < starts[y] ==>
         steps[starts[y]].now >= steps[ends[x]].now + gap
  }

  /** The same of the first k steps; what starts next does so at next or later. */
  ghost predicate PacedTo(steps: seq<Step>, starts: seq<nat>, ends: seq<nat>, gap: nat, k: nat, next: nat) {
    && Paced(steps, starts, ends, gap) && Calls(steps, starts, k) && Calls(steps, ends, k)
    && forall x :: 0 <= x < |ends| ==> next >= steps[ends[x]].now + gap
  }

  lemma Ended(steps: seq<Step>, starts: seq<nat>, ends: seq<nat>, gap: nat, k: nat, from: nat, next: nat)
    requires PacedTo(steps, starts, ends, gap, k, from) && Ticking(steps)
    requires k < |steps| && steps[k].Call? && next == steps[k].now + gap
    ensures PacedTo(steps, starts, ends + [k], gap, k + 1, next)
  {
  }

  lemma Begun(steps: seq<Step>, starts: seq<nat>, ends: seq<nat>, gap: nat, k: nat, from: nat, next: nat)
    requires PacedTo(steps, starts, ends, gap, k, from)
    requires k < |steps| && steps[k].Call? && steps[k].now >= from && next >= from
    ensures PacedTo(steps, starts + [k], ends, gap, k + 1, next)
  {
  }

  lemma Passed(steps: seq<Step>, starts: seq<nat>, ends: seq<nat>, gap: nat, k: nat, from: nat, next: nat)
    requires PacedTo(steps, starts, ends, gap, k, from) && k < |steps| && next >= from
    ensures PacedTo(steps, starts, ends, gap, k + 1, next)
  {
  }

  lemma NoneYet(steps: seq<Step>, gap: nat, next: nat)
    ensures PacedTo(steps, [], [], gap, 0, next)
  {
  }

  lemma AtEnd(steps: seq<Step>, starts: seq<nat>, ends: seq<nat>, gap: nat, next: nat)
    requires PacedTo(steps, starts, ends, gap, |steps|, next)
    ensures Paced(steps, starts, ends, gap)
  {
  }

  /** Over any run of a sender with a timer the delay between digits is kept, whatever is
      dialled and written in between. starts and ends are the calls that start and end a digit. */
  method Run(s: DtmfSender, steps: seq<Step>) returns (starts: seq<nat>, ends: seq<nat>)
    requires s.Valid() && s.useTimer && s.interdigitDelay > 0 && Ticking(steps)
    modifies s
    ensures s.Valid() && |s.tones| == |old(s.tones)| + |starts|
    ensures |ends| + (if s.out.dur > 0 then 1 else 0) == |starts| + if old(s.out.dur) > 0 then 1 else 0
    ensures Paced(steps, starts, ends, s.Gap())
  {
    hide *;
    starts, ends := [], [];
    NoneYet(steps, s.Gap(), s.clock.nextWrite);
    var k := 0;
    while k < |steps|
      invariant 0 <= k <= |steps| && s.Valid()
      invariant |s.tones| == |old(s.tones)| + |starts|
      invariant |ends| + (if s.out.dur > 0 then 1 else 0) == |starts| + if old(s.out.dur) > 0 then 1 else 0
      invariant PacedTo(steps, starts, ends, s.Gap(), k, s.clock.nextWrite)
    {
      ghost var from := s.clock.nextWrite;
      match steps[k] {
        case Dial(digit) =>
          var _ := s.Queue(digit);
          Passed(steps, starts, ends, s.Gap(), k, from, s.clock.nextWrite);
        case Call(now, writeNow) =>
          var active := s.out.dur > 0;
          s.Do2833(now, writeNow);
          if active && s.out.dur == 0 {
            Ended(steps, starts, ends, s.Gap(), k, from, s.clock.nextWrite);
            ends := ends + [k];
          } else if !active && s.out.dur > 0 {
            Begun(steps, starts, ends, s.Gap(), k, from, s.clock.nextWrite);
            starts := starts + [k];
          } else {
            Passed(steps, starts, ends, s.Gap(), k, from, s.clock.nextWrite);
          }
        case Audio(ts) =>
          var _ := s.WriteAudio(ts);
          Passed(steps, starts, ends, s.Gap(), k, from, s.clock.nextWrite);
      }
      k := k + 1;
    }
    AtEnd(steps, starts, ends, s.Gap(), s.clock.nextWrite);
  }
}
