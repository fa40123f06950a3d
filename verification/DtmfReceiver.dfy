/** Receiving telephone events: which packets are accepted, and when a digit is queued. */
module DtmfReceivers {
  import opened Basics
  import opened DtmfPlan

  const SANITY := 2000
  const MAX_BEHIND := 100
  const FLIP_ABOVE := 0xFC17

  /** What one call is given: nothing, a media packet, or a telephone event, in a
      buffer that holds stale bytes behind its payload. */
  datatype Incoming = Nothing | Media | Event(p: Packet, stale: seq<Byte>)

  /** A digit handed on, with its duration. */
  datatype Heard = Heard(event: Byte, duration: nat)

  /** What the receiver remembers of events: the highest sequence number accepted, the
      timestamp of the event in progress and of the last one begun, how many calls an
      event may still last, the last duration, and how often it has wrapped. */
  datatype Ear = Ear(seqNo: U16, ts: U32, lastTs: U32, sanity: nat, lastDuration: U16, flip: nat)

  datatype Action = GoOn | ReceiveAgain | CheckTimer

  /** The buffer is larger than the eight bytes that are looked at. */
  predicate Roomy(x: Incoming) { x.Event? ==> |x.p.payload| + |x.stale| >= 8 }

  /** Counting down the calls an event may last. */
  function Ticked(e: Ear): Ear {
    if e.sanity == 0 then e else if e.sanity == 1 then e.(sanity := 0, ts := 0) else e.(sanity := e.sanity - 1)
  }

  /** The packet with the four bytes that are looked at: the first ones, or the next if
      those are zero and the payload has eight. A shorter payload than four bytes is
      completed by what the buffer held before. */
  function Seen(p: Packet, stale: seq<Byte>): (r: Packet)
    requires |p.payload| + |stale| >= 8
    ensures |r.payload| == 4
  {
    var memory := p.payload + stale;
    p.(payload := if Blank(memory) && |p.payload| >= 8 then memory[4..8] else memory[..4])
  }

  /** What is stale does not matter to a payload of four bytes. */
  lemma SeenWhole(p: Packet, stale: seq<Byte>)
    requires |p.payload| == 4 && |stale| >= 4
    ensures Seen(p, stale) == p
  {
    assert (p.payload + stale)[..4] == p.payload;
  }

  /** The state in which a packet's sequence number is judged. */
  function Judging(e: Ear, p: Packet): Ear
    requires |p.payload| >= 4
  {
    var e1 := if Blank(p.payload) && e.ts != 0 then e.(ts := 0, sanity := 0) else e;
    if p.seqNo < e1.seqNo && e1.seqNo - p.seqNo > MAX_BEHIND then e1.(seqNo := 0) else e1
  }

  /** What an accepted packet does, and the digit it completes. */
  function Accepted(e: Ear, p: Packet, minDuration: nat): (Ear, seq<Heard>)
    requires |p.payload| >= 4
  {
    var duration := DurationIn(p.payload);
    var e1 := e.(seqNo := p.seqNo);
    var e2 := if e1.ts != 0 && e1.ts != p.ts then e1.(ts := 0, sanity := 0) else e1;
    var e3 := if e2.ts != 0 then e2.(sanity := SANITY) else e2;
    var e4 := if e3.lastDuration > duration && e3.lastDuration > FLIP_ABOVE && p.ts == e3.ts
              then e3.(flip := e3.flip + 1) else e3;
    if IsEnd(p.payload) then
      var e5 := if e4.ts == 0 && e4.lastTs != p.ts then e4.(lastTs := p.ts, ts := p.ts, sanity := SANITY) else e4;
      if e5.ts == 0 then (e5, [])
      else
        (e5.(flip := 0, ts := 0, sanity := 0, lastDuration := duration),
         [Heard(p.payload[0], Max(minDuration, duration + e5.flip * 0xFFFF))])
    else if e4.ts == 0 then
      (e4.(ts := p.ts, lastTs := p.ts, sanity := SANITY, lastDuration := duration), [])
    else (e4.(lastDuration := duration), [])
  }

  /** One call. */
  function Hear(e: Ear, x: Incoming, minDuration: nat): (Ear, seq<Heard>)
    requires Roomy(x)
  {
    var e1 := Ticked(e);
    if !x.Event? || x.p.payload == [] then (e1, [])
    else
      var p := Seen(x.p, x.stale);
      var e2 := Judging(e1, p);
      if p.seqNo > e2.seqNo then Accepted(e2, p, minDuration) else (e2, [])
  }

  predicate Accepts(e: Ear, p: Packet)
    requires |p.payload| >= 4
  {
    p.seqNo > Judging(Ticked(e), p).seqNo
  }

  /** A packet is accepted exactly if it is ahead of all accepted before, or more than
      100 numbers behind and not number 0: the stream is then taken to have restarted. */
  lemma AcceptsIff(e: Ear, p: Packet)
    requires |p.payload| >= 4
    ensures Accepts(e, p) <==> p.seqNo > e.seqNo || 0 < p.seqNo < e.seqNo - 100
  {
  }

  /** How often a 16-bit duration falls from near its end. */
  ghost function Wraps(durations: seq<int>): nat {
    if |durations| < 2 then 0
    else
      var n := |durations| - 1;
      Wraps(durations[..n]) + if 64535 < durations[n - 1] && durations[n] < durations[n - 1] then 1 else 0
  }

  ghost function Durations(ps: seq<Packet>): (r: seq<int>)
    requires forall i :: 0 <= i < |ps| ==> |ps[i].payload| >= 4
    ensures |r| == |ps|
  {
    seq(|ps|, i requires 0 <= i < |ps| => ps[i].payload[2] as int * 256 + ps[i].payload[3])
  }

  /** Packets of one event, none of them an end. */
  ghost predicate OneEvent(ps: seq<Packet>, ts: U32) {
    forall i :: 0 <= i < |ps| ==> |ps[i].payload| >= 4 && ps[i].ts == ts && !IsEnd(ps[i].payload)
  }

  /** What accepting them one after the other does. */
  ghost function AcceptedAll(e: Ear, ps: seq<Packet>, minDuration: nat): Ear
    requires forall i :: 0 <= i < |ps| ==> |ps[i].payload| >= 4
  {
    if ps == [] then e
    else Accepted(AcceptedAll(e, ps[..|ps| - 1], minDuration), ps[|ps| - 1], minDuration).0
  }

  /** While an event goes on the receiver counts how often its duration wraps. */
  lemma {:induction false} WrapsCounted(e: Ear, ps: seq<Packet>, ts: U32, minDuration: nat)
    requires e.ts == 0 != ts && e.flip == 0 && OneEvent(ps, ts) && ps != []
    ensures
      var e', ds := AcceptedAll(e, ps, minDuration), Durations(ps);
      e'.ts == e'.lastTs == ts && e'.flip == Wraps(ds) && e'.lastDuration == ds[|ds| - 1]
  {
    var n := |ps| - 1;
    var before := ps[..n];
    assert Durations(ps)[..n] == Durations(before);
    if n > 0 {
      WrapsCounted(e, before, ts, minDuration);
    } else {
      assert AcceptedAll(e, before, minDuration) == e;
    }
  }

  /** The digit that an event's end completes lasts as long as the end says, and 65535
      samples more for each time that the duration wrapped; but at least the minimum. */
  lemma LongEvent(e: Ear, ps: seq<Packet>, end: Packet, minDuration: nat)
    requires e.ts == 0 != end.ts && e.flip == 0 && OneEvent(ps, end.ts) && ps != []
    requires |end.payload| >= 4 && IsEnd(end.payload)
    ensures
      var ds := Durations(ps + [end]);
      var (e', heard) := Accepted(AcceptedAll(e, ps, minDuration), end, minDuration);
      && heard == [Heard(end.payload[0], Max(minDuration, ds[|ps|] + 65535 * Wraps(ds)))]
      && e'.ts == 0 && e'.flip == 0
  {
    WrapsCounted(e, ps, end.ts, minDuration);
    assert Durations(ps + [end])[..|ps|] == Durations(ps);
    assert Durations(ps + [end])[|ps| - 1] == Durations(ps)[|ps| - 1];
  }

  class DtmfReceiver {
    const minDuration: nat
    var seqNo: U16
    var ts: U32
    var lastTs: U32
    var sanity: nat
    var lastDuration: U16
    var flip: nat
    var interleaved: bool
    var queue: seq<Heard>

    function State(): Ear
      reads this
    {
      Ear(seqNo, ts, lastTs, sanity, lastDuration, flip)
    }

    constructor (minDuration: nat)
      ensures State() == Ear(0, 0, 0, 0, 0, 0) && queue == [] && !interleaved && this.minDuration == minDuration
    {
      this.minDuration := minDuration;
      seqNo, ts, lastTs, sanity, lastDuration, flip := 0, 0, 0, 0, 0, 0;
      interleaved, queue := false, [];
    }

    /** Handle what one read brought. */
    method Handle(x: Incoming) returns (action: Action, cng: bool)
      requires Roomy(x)
      modifies this
      ensures State() == Hear(old(State()), x, minDuration).0
      ensures queue == old(queue) + Hear(old(State()), x, minDuration).1
      ensures x.Nothing? ==> action == GoOn && !cng && interleaved == old(interleaved)
      ensures x.Media? ==>
                && interleaved == (old(interleaved) || ts != 0)
                && cng == (ts != 0 && !interleaved) && (action == if cng then CheckTimer else GoOn)
      ensures x.Event? && x.p.payload == [] ==>
                && interleaved == old(interleaved) && cng == (action == CheckTimer)
                && action == if ts == 0 then GoOn else if interleaved then ReceiveAgain else CheckTimer
      ensures x.Event? && x.p.payload != [] ==>
                var p := Seen(x.p, x.stale);
                var done := Hear(old(State()), x, minDuration).1 != [];
                && interleaved == old(interleaved) && cng == (done || action == CheckTimer)
                && action ==
                   if done then GoOn
                   else if !Accepts(old(State()), p) || IsEnd(p.payload) then ReceiveAgain
                   else if ts == 0 then GoOn
                   else if interleaved then ReceiveAgain
                   else CheckTimer
    {
      cng := false;
      if sanity != 0 {
        sanity := sanity - 1;
        if sanity == 0 {
          ts := 0;
        }
      }
      if x.Nothing? { return GoOn, cng; }
      if x.Event? && |x.p.payload| > 0 {
        var dropped;
        dropped, cng := HandleEvent(x.p, x.stale);
        if dropped { return ReceiveAgain, cng; }
      }
      if ts != 0 {
        if !interleaved && x.Media? {
          interleaved := true;
        }
        if interleaved {
          if x.Event? { return ReceiveAgain, cng; }
        } else {
          return CheckTimer, true;
        }
      }
      return GoOn, cng;
    }

    /** Handle a telephone event: true if it is dropped, and whether it completes a digit. */
    method HandleEvent(packet: Packet, stale: seq<Byte>) returns (dropped: bool, done: bool)
      requires |packet.payload| + |stale| >= 8
      modifies this`seqNo, this`ts, this`lastTs, this`sanity, this`lastDuration, this`flip, this`queue
      ensures
        var p := Seen(packet, stale);
        var e := Judging(old(State()), p);
        if p.seqNo > e.seqNo then
          var (e', heard) := Accepted(e, p, minDuration);
          && State() == e' && queue == old(queue) + heard
          && done == (heard != []) && dropped == (!done && IsEnd(p.payload))
        else State() == e && queue == old(queue) && dropped && !done
    {
      var body := packet.payload + stale;
      if Blank(body) && |packet.payload| >= 8 {
        body := body[4..];
      }
      body := body[..4];
      var p := packet.(payload := body);
      assert p == Seen(packet, stale);
      if Blank(body) && ts != 0 {
        ts, sanity := 0, 0;
      }
      var end, duration, key := IsEnd(body), DurationIn(body), body[0];
      if p.seqNo < seqNo && seqNo - p.seqNo > MAX_BEHIND {
        seqNo := 0;
      }
      if p.seqNo <= seqNo { return true, false; }
      dropped, done := Accept(p, end, duration, key);
    }

    /** Take in a packet that is ahead of all before. */
    method Accept(p: Packet, end: bool, duration: U16, key: Byte) returns (dropped: bool, done: bool)
      requires |p.payload| >= 4
      requires end == IsEnd(p.payload) && duration == DurationIn(p.payload) && key == p.payload[0]
      modifies this`seqNo, this`ts, this`lastTs, this`sanity, this`lastDuration, this`flip, this`queue
      ensures
        var (e', heard) := Accepted(old(State()), p, minDuration);
        && State() == e' && queue == old(queue) + heard
        && done == (heard != []) && dropped == (!done && end)
    {
      hide IsEnd, DurationIn;
      seqNo := p.seqNo;
      if ts != 0 && ts != p.ts {
        ts, sanity := 0, 0;
      }
      if ts != 0 {
        sanity := SANITY;
      }
      if lastDuration > duration && lastDuration > FLIP_ABOVE && p.ts == ts {
        flip := flip + 1;
      }
      if !end {
        if ts == 0 {
          ts, lastTs, sanity := p.ts, p.ts, SANITY;
        }
        lastDuration := duration;
        return false, false;
      }
      if ts == 0 && lastTs != p.ts {
        lastTs, ts, sanity := p.ts, p.ts, SANITY;
      }
      if ts == 0 { return true, false; }
      // ts is p.ts here, so the distance between them adds nothing to the duration
      var total := duration;
      if flip > 0 {
        total := total + flip * 0xFFFF;
        flip := 0;
      }
      QueueIn(Heard(key, total));
      ts, sanity, lastDuration := 0, 0, duration;
      return false, true;
    }

    /** Hand a digit on; none is shorter than the minimum. */
    method QueueIn(d: Heard)
      modifies this`queue
      ensures queue == old(queue) + [d.(duration := Max(minDuration, d.duration))]
    {
      queue := queue + [if d.duration < minDuration then d.(duration := minDuration) else d];
    }
  }
}
