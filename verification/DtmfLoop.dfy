/** Digits from end to end: a sender, a channel that loses, duplicates and reorders,
    and a receiver. */
module DtmfLoop {
  import opened Basics
  import opened DtmfPlan
  import opened DtmfSenders
  import opened DtmfReceivers

  /** What the receiver's calls are given: nothing, speech, or the j-th packet sent. */
  datatype Call = Quiet | Speech | Comes(j: nat)

  /** No digit's timestamp is zero, and no two are the same. */
  ghost predicate Apart(tones: seq<Tone>) {
    && (forall d :: 0 <= d < |tones| ==> tones[d].ts != 0)
    && forall c, d :: 0 <= c < d < |tones| ==> tones[c].ts != tones[d].ts
  }

  /** What a sender with rising numbers and distinct timestamps has sent so far, by plan. */
  ghost predicate Stream(sent: seq<Packet>, plan: seq<Entry>, tones: seq<Tone>) {
    && |sent| <= |plan| && PlanOk(plan, tones) && Apart(tones) && Numbered(sent, 0xFFFF)
    && forall j :: 0 <= j < |sent| ==> sent[j] == Carrying(sent[j].seqNo, plan[j].load)
  }

  ghost predicate CallOk(c: Call, sent: seq<Packet>) { c.Comes? ==> c.j < |sent| }

  /** What the buffer held before is taken to be zeros; it is of no account. */
  function Given(c: Call, sent: seq<Packet>): Incoming
    requires c.Comes? ==> c.j < |sent|
  {
    match c
    case Quiet => Nothing
    case Speech => Media
    case Comes(j) => Event(sent[j], [0, 0, 0, 0, 0, 0, 0, 0])
  }

  /** What matters of a run: the packet furthest on that has arrived, if any, the calls
      since, and the end packets that completed a digit. */
  datatype Course = Course(last: int, age: nat, heard: seq<nat>)

  ghost predicate CourseOk(m: Course, sent: seq<Packet>, plan: seq<Entry>) {
    && m.last < |sent| <= |plan|
    && forall i :: 0 <= i < |m.heard| ==> m.heard[i] <= m.last && plan[m.heard[i]].load.end
  }

  /** Whether an end at j completes its digit: the packet before was of another digit,
      or was no end and has not expired. */
  ghost predicate Decisive(m: Course, j: nat, plan: seq<Entry>)
    requires m.last < |plan| && j < |plan|
  {
    m.last < 0 || plan[m.last].digit != plan[j].digit || (!plan[m.last].load.end && m.age + 1 < 2000)
  }

  ghost function Follow(m: Course, c: Call, sent: seq<Packet>, plan: seq<Entry>): Course
    requires m.last < |sent| <= |plan| && CallOk(c, sent)
  {
    if c.Comes? && m.last < c.j then
      Course(c.j, 0, if plan[c.j].load.end && Decisive(m, c.j, plan) then m.heard + [c.j] else m.heard)
    else m.(age := m.age + 1)
  }

  /** The receiver's state, as the course determines it. */
  ghost predicate Tracks(e: Ear, m: Course, sent: seq<Packet>, plan: seq<Entry>)
    requires m.last < |sent| <= |plan|
  {
    if m.last < 0 then e == Ear(0, 0, 0, 0, 0, 0)
    else
      var l := plan[m.last].load;
      var live := !l.end && m.age < SANITY;
      && e.seqNo == sent[m.last].seqNo && e.lastTs == l.ts && e.flip == 0
      && e.ts == (if live then l.ts else 0) && e.sanity == (if live then SANITY - m.age else 0)
      && (live ==> e.lastDuration == l.duration)
  }

  /** No packet comes more than 100 numbers behind one that has arrived. */
  ghost predicate InTime(m: Course, c: Call, sent: seq<Packet>)
    requires m.last < |sent| && CallOk(c, sent)
  {
    c.Comes? && m.last >= 0 ==> sent[m.last].seqNo <= sent[c.j].seqNo + 100
  }

  /** The digit that an end packet stands for. */
  ghost function DigitAt(plan: seq<Entry>, j: nat, minDuration: nat): Heard
    requires j < |plan|
  {
    Heard(plan[j].load.event, Max(minDuration, plan[j].load.duration))
  }

  ghost function DigitsAt(plan: seq<Entry>, js: seq<nat>, minDuration: nat): (r: seq<Heard>)
    requires forall i :: 0 <= i < |js| ==> js[i] < |plan|
    ensures |r| == |js|
  {
    seq(|js|, i requires 0 <= i < |js| => DigitAt(plan, js[i], minDuration))
  }

  lemma SameTsSameDigit(plan: seq<Entry>, tones: seq<Tone>, i: nat, j: nat)
    requires PlanOk(plan, tones) && Apart(tones) && i < |plan| && j < |plan|
    ensures plan[i].load.ts == plan[j].load.ts <==> plan[i].digit == plan[j].digit
    ensures plan[j].load.ts != 0
  {
    assert Planned(plan[i], tones) && Planned(plan[j], tones);
  }

  /** A call that brings nothing new only lets time pass. */
  lemma TickTracks(e: Ear, m: Course, sent: seq<Packet>, plan: seq<Entry>)
    requires m.last < |sent| <= |plan| && Tracks(e, m, sent, plan)
    ensures Tracks(Ticked(e), m.(age := m.age + 1), sent, plan)
  {
  }

  lemma Judged(e: Ear, p: Packet, l: Load)
    requires p == Carrying(p.seqNo, l) && e.seqNo <= p.seqNo + MAX_BEHIND
    ensures |p.payload| == 4 && Judging(e, p) == e && p.payload == Bytes(l)
  {
    LoadCarried(l);
  }

  /** What an accepted packet of the sender's does. */
  lemma AcceptedLoad(e: Ear, p: Packet, l: Load, min: nat)
    requires p == Carrying(p.seqNo, l) && l.ts != 0
    requires e.ts == 0 || e.ts == e.lastTs
    requires e.flip == 0 && (e.ts == l.ts ==> e.lastDuration <= l.duration)
    ensures |p.payload| == 4
    ensures
      var (e', heard) := Accepted(e, p, min);
      var done := l.end && (e.ts == l.ts || e.lastTs != l.ts);
      && heard == (if done then [Heard(l.event, Max(min, l.duration))] else [])
      && e'.seqNo == p.seqNo && e'.lastTs == l.ts && e'.flip == 0
      && (!l.end ==> e'.ts == l.ts && e'.sanity == SANITY && e'.lastDuration == l.duration)
      && (done ==> e'.ts == 0 && e'.sanity == 0)
      && (l.end && !done ==> e'.ts == 0 && (e.ts == 0 ==> e'.sanity == e.sanity))
  {
    LoadCarried(l);
    hide Bytes, IsEnd, DurationIn, Blank;
  }

  /** One call does to the receiver what it does to the course. */
  lemma HearFollows(e: Ear, m: Course, c: Call, sent: seq<Packet>, plan: seq<Entry>, tones: seq<Tone>, min: nat)
    requires Stream(sent, plan, tones) && CourseOk(m, sent, plan) && CallOk(c, sent) && InTime(m, c, sent)
    requires Tracks(e, m, sent, plan)
    ensures Roomy(Given(c, sent)) && CourseOk(Follow(m, c, sent, plan), sent, plan)
    ensures Tracks(Hear(e, Given(c, sent), min).0, Follow(m, c, sent, plan), sent, plan)
    ensures DigitsAt(plan, m.heard, min) + Hear(e, Given(c, sent), min).1 ==
            DigitsAt(plan, Follow(m, c, sent, plan).heard, min)
  {
    hide *;
    CallFacts(c, sent, plan, tones);
    HearIs(e, Given(c, sent), min);
    FollowIs(m, c, sent, plan, tones, min);
    TickTracks(e, m, sent, plan);
    if c.Comes? {
      var l := plan[c.j].load;
      Behind(Ticked(e), m.(age := m.age + 1), c.j, sent, plan, tones);
      Judged(Ticked(e), sent[c.j], l);
      if m.last < c.j {
        AheadFollows(Ticked(e), m.(age := m.age + 1), c.j, sent, plan, tones, min);
      }
    }
    assert DigitsAt(plan, m.heard, min) + [] == DigitsAt(plan, m.heard, min);
  }

  lemma CallFacts(c: Call, sent: seq<Packet>, plan: seq<Entry>, tones: seq<Tone>)
    requires Stream(sent, plan, tones) && CallOk(c, sent)
    ensures |sent| <= |plan| && (c.Comes? ==> c.j < |sent| && sent[c.j] == Carrying(sent[c.j].seqNo, plan[c.j].load))
    ensures Roomy(Given(c, sent))
    ensures Given(c, sent).Event? <==> c.Comes?
    ensures c.Comes? ==> Given(c, sent).p == sent[c.j] && |sent[c.j].payload| == 4
    ensures c.Comes? ==> Seen(sent[c.j], Given(c, sent).stale) == sent[c.j]
  {
    if c.Comes? { SeenWhole(sent[c.j], Given(c, sent).stale); }
  }

  lemma HearIs(e: Ear, x: Incoming, min: nat)
    requires Roomy(x)
    ensures !x.Event? ==> Hear(e, x, min) == (Ticked(e), [])
    ensures x.Event? && x.p.payload != [] ==>
              && |x.p.payload| + |x.stale| >= 8
              && var p := Seen(x.p, x.stale);
              var e1 := Judging(Ticked(e), p);
              Hear(e, x, min) == if p.seqNo > e1.seqNo then Accepted(e1, p, min) else (e1, [])
  {
  }

  /** What the sequence numbers of an arrival say about its place. */
  lemma Behind(e: Ear, m: Course, j: nat, sent: seq<Packet>, plan: seq<Entry>, tones: seq<Tone>)
    requires Stream(sent, plan, tones) && m.last < |sent| && j < |sent| && Tracks(e, m, sent, plan)
    requires InTime(m.(age := if m.age > 0 then m.age - 1 else 0), Comes(j), sent)
    ensures e.seqNo <= sent[j].seqNo + MAX_BEHIND
    ensures m.last < j <==> sent[j].seqNo > e.seqNo
  {
  }

  lemma FollowIs(m: Course, c: Call, sent: seq<Packet>, plan: seq<Entry>, tones: seq<Tone>, min: nat)
    requires Stream(sent, plan, tones) && CourseOk(m, sent, plan) && CallOk(c, sent)
    ensures m.last < |sent| <= |plan| && forall i :: 0 <= i < |m.heard| ==> m.heard[i] < |plan|
    ensures
      var m' := Follow(m, c, sent, plan);
      && CourseOk(m', sent, plan) && (forall i :: 0 <= i < |m'.heard| ==> m'.heard[i] < |plan|)
      && if !c.Comes? || c.j <= m.last then m' == m.(age := m.age + 1)
         else
           && m'.last == c.j && m'.age == 0
           && DigitsAt(plan, m'.heard, min) == DigitsAt(plan, m.heard, min) +
              if plan[c.j].load.end && (m.last < 0 || plan[m.last].digit != plan[c.j].digit
                                        || (!plan[m.last].load.end && m.age + 1 < SANITY))
              then [DigitAt(plan, c.j, min)] else []
  {
  }

  /** A packet ahead of the rest, at a call that has been counted already. */
  lemma AheadFollows(e: Ear, m: Course, j: nat, sent: seq<Packet>, plan: seq<Entry>, tones: seq<Tone>, min: nat)
    requires Stream(sent, plan, tones) && m.last < j < |sent| && Tracks(e, m, sent, plan)
    ensures |sent[j].payload| == 4 && sent[j].seqNo > e.seqNo
    ensures
      var done :=
        plan[j].load.end
        && (m.last < 0 || plan[m.last].digit != plan[j].digit || (!plan[m.last].load.end && m.age < SANITY));
      var (e', heard) := Accepted(e, sent[j], min);
      && heard == (if done then [DigitAt(plan, j, min)] else [])
      && forall heard' :: Tracks(e', Course(j, 0, heard'), sent, plan)
  {
    SameTsSameDigit(plan, tones, j, j);
    if m.last >= 0 {
      SameTsSameDigit(plan, tones, m.last, j);
      assert Follows(plan[m.last], plan[j]);
    }
    AcceptedLoad(e, sent[j], plan[j].load, min);
    hide Accepted, PlanOk, Planned;
  }

  // ---- whole runs ----

  ghost predicate CallsOk(calls: seq<Call>, sent: seq<Packet>) {
    forall k :: 0 <= k < |calls| ==> CallOk(calls[k], sent)
  }

  /** The course of a run. */
  ghost function CourseOf(calls: seq<Call>, sent: seq<Packet>, plan: seq<Entry>): (m: Course)
    requires CallsOk(calls, sent) && |sent| <= |plan|
    ensures m.last < |sent|
  {
    if calls == [] then Course(-1, 0, [])
    else
      var n := |calls| - 1;
      Follow(CourseOf(calls[..n], sent, plan), calls[n], sent, plan)
  }

  ghost predicate AllInTime(calls: seq<Call>, sent: seq<Packet>, plan: seq<Entry>)
    requires CallsOk(calls, sent) && |sent| <= |plan|
  {
    forall k :: 0 <= k < |calls| ==> InTime(CourseOf(calls[..k], sent, plan), calls[k], sent)
  }

  /** The last packet of a course is the one furthest on of all that have arrived. */
  lemma {:induction false} LastIsFurthest(calls: seq<Call>, sent: seq<Packet>, plan: seq<Entry>)
    requires CallsOk(calls, sent) && |sent| <= |plan|
    ensures
      var m := CourseOf(calls, sent, plan);
      && m.last >= -1 && (m.last >= 0 ==> Comes(m.last) in calls)
      && forall k :: 0 <= k < |calls| && calls[k].Comes? ==> calls[k].j <= m.last
  {
    if calls != [] {
      var n := |calls| - 1;
      LastIsFurthest(calls[..n], sent, plan);
      assert forall k :: 0 <= k < n ==> calls[..n][k] == calls[k];
      assert calls[n] in calls;
    }
  }

  /** Digits complete in the order they were sent, each at most once. */
  ghost predicate InOrderOnce(m: Course, sent: seq<Packet>, plan: seq<Entry>)
    requires CourseOk(m, sent, plan)
  {
    forall i, k :: 0 <= i < k < |m.heard| ==> plan[m.heard[i]].digit < plan[m.heard[k]].digit
  }

  lemma FollowInOrder(m: Course, c: Call, sent: seq<Packet>, plan: seq<Entry>, tones: seq<Tone>)
    requires Stream(sent, plan, tones) && CourseOk(m, sent, plan) && CallOk(c, sent)
    requires InOrderOnce(m, sent, plan)
    ensures CourseOk(Follow(m, c, sent, plan), sent, plan) && InOrderOnce(Follow(m, c, sent, plan), sent, plan)
  {
    var m' := Follow(m, c, sent, plan);
    if m'.heard != m.heard {
      forall i | 0 <= i < |m.heard| ensures plan[m.heard[i]].digit < plan[c.j].digit {
        var h := m.heard[i];
        assert Follows(plan[h], plan[c.j]);
        if h < m.last {
          assert Follows(plan[h], plan[m.last]) && Follows(plan[m.last], plan[c.j]);
        }
      }
    }
  }

  lemma {:induction false} RunInOrder(calls: seq<Call>, sent: seq<Packet>, plan: seq<Entry>, tones: seq<Tone>)
    requires Stream(sent, plan, tones) && CallsOk(calls, sent)
    ensures
      var m := CourseOf(calls, sent, plan);
      CourseOk(m, sent, plan) && InOrderOnce(m, sent, plan)
  {
    if calls != [] {
      var n := |calls| - 1;
      RunInOrder(calls[..n], sent, plan, tones);
      FollowInOrder(CourseOf(calls[..n], sent, plan), calls[n], sent, plan, tones);
    }
  }

  /** At call k an end packet of digit d arrives ahead of everything before. */
  ghost predicate EndAhead(d: nat, k: nat, calls: seq<Call>, sent: seq<Packet>, plan: seq<Entry>)
    requires k < |calls| && CallsOk(calls, sent) && |sent| <= |plan|
  {
    && calls[k].Comes? && CourseOf(calls[..k], sent, plan).last < calls[k].j
    && plan[calls[k].j].load.end && plan[calls[k].j].digit == d
  }

  /** That end completes the digit. */
  ghost predicate Completes(d: nat, k: nat, calls: seq<Call>, sent: seq<Packet>, plan: seq<Entry>)
    requires k < |calls| && CallsOk(calls, sent) && |sent| <= |plan|
  {
    EndAhead(d, k, calls, sent, plan) && Decisive(CourseOf(calls[..k], sent, plan), calls[k].j, plan)
  }

  ghost predicate Completed(d: nat, m: Course, sent: seq<Packet>, plan: seq<Entry>)
    requires CourseOk(m, sent, plan)
  {
    exists i :: 0 <= i < |m.heard| && plan[m.heard[i]].digit == d
  }

  /** A digit is completed exactly if one of its ends arrives ahead of everything that
      came before, while the digit is in progress or as its first sign of life. */
  lemma {:induction false} CompletedIff(d: nat, calls: seq<Call>, sent: seq<Packet>, plan: seq<Entry>, tones: seq<Tone>)
    requires Stream(sent, plan, tones) && CallsOk(calls, sent)
    ensures CourseOk(CourseOf(calls, sent, plan), sent, plan)
    ensures
      Completed(d, CourseOf(calls, sent, plan), sent, plan) <==>
      exists k :: 0 <= k < |calls| && Completes(d, k, calls, sent, plan)
  {
    RunInOrder(calls, sent, plan, tones);
    if calls != [] {
      hide *;
      var n := |calls| - 1;
      CourseStep(calls, sent, plan);
      CompletedIff(d, calls[..n], sent, plan, tones);
      CompletedStep(d, CourseOf(calls[..n], sent, plan), calls, sent, plan);
      forall k | 0 <= k < n
        ensures Completes(d, k, calls, sent, plan) <==> Completes(d, k, calls[..n], sent, plan)
      {
        CompletesBefore(d, k, n, calls, sent, plan);
      }
    }
  }

  lemma CompletesBefore(d: nat, k: nat, n: nat, calls: seq<Call>, sent: seq<Packet>, plan: seq<Entry>)
    requires k < n <= |calls| && CallsOk(calls, sent) && |sent| <= |plan|
    ensures CallsOk(calls[..n], sent)
    ensures Completes(d, k, calls, sent, plan) <==> Completes(d, k, calls[..n], sent, plan)
    ensures EndAhead(d, k, calls, sent, plan) <==> EndAhead(d, k, calls[..n], sent, plan)
  {
    assert calls[..n][..k] == calls[..k];
  }

  /** What the last call adds. */
  lemma CompletedStep(d: nat, m: Course, calls: seq<Call>, sent: seq<Packet>, plan: seq<Entry>)
    requires calls != [] && CallsOk(calls, sent) && |sent| <= |plan| && CourseOk(m, sent, plan)
    requires CallsOk(calls[..|calls| - 1], sent) && m == CourseOf(calls[..|calls| - 1], sent, plan)
    requires CourseOk(Follow(m, calls[|calls| - 1], sent, plan), sent, plan)
    ensures
      Completed(d, Follow(m, calls[|calls| - 1], sent, plan), sent, plan) <==>
      Completed(d, m, sent, plan) || Completes(d, |calls| - 1, calls, sent, plan)
  {
    var m' := Follow(m, calls[|calls| - 1], sent, plan);
    assert forall i :: 0 <= i < |m.heard| ==> m'.heard[i] == m.heard[i];
    if Completes(d, |calls| - 1, calls, sent, plan) { assert plan[m'.heard[|m.heard|]].digit == d; }
  }

  /** The digit's last packet came 2000 calls or more before: it has expired. */
  ghost predicate Expired(d: nat, m: Course, plan: seq<Entry>)
    requires m.last < |plan|
  {
    m.last >= 0 && plan[m.last].digit == d && m.age + 1 >= 2000
  }

  /** Of the ends of a digit that arrive ahead, the first one completes it, unless the
      digit has expired by then; no other does. */
  lemma CompletesIff(d: nat, k: nat, calls: seq<Call>, sent: seq<Packet>, plan: seq<Entry>, tones: seq<Tone>)
    requires Stream(sent, plan, tones) && CallsOk(calls, sent) && k < |calls| && EndAhead(d, k, calls, sent, plan)
    ensures
      Completes(d, k, calls, sent, plan) <==>
      && (forall i :: 0 <= i < k ==> !EndAhead(d, i, calls, sent, plan))
      && !Expired(d, CourseOf(calls[..k], sent, plan), plan)
  {
    var before, j := calls[..k], calls[k].j;
    var m := CourseOf(before, sent, plan);
    hide CourseOf, PlanOk;
    if i :| 0 <= i < k && EndAhead(d, i, calls, sent, plan) {
      EarlierEnd(d, i, k, calls, sent, plan, tones);
    } else if m.last >= 0 && plan[m.last].digit == d && plan[m.last].load.end {
      LastWasAhead(d, k, calls, sent, plan);
    }
  }

  /** If the packet furthest on is an end of a digit, that end arrived ahead. */
  lemma LastWasAhead(d: nat, k: nat, calls: seq<Call>, sent: seq<Packet>, plan: seq<Entry>)
    requires CallsOk(calls, sent) && |sent| <= |plan| && k <= |calls|
    requires
      var m := CourseOf(calls[..k], sent, plan);
      m.last >= 0 && plan[m.last].digit == d && plan[m.last].load.end
    ensures exists i :: 0 <= i < k && EndAhead(d, i, calls, sent, plan)
  {
    var before := calls[..k];
    var i := EndBefore(before, sent, plan);
    assert before[..i] == calls[..i];
    hide CourseOf;
    assert EndAhead(d, i, calls, sent, plan);
  }

  /** After an end of a digit has arrived the packet furthest on is an end of it too,
      or belongs to a later digit. */
  lemma EarlierEnd(d: nat, i: nat, k: nat, calls: seq<Call>, sent: seq<Packet>, plan: seq<Entry>, tones: seq<Tone>)
    requires Stream(sent, plan, tones) && CallsOk(calls, sent) && i < k < |calls|
    requires EndAhead(d, i, calls, sent, plan) && EndAhead(d, k, calls, sent, plan)
    ensures !Decisive(CourseOf(calls[..k], sent, plan), calls[k].j, plan)
  {
    var before := calls[..k];
    LastIsFurthest(before, sent, plan);
    hide CourseOf;
    var m, j := CourseOf(before, sent, plan), calls[i].j;
    assert before[i].Comes? && before[i].j == j <= m.last;
    assert m.last == j || Follows(plan[j], plan[m.last]);
    assert Follows(plan[m.last], plan[calls[k].j]);
  }

  lemma CourseStep(calls: seq<Call>, sent: seq<Packet>, plan: seq<Entry>)
    requires calls != [] && CallsOk(calls, sent) && |sent| <= |plan|
    ensures
      var n := |calls| - 1;
      CallsOk(calls[..n], sent) && CallOk(calls[n], sent)
      && CourseOf(calls, sent, plan) == Follow(CourseOf(calls[..n], sent, plan), calls[n], sent, plan)
  {
  }

  /** The call at which the last packet of a course arrived. */
  lemma {:induction false} EndBefore(calls: seq<Call>, sent: seq<Packet>, plan: seq<Entry>) returns (i: nat)
    requires CallsOk(calls, sent) && |sent| <= |plan| && CourseOf(calls, sent, plan).last >= 0
    ensures i < |calls| && calls[i] == Comes(CourseOf(calls, sent, plan).last)
    ensures CourseOf(calls[..i], sent, plan).last < CourseOf(calls, sent, plan).last
  {
    var n := |calls| - 1;
    var m := CourseOf(calls[..n], sent, plan);
    if calls[n].Comes? && m.last < calls[n].j {
      i := n;
    } else {
      i := EndBefore(calls[..n], sent, plan);
      assert calls[..n][..i] == calls[..i];
    }
  }

  // ---- the receiver itself ----

  /** Let a receiver handle what its calls are given. What it queues is the digits that
      the course of the run completes. */
  method Listen(r: DtmfReceiver, calls: seq<Call>, sent: seq<Packet>, ghost plan: seq<Entry>, ghost tones: seq<Tone>)
    requires Stream(sent, plan, tones) && CallsOk(calls, sent) && AllInTime(calls, sent, plan)
    requires r.State() == Ear(0, 0, 0, 0, 0, 0)
    modifies r
    ensures CourseOk(CourseOf(calls, sent, plan), sent, plan)
    ensures r.queue == old(r.queue) + DigitsAt(plan, CourseOf(calls, sent, plan).heard, r.minDuration)
  {
    hide *;
    ListenStarts(r, sent, plan, tones);
    AllCallsOk(calls, sent);
    var k := 0;
    while k < |calls|
      invariant 0 <= k <= |calls| && |sent| <= |plan| && CallsOk(calls[..k], sent)
      invariant CourseOk(CourseOf(calls[..k], sent, plan), sent, plan)
      invariant HeardSoFar(CourseOf(calls[..k], sent, plan), r.State(), old(r.queue), r.queue, sent, plan,
                           r.minDuration)
    {
      ListenStep(calls, k, r.State(), old(r.queue), r.queue, sent, plan, tones, r.minDuration);
      var action, cng := r.Handle(Given(calls[k], sent));
      k := k + 1;
    }
    assert calls[..k] == calls;
    ListenEnds(CourseOf(calls, sent, plan), r.State(), old(r.queue), r.queue, sent, plan, r.minDuration);
  }

  /** The receiver's state and queue agree with the course so far. */
  ghost predicate HeardSoFar(m: Course, e: Ear, before: seq<Heard>, queue: seq<Heard>, sent: seq<Packet>,
                             plan: seq<Entry>, min: nat)
    requires CourseOk(m, sent, plan)
  {
    Tracks(e, m, sent, plan) && queue == before + DigitsAt(plan, m.heard, min)
  }

  lemma ListenStarts(r: DtmfReceiver, sent: seq<Packet>, plan: seq<Entry>, tones: seq<Tone>)
    requires Stream(sent, plan, tones) && r.State() == Ear(0, 0, 0, 0, 0, 0)
    ensures |sent| <= |plan| && CallsOk([], sent) && CourseOk(CourseOf([], sent, plan), sent, plan)
    ensures HeardSoFar(CourseOf([], sent, plan), r.State(), r.queue, r.queue, sent, plan, r.minDuration)
  {
    assert r.queue + [] == r.queue;
  }

  lemma AllCallsOk(calls: seq<Call>, sent: seq<Packet>)
    requires CallsOk(calls, sent)
    ensures forall k :: 0 <= k < |calls| ==> CallOk(calls[k], sent)
    ensures calls[..0] == []
  {
  }

  lemma ListenStep(calls: seq<Call>, k: nat, e: Ear, before: seq<Heard>, queue: seq<Heard>,
                   sent: seq<Packet>, plan: seq<Entry>, tones: seq<Tone>, min: nat)
    requires Stream(sent, plan, tones) && CallsOk(calls, sent) && AllInTime(calls, sent, plan) && k < |calls|
    requires CallsOk(calls[..k], sent) && CourseOk(CourseOf(calls[..k], sent, plan), sent, plan)
    requires HeardSoFar(CourseOf(calls[..k], sent, plan), e, before, queue, sent, plan, min)
    ensures calls[k].Comes? ==> calls[k].j < |sent|
    ensures Roomy(Given(calls[k], sent)) && CallsOk(calls[..k + 1], sent)
    ensures
      var m' := CourseOf(calls[..k + 1], sent, plan);
      var (e', heard) := Hear(e, Given(calls[k], sent), min);
      CourseOk(m', sent, plan) && HeardSoFar(m', e', before, queue + heard, sent, plan, min)
  {
    assert InTime(CourseOf(calls[..k], sent, plan), calls[k], sent);
    assert CallOk(calls[k], sent);
    hide Tracks, Hear, Follow, DigitsAt, Stream, InTime;
    var m := CourseOf(calls[..k], sent, plan);
    HearFollows(e, m, calls[k], sent, plan, tones, min);
    assert calls[..k + 1][..k] == calls[..k];
    CourseStep(calls[..k + 1], sent, plan);
    var heard := Hear(e, Given(calls[k], sent), min).1;
    assert before + DigitsAt(plan, m.heard, min) + heard == before + (DigitsAt(plan, m.heard, min) + heard);
  }

  lemma ListenEnds(m: Course, e: Ear, before: seq<Heard>, queue: seq<Heard>, sent: seq<Packet>, plan: seq<Entry>,
                   min: nat)
    requires CourseOk(m, sent, plan) && HeardSoFar(m, e, before, queue, sent, plan, min)
    ensures queue == before + DigitsAt(plan, m.heard, min)
  {
  }

  // ---- both together ----

  /** Timestamps that rise are distinct. */
  lemma TimedApart(tones: seq<Tone>, last: U32)
    requires Timed(tones, last)
    ensures Apart(tones)
  {
  }

  /** What a sender has sent is a stream, as long as its sequence numbers have not
      wrapped, its timestamps are distinct and no digit needs more than one segment. */
  lemma SenderStreams(s: DtmfSender)
    requires s.Valid() && AllShort(s.tones, s.samples)
    requires Apart(s.tones) && Numbered(s.sent, s.seqNo)
    ensures Stream(s.sent, Plan(s.tones, s.samples), s.tones)
  {
    s.SentIsPlanned();
    PlansAreOk(s.tones, s.samples);
    hide Plan, PlanOk;
  }

  /** From a sender to a receiver: whatever the channel loses, duplicates or moves by at
      most 100 numbers, the digits queued are those of some of the sender's tones, in
      order, each at most once, with the duration sent; and a digit is queued exactly if
      one of its ends completes it. */
  method Converse(s: DtmfSender, r: DtmfReceiver, calls: seq<Call>) returns (ghost digits: seq<nat>)
    requires s.Valid() && AllShort(s.tones, s.samples)
    requires Apart(s.tones) && Numbered(s.sent, s.seqNo)
    requires r.State() == Ear(0, 0, 0, 0, 0, 0) && r.queue == []
    requires CallsOk(calls, s.sent) && |s.sent| <= |Plan(s.tones, s.samples)|
    requires AllInTime(calls, s.sent, Plan(s.tones, s.samples))
    modifies r
    ensures |r.queue| == |digits|
    ensures forall i, k :: 0 <= i < k < |digits| ==> digits[i] < digits[k]
    ensures forall i :: 0 <= i < |digits| ==>
      digits[i] < |s.tones| && Rendered(r.queue[i], s.tones[digits[i]], s.samples, r.minDuration)
    ensures forall d :: d in digits <==>
              exists k :: 0 <= k < |calls| && Completes(d, k, calls, s.sent, Plan(s.tones, s.samples))
  {
    SenderStreams(s);
    assert 0 < s.samples <= SEGMENT_MAX;
    hide *;
    ghost var plan := Plan(s.tones, s.samples);
    ghost var m := CourseOf(calls, s.sent, plan);
    RunInOrder(calls, s.sent, plan, s.tones);
    digits := DigitNumbers(m, s.sent, plan);
    DigitsRendered(m, digits, s.sent, s.tones, s.samples, r.minDuration);
    DigitsIff(m, calls, digits, s.sent, plan, s.tones);
    Listen(r, calls, s.sent, plan, s.tones);
    assert [] + DigitsAt(plan, m.heard, r.minDuration) == DigitsAt(plan, m.heard, r.minDuration);
  }

  /** A queued digit is a tone as it was sent. */
  predicate Rendered(h: Heard, t: Tone, samples: nat, min: nat) {
    && h.event == t.event && h.duration >= Max(min, t.dur)
    && (h.duration < t.dur + samples || h.duration == 2 * samples || h.duration == min)
  }

  ghost function DigitNumbers(m: Course, sent: seq<Packet>, plan: seq<Entry>): (r: seq<nat>)
    requires CourseOk(m, sent, plan)
    ensures |r| == |m.heard|
  {
    seq(|m.heard|, i requires 0 <= i < |m.heard| => plan[m.heard[i]].digit)
  }

  lemma DigitsRendered(m: Course, digits: seq<nat>, sent: seq<Packet>, tones: seq<Tone>, samples: nat, min: nat)
    requires AllShort(tones, samples) && samples <= SEGMENT_MAX
    requires Stream(sent, Plan(tones, samples), tones)
    requires CourseOk(m, sent, Plan(tones, samples)) && InOrderOnce(m, sent, Plan(tones, samples))
    requires digits == DigitNumbers(m, sent, Plan(tones, samples))
    ensures forall i, k :: 0 <= i < k < |digits| ==> digits[i] < digits[k]
    ensures forall i :: 0 <= i < |m.heard| ==> m.heard[i] < |Plan(tones, samples)|
    ensures forall i :: 0 <= i < |digits| ==>
              && digits[i] < |tones|
              && Rendered(DigitsAt(Plan(tones, samples), m.heard, min)[i], tones[digits[i]], samples, min)
  {
    var plan := Plan(tones, samples);
    hide Plan, AllShort;
    forall i | 0 <= i < |digits|
      ensures digits[i] < |tones| && Rendered(DigitsAt(plan, m.heard, min)[i], tones[digits[i]], samples, min)
    {
      EndsRoundedUp(tones, samples, m.heard[i]);
      assert Planned(plan[m.heard[i]], tones);
    }
  }

  lemma DigitsIff(m: Course, calls: seq<Call>, digits: seq<nat>, sent: seq<Packet>, plan: seq<Entry>, tones: seq<Tone>)
    requires Stream(sent, plan, tones) && CallsOk(calls, sent)
    requires m == CourseOf(calls, sent, plan) && CourseOk(m, sent, plan) && digits == DigitNumbers(m, sent, plan)
    ensures forall d :: d in digits <==> exists k :: 0 <= k < |calls| && Completes(d, k, calls, sent, plan)
  {
    hide CourseOf, Completes, Stream;
    forall d ensures d in digits <==> exists k :: 0 <= k < |calls| && Completes(d, k, calls, sent, plan) {
      CompletedIff(d, calls, sent, plan, tones);
      assert forall i :: 0 <= i < |digits| ==> digits[i] == plan[m.heard[i]].digit;
    }
  }
}
