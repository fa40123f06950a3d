/** Telephone events on the wire (section 2.3 of RFC 4733), and the packets that
    the digits of a session call for. */
module DtmfPlan {
  import opened Basics

  const VOLUME: Byte := 13
  const SEGMENT_MAX := 0xFFFF

  /** What a packet says: an event, whether it has ended, how long it has lasted, the
      timestamp at which it (or its segment) began, and the marker bit. */
  datatype Load = Load(event: Byte, end: bool, duration: U16, ts: U32, mark: bool)

  /** A packet: four payload bytes for one that the sender below writes. */
  datatype Packet = Packet(seqNo: U16, ts: U32, mark: bool, payload: seq<Byte>)

  function Bytes(l: Load): (r: seq<Byte>)
    ensures |r| == 4
  {
    [l.event, if l.end then 0x80 + VOLUME else VOLUME, l.duration / 256, l.duration % 256]
  }

  function Carrying(seqNo: U16, l: Load): Packet { Packet(seqNo, l.ts, l.mark, Bytes(l)) }

  predicate IsEnd(payload: seq<Byte>)
    requires |payload| >= 4
  {
    payload[1] >= 0x80
  }

  function DurationIn(payload: seq<Byte>): U16
    requires |payload| >= 4
  {
    Duration(payload[2], payload[3])
  }

  function Duration(hi: int, lo: int): int { hi * 256 + lo }

  predicate Blank(payload: seq<Byte>)
    requires |payload| >= 4
  {
    payload[0] == payload[1] == payload[2] == payload[3] == 0
  }

  /** The end bit is the highest of the second byte; the duration is in the last two, the
      high byte first; a payload is blank if its first four bytes are zero. */
  lemma PayloadReads(payload: seq<Byte>)
    requires |payload| >= 4
    ensures IsEnd(payload) <==> payload[1] / 128 == 1
    ensures DurationIn(payload) == payload[2] as int * 256 + payload[3]
    ensures Blank(payload) <==> forall i :: 0 <= i < 4 ==> payload[i] == 0
  {
  }

  lemma LoadCarried(l: Load)
    ensures !Blank(Bytes(l)) && Bytes(l)[0] == l.event
    ensures IsEnd(Bytes(l)) == l.end && DurationIn(Bytes(l)) == l.duration
  {
  }

  /** A digit as it is sent: its event, the duration asked for, and its timestamp. */
  datatype Tone = Tone(event: Byte, dur: nat, ts: U32)

  /** How long the current segment has lasted at beat i, and how many segments have
      been filled before it. Every beat adds one interval's samples. */
  function Sub(samples: nat, i: nat): nat {
    if i == 0 then samples
    else if Sub(samples, i - 1) + samples > SEGMENT_MAX then samples
    else Sub(samples, i - 1) + samples
  }

  function Segments(samples: nat, i: nat): nat {
    if i == 0 then 0
    else if Sub(samples, i - 1) + samples > SEGMENT_MAX then Segments(samples, i - 1) + 1
    else Segments(samples, i - 1)
  }

  function SegmentTs(ts: U32, segments: nat): U32 { (ts + segments * SEGMENT_MAX) % 0x1_0000_0000 }

  lemma {:induction false} SubFits(samples: nat, i: nat)
    requires samples <= SEGMENT_MAX
    ensures samples <= Sub(samples, i) <= SEGMENT_MAX
  {
    if i > 0 { SubFits(samples, i - 1); }
  }

  /** While the total fits one segment there is only one. */
  lemma {:induction false} OneSegment(samples: nat, i: nat)
    requires (i + 1) * samples <= SEGMENT_MAX
    ensures Sub(samples, i) == (i + 1) * samples && Segments(samples, i) == 0
  {
    if i > 0 {
      assert (i + 1) * samples == i * samples + samples;
      OneSegment(samples, i - 1);
    }
  }

  /** Whether the tone has lasted long enough at beat i; it takes at least two. */
  predicate Over(t: Tone, samples: nat, i: nat) { i > 0 && (i + 1) * samples >= t.dur }

  function BeatLoad(t: Tone, samples: nat, i: nat): Load
    requires samples <= SEGMENT_MAX
  {
    SubFits(samples, i);
    Load(t.event, Over(t, samples, i), Sub(samples, i), SegmentTs(t.ts, Segments(samples, i)), i == 0)
  }

  /** The packets of one beat: the end is sent three times. */
  function Beat(t: Tone, samples: nat, i: nat): seq<Load>
    requires samples <= SEGMENT_MAX
  {
    var l := BeatLoad(t, samples, i);
    if l.end then [l, l, l] else [l]
  }

  /** The packets of a tone from beat i on. */
  ghost function TrainFrom(t: Tone, samples: nat, i: nat): seq<Load>
    requires 0 < samples <= SEGMENT_MAX
    decreases if Over(t, samples, i) then 0 else t.dur + 2 - i
  {
    if Over(t, samples, i) then Beat(t, samples, i)
    else
      NotOver(t, samples, i);
      Beat(t, samples, i) + TrainFrom(t, samples, i + 1)
  }

  lemma NotOver(t: Tone, samples: nat, i: nat)
    requires samples > 0 && !Over(t, samples, i)
    ensures i <= t.dur
  {
    if i > 0 { MulAtLeast(i + 1, 1, samples); }
  }

  /** A planned packet and the digit it belongs to. */
  datatype Entry = Entry(load: Load, digit: nat)

  ghost function Entries(loads: seq<Load>, digit: nat): (r: seq<Entry>)
    ensures |r| == |loads|
  {
    seq(|loads|, i requires 0 <= i < |loads| => Entry(loads[i], digit))
  }

  /** The packets that the tones call for, in order. */
  ghost function Plan(tones: seq<Tone>, samples: nat): seq<Entry>
    requires 0 < samples <= SEGMENT_MAX
  {
    if tones == [] then []
    else
      var n := |tones| - 1;
      Plan(tones[..n], samples) + Entries(TrainFrom(tones[n], samples, 0), n)
  }

  // ---- what a plan looks like ----

  /** Tones short enough for one segment. */
  predicate Short(t: Tone, samples: nat) { 2 * samples <= SEGMENT_MAX && t.dur + samples <= 0x1_0000 }

  /** Nothing follows an end but itself. */
  ghost predicate EndsLast(loads: seq<Load>) {
    forall a, b :: 0 <= a < b < |loads| && loads[a].end ==> loads[b] == loads[a]
  }

  ghost predicate SameEvent(loads: seq<Load>, t: Tone) { forall a :: 0 <= a < |loads| ==> loads[a].event == t.event }

  /** All have the tone's timestamp, and the duration never falls nor is below a bound. */
  ghost predicate Growing(loads: seq<Load>, t: Tone, least: int) {
    && (forall a :: 0 <= a < |loads| ==> loads[a].ts == t.ts && loads[a].duration >= least)
    && forall a, b :: 0 <= a < b < |loads| ==> loads[a].duration <= loads[b].duration
  }

  lemma {:induction false} TrainEnds(t: Tone, samples: nat, i: nat)
    requires 0 < samples <= SEGMENT_MAX
    ensures EndsLast(TrainFrom(t, samples, i)) && SameEvent(TrainFrom(t, samples, i), t)
    decreases if Over(t, samples, i) then 0 else t.dur + 2 - i
  {
    hide BeatLoad;
    BeatIs(t, samples, i);
    if !Over(t, samples, i) {
      NotOver(t, samples, i);
      TrainEnds(t, samples, i + 1);
    }
  }

  lemma BeatIs(t: Tone, samples: nat, i: nat)
    requires 0 < samples <= SEGMENT_MAX
    ensures BeatLoad(t, samples, i).end == Over(t, samples, i) && BeatLoad(t, samples, i).event == t.event
  {
  }

  /** Any train but one that is over starts with a packet and goes on. */
  lemma TrainStep(t: Tone, samples: nat, i: nat)
    requires 0 < samples <= SEGMENT_MAX
    ensures TrainFrom(t, samples, i) ==
            Beat(t, samples, i) + if Over(t, samples, i) then [] else TrainFrom(t, samples, i + 1)
  {
  }

  lemma ShortBeat(t: Tone, samples: nat, i: nat)
    requires 0 < samples && Short(t, samples) && (i > 0 ==> !Over(t, samples, i - 1))
    ensures samples <= SEGMENT_MAX
    ensures (i + 1) * samples <= SEGMENT_MAX && (i > 1 ==> (i + 1) * samples < t.dur + samples)
    ensures BeatLoad(t, samples, i) == Load(t.event, Over(t, samples, i), (i + 1) * samples, t.ts, i == 0)
  {
    assert (i + 1) * samples == i * samples + samples;
    if i > 1 { assert i * samples < t.dur; }
    OneSegment(samples, i);
  }

  lemma {:induction false} TrainGrows(t: Tone, samples: nat, i: nat)
    requires 0 < samples && Short(t, samples) && (i > 0 ==> !Over(t, samples, i - 1))
    ensures Growing(TrainFrom(t, samples, i), t, (i + 1) * samples)
    decreases if Over(t, samples, i) then 0 else t.dur + 2 - i
  {
    ShortBeat(t, samples, i);
    TrainStep(t, samples, i);
    hide BeatLoad;
    if !Over(t, samples, i) {
      NotOver(t, samples, i);
      TrainGrows(t, samples, i + 1);
      assert (i + 2) * samples == (i + 1) * samples + samples;
    }
  }

  /** A train closes with three equal ends, and has no others. Their duration is what
      was asked for, rounded up to whole intervals, of which there are at least two. */
  ghost predicate Closed(loads: seq<Load>, t: Tone, samples: nat) {
    var n := |loads| - 3;
    && n >= 0 && loads[n] == loads[n + 1] == loads[n + 2] && loads[n].end
    && (forall a :: 0 <= a < n ==> !loads[a].end)
    && t.dur <= loads[n].duration && (loads[n].duration < t.dur + samples || loads[n].duration == 2 * samples)
  }

  lemma {:induction false} TrainCloses(t: Tone, samples: nat, i: nat)
    requires 0 < samples && Short(t, samples) && (i > 0 ==> !Over(t, samples, i - 1))
    ensures Closed(TrainFrom(t, samples, i), t, samples)
    decreases if Over(t, samples, i) then 0 else t.dur + 2 - i
  {
    ShortBeat(t, samples, i);
    TrainStep(t, samples, i);
    hide BeatLoad;
    if !Over(t, samples, i) {
      NotOver(t, samples, i);
      TrainCloses(t, samples, i + 1);
      var rest := TrainFrom(t, samples, i + 1);
      assert forall a :: 1 <= a < |rest| + 1 ==> TrainFrom(t, samples, i)[a] == rest[a - 1];
    }
  }

  ghost predicate AllShort(tones: seq<Tone>, samples: nat) {
    0 < samples && forall d :: 0 <= d < |tones| ==> Short(tones[d], samples)
  }

  ghost predicate Planned(e: Entry, tones: seq<Tone>) {
    e.digit < |tones| && e.load.event == tones[e.digit].event && e.load.ts == tones[e.digit].ts
  }

  /** How an entry may be followed by a later one. */
  ghost predicate Follows(e: Entry, f: Entry) {
    && e.digit <= f.digit
    && (e.digit == f.digit ==> e.load.duration <= f.load.duration && (e.load.end ==> f.load == e.load))
  }

  ghost predicate PlanOk(plan: seq<Entry>, tones: seq<Tone>) {
    && (forall i :: 0 <= i < |plan| ==> Planned(plan[i], tones))
    && forall i, j :: 0 <= i < j < |plan| ==> Follows(plan[i], plan[j])
  }

  lemma {:induction false} PlansAreOk(tones: seq<Tone>, samples: nat)
    requires AllShort(tones, samples) && samples <= SEGMENT_MAX
    ensures PlanOk(Plan(tones, samples), tones)
  {
    if tones != [] {
      var n := |tones| - 1;
      var t := tones[n];
      PlansAreOk(tones[..n], samples);
      TrainEnds(t, samples, 0);
      TrainGrows(t, samples, 0);
      hide TrainFrom;
      var before, loads := Plan(tones[..n], samples), TrainFrom(t, samples, 0);
      var plan := before + Entries(loads, n);
      assert plan == Plan(tones, samples);
      forall i | 0 <= i < |plan| ensures Planned(plan[i], tones) {
        if i < |before| { assert Planned(before[i], tones[..n]); }
      }
      forall i, j | 0 <= i < j < |plan| ensures Follows(plan[i], plan[j]) {
        if j < |before| {
          assert Follows(before[i], before[j]);
        } else if i < |before| {
          assert Planned(before[i], tones[..n]);
        }
      }
    }
  }

  /** Every planned end reports a duration of at least what was asked for, and by less
      than one interval more unless two intervals are needed anyway. */
  lemma {:induction false} EndsRoundedUp(tones: seq<Tone>, samples: nat, j: nat)
    requires AllShort(tones, samples) && samples <= SEGMENT_MAX && j < |Plan(tones, samples)|
    ensures
      var e := Plan(tones, samples)[j];
      e.load.end ==>
        && e.digit < |tones| && tones[e.digit].dur <= e.load.duration
        && (e.load.duration < tones[e.digit].dur + samples || e.load.duration == 2 * samples)
  {
    var n := |tones| - 1;
    var t, before := tones[n], Plan(tones[..n], samples);
    if j < |before| {
      EndsRoundedUp(tones[..n], samples, j);
    } else {
      TrainCloses(t, samples, 0);
      hide TrainFrom;
      var loads := TrainFrom(t, samples, 0);
      assert Plan(tones, samples)[j] == Entry(loads[j - |before|], n);
    }
  }
}
