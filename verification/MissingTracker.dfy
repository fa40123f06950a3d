/** The receive side of loss detection: which sequence numbers a video buffer
    believes missing, as a function of the numbers it was given. */
module MissingTracker {
  import opened Basics
  import opened JitterNodes

  /** next is 0 when nothing has been received since the last reset. */
  datatype Track = Track(next: U16, missing: set<U16>)

  const START := Track(0, {})

  function Want(next: U16, got: U16): U16 { if next == 0 then got else next }

  /** The gap before got is too wide to be worth repairing. */
  predicate GapTooBig(next: U16, got: U16, maxFrameLen: nat) {
    var want := Want(next, got);
    got > want && got - want > maxFrameLen && got - want > 17
  }

  function Span(a: U16, b: U16): (r: set<U16>)
    ensures forall k: U16 :: k in r <==> a <= k < b
    decreases b - a
  {
    if a >= b then {} else {a} + Span(a + 1, b)
  }

  predicate Advances(next: U16, got: U16) {
    var want := Want(next, got);
    got >= want || want - got > 1000
  }

  function NextAfter(next: U16, got: U16): U16 {
    if Advances(next, got) then (got + 1) % 0x1_0000 else next
  }

  function PutTrack(t: Track, got: U16, maxFrameLen: nat): Track {
    var want := Want(t.next, got);
    Track(NextAfter(t.next, got),
          if got <= want then t.missing - {got}
          else if GapTooBig(t.next, got, maxFrameLen) then {}
          else (t.missing - {got}) + Span(want, got))
  }

  function TrackRun(gots: seq<U16>, maxFrameLen: nat): Track {
    if gots == [] then START
    else PutTrack(TrackRun(gots[..|gots| - 1], maxFrameLen), gots[|gots| - 1], maxFrameLen)
  }

  lemma TrackRunAppend(gots: seq<U16>, got: U16, maxFrameLen: nat)
    ensures TrackRun(gots + [got], maxFrameLen) == PutTrack(TrackRun(gots, maxFrameLen), got, maxFrameLen)
  {
    assert (gots + [got])[..|gots|] == gots;
  }

  /** Number 0 is never missing: gaps are marked from a number that is expected, and
      no number is expected as 0. */
  lemma ZeroNeverMissing(t: Track, got: U16, maxFrameLen: nat)
    requires 0 !in t.missing
    ensures 0 !in PutTrack(t, got, maxFrameLen).missing
  {
  }

  /** Too wide a gap leaves what a first arrival would have left. */
  lemma GapRestarts(next: U16, got: U16, maxFrameLen: nat)
    requires GapTooBig(next, got, maxFrameLen)
    ensures forall missing :: PutTrack(Track(next, missing), got, maxFrameLen) == TrackRun([got], maxFrameLen)
  {
    TrackRunAppend([], got, maxFrameLen);
    assert [] + [got] == [got];
  }

  /** The arrival neither wraps the numbering, nor opens too wide a gap, nor is
      more than 1000 late. */
  predicate TameArrival(next: U16, got: U16, maxFrameLen: nat) {
    got < 0xFFFF && !GapTooBig(next, got, maxFrameLen) && (next != 0 ==> next - got <= 1000)
  }

  predicate Tame(gots: seq<U16>, maxFrameLen: nat) {
    gots == [] ||
    var before := gots[..|gots| - 1];
    Tame(before, maxFrameLen) && TameArrival(TrackRun(before, maxFrameLen).next, gots[|gots| - 1], maxFrameLen)
  }

  /** The missing set is exactly what lies between the first number received and
      the next one expected, less the numbers received. */
  ghost predicate Exact(t: Track, gots: seq<U16>)
    requires gots != []
  {
    && t.next > 0 && (forall g :: g in gots ==> g < t.next)
    && (exists i :: 0 <= i < |gots| && gots[i] == t.next - 1)
    && forall k: U16 :: k in t.missing <==> gots[0] <= k < t.next && k !in gots
  }

  lemma {:induction false} MissingIsExact(gots: seq<U16>, maxFrameLen: nat)
    requires gots != [] && Tame(gots, maxFrameLen)
    ensures Exact(TrackRun(gots, maxFrameLen), gots)
  {
    var before, got := gots[..|gots| - 1], gots[|gots| - 1];
    assert gots == before + [got];
    if before != [] {
      MissingIsExact(before, maxFrameLen);
      ExactStep(TrackRun(before, maxFrameLen), before, got, maxFrameLen);
    }
  }

  lemma ExactStep(t: Track, gots: seq<U16>, got: U16, maxFrameLen: nat)
    requires gots != [] && Exact(t, gots) && TameArrival(t.next, got, maxFrameLen)
    ensures Exact(PutTrack(t, got, maxFrameLen), gots + [got])
  {
    var t', all := PutTrack(t, got, maxFrameLen), gots + [got];
    assert all[0] == gots[0] && gots[0] in gots && all[|gots|] == got;
    assert forall k: U16 :: k in all <==> k in gots || k == got;
    if got < t.next {
      var i :| 0 <= i < |gots| && gots[i] == t.next - 1;
      assert all[i] == t'.next - 1;
    } else {
      assert all[|gots|] == t'.next - 1;
      forall k: U16 ensures k in t'.missing <==> gots[0] <= k < t'.next && k !in all {
        assert k in t'.missing <==> (k in t.missing && k != got) || t.next <= k < got;
      }
    }
  }

  /** A late arrival takes its own number off the missing set and nothing else. */
  lemma RetransmissionClearsItself(t: Track, got: U16, maxFrameLen: nat)
    requires t.next != 0 && got < t.next && t.next - got <= 1000
    ensures PutTrack(t, got, maxFrameLen) == Track(t.next, t.missing - {got})
  {
  }
}
