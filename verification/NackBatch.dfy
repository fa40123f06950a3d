/** One NACK popped after another: which missing numbers a batch requests. */
module NackBatch {
  import opened Basics
  import opened JitterNodes
  import opened NackWords

  /** The time at which each missing number was last requested; 1 if never. */
  type Pending = map<U16, int>

  /** Number k was never requested, or not within RENACK_TIME before now. The
      age is taken modulo 2^32. */
  predicate Due(m: Pending, k: U16, now: int)
    requires k in m
  {
    m[k] == 1 || (now - m[k]) % 0x1_0000_0000 >= RENACK_TIME
  }

  /** Number k is too far behind the target, in unsigned arithmetic. */
  predicate TooOld(k: U16, target: U16, frameLen: U32) { k < (target - frameLen) % 0x1_0000_0000 }

  /** The clock readings of a pop: those taken for some numbers, and the first. */
  datatype Times = Times(first: int, at: map<U16, int>) {
    function Of(k: U16): int { if k in at then at[k] else first }
  }

  /** The readings are of clock, from position from up to, not including, next; for a
      number that needed none it is the one at from. */
  ghost predicate Taken(t: Times, clock: nat -> int, from: nat, next: nat) {
    && t.first == clock(from) && from <= next
    && forall k :: k in t.at ==> exists i :: from <= i < next && t.at[k] == clock(i)
  }

  /** The readings by which a pop judged the pending numbers, and those it left as stamps. */
  datatype Readings = Readings(seen: Times, stamped: Times)

  /** All readings of a pop are the same. */
  ghost function At(now: int): Readings { Readings(Times(now, map[]), Times(now, map[])) }

  /** The readings lie between lo and hi, and no stamp says that there was no request. */
  ghost predicate Between(r: Readings, lo: int, hi: int) {
    && (forall k :: lo <= r.seen.Of(k) <= hi)
    && (forall k :: lo <= r.stamped.Of(k) <= hi && r.stamped.Of(k) != 1)
  }

  /** What is left once every due number that is too old has been given up. */
  ghost function Live(m: Pending, seen: Times, target: U16, frameLen: U32): Pending {
    map k | k in m && !(Due(m, k, seen.Of(k)) && TooOld(k, target, frameLen)) :: m[k]
  }

  /** The numbers in asked have just been requested. */
  ghost function Stamped(m: Pending, asked: set<U16>, stamped: Times): Pending {
    map k | k in m :: if k in asked then stamped.Of(k) else m[k]
  }

  /** One pop, from before to after: the word asks for the least number that was due when
      it was looked at. */
  ghost predicate Pops(before: Pending, after: Pending, r: Readings, target: U16, frameLen: U32, word: nat) {
    var live := Live(before, r.seen, target, frameLen);
    if word == 0 then after == live && forall k :: k in live ==> !Due(live, k, r.seen.Of(k))
    else
      var least := Pid(word);
      && least in live && Due(live, least, r.seen.Of(least)) && word == Word(live.Keys, least)
      && (forall k :: k in live && Due(live, k, r.seen.Of(k)) ==> least <= k)
      && after == Stamped(live, Asked(word), r.stamped)
  }

  /** Number k could be requested when looked at: it is pending, due, and not too old. */
  ghost predicate Requestable(m: Pending, k: U16, seen: Times, target: U16, frameLen: U32) {
    k in m && Due(m, k, seen.Of(k)) && !TooOld(k, target, frameLen)
  }

  /** A due number is given up exactly if it is more than the playout length behind the
      target; while the target is not that far itself, the difference wraps, so that all are
      short of playout lengths near the end of the range. */
  lemma GivenUpIff(m: Pending, k: U16, seen: Times, target: U16, frameLen: U32)
    requires k in m
    ensures k !in Live(m, seen, target, frameLen) <==>
      && Due(m, k, seen.Of(k))
      && (k + frameLen < target || (target < frameLen && k + frameLen < target + 0x1_0000_0000))
  {
  }

  /** So nothing is requested before the target is as far as the playout length, in
      particular not before the first read. */
  lemma NothingAskedEarly(before: Pending, after: Pending, r: Readings, target: U16, frameLen: U32, word: nat)
    requires Pops(before, after, r, target, frameLen, word) && 0 !in before && target < frameLen <= 0xFFFF_0000
    ensures word == 0
  {
    hide Word, Asked, Pid;
    ZeroWordIff(before, after, r, target, frameLen, word);
  }

  /** A number is due exactly if it was never requested or 100 milliseconds ago or more. */
  lemma DueIff(m: Pending, k: U16, now: int)
    requires k in m && 0 <= now - m[k] < 0x1_0000_0000
    ensures Due(m, k, now) <==> m[k] == 1 || now >= m[k] + 100000
  {
  }

  lemma LiveDue(m: Pending, seen: Times, target: U16, frameLen: U32)
    ensures
      var live := Live(m, seen, target, frameLen);
      forall k :: k in live && Due(live, k, seen.Of(k)) <==> Requestable(m, k, seen, target, frameLen)
  {
  }

  /** Number 0 is never pending, so a word of 0 says that nothing can be requested. */
  lemma ZeroWordIff(before: Pending, after: Pending, r: Readings, target: U16, frameLen: U32, word: nat)
    requires Pops(before, after, r, target, frameLen, word) && 0 !in before
    ensures word == 0 <==> forall k: U16 :: !Requestable(before, k, r.seen, target, frameLen)
  {
    hide Live, Word, Asked, Pid, Stamped, TooOld;
    LiveDue(before, r.seen, target, frameLen);
    if word != 0 { assert Requestable(before, Pid(word), r.seen, target, frameLen); }
  }

  /** A pop is determined by what is pending and the clock readings. */
  lemma PopDetermined(before: Pending, after: Pending, after': Pending, r: Readings, target: U16, frameLen: U32,
                      word: nat, word': nat)
    requires Pops(before, after, r, target, frameLen, word) && Pops(before, after', r, target, frameLen, word')
    requires 0 !in before
    ensures word == word' && after == after'
  {
    hide Live, Word, Asked, Pid, Stamped, TooOld;
    ZeroWordIff(before, after, r, target, frameLen, word);
    ZeroWordIff(before, after', r, target, frameLen, word');
    if word != 0 {
      var least: int, least': int := Pid(word), Pid(word');
      assert least <= least' <= least;
    }
  }

  /** A run of pops: words[i] was popped with readings rs[i], from ms[i] to ms[i + 1]. */
  ghost predicate Batch(ms: seq<Pending>, rs: seq<Readings>, words: seq<nat>, target: U16, frameLen: U32) {
    && |ms| == |words| + 1 && |rs| == |words|
    && forall i :: 0 <= i < |words| ==> Pops(ms[i], ms[i + 1], rs[i], target, frameLen, words[i])
  }

  /** From now to end, no pending number becomes due or stops being due. */
  ghost predicate Steady(m: Pending, now: int, end: int) {
    forall k, t :: k in m && now <= t <= end ==> (Due(m, k, t) <==> Due(m, k, now))
  }

  /** Pop i takes place between ts[i] and ts[i + 1], and all of them within RENACK_TIME. */
  ghost predicate Clock(rs: seq<Readings>, ts: seq<int>, end: int) {
    && |ts| == |rs| + 1 && ts[|rs|] <= end && end - ts[0] < RENACK_TIME
    && (forall i, j :: 0 <= i <= j < |ts| ==> ts[i] <= ts[j])
    && forall i :: 0 <= i < |rs| ==> Between(rs[i], ts[i], ts[i + 1])
  }

  /** No number is so high that the sixteen after it wrap. */
  ghost predicate NoWrap(m: Pending) { forall k :: k in m ==> k <= 0xFFFF - 16 }

  /** The numbers due at now all lie above low. */
  ghost predicate DueAbove(m: Pending, now: int, low: int) {
    forall k :: k in m && Due(m, k, now) ==> k > low
  }

  /** What a word asks for lies within the sixteen numbers after its first, is
      missing, and includes everything missing there. */
  lemma AskedRange(live: Pending, word: nat)
    requires NoWrap(live) && Pid(word) in live && word == Word(live.Keys, Pid(word))
    ensures forall k :: k in Asked(word) <==> k in live && Pid(word) <= k <= Pid(word) + 16
  {
    hide Asked, Word, Pid;
    var least := Pid(word);
    WordRoundTrip(live.Keys, least);
    forall k ensures k in Asked(word) <==> k in live && least <= k <= least + 16 {
      RequestsRange(live.Keys, least, k);
    }
  }

  lemma RequestsRange(keys: set<U16>, least: U16, k: U16)
    requires least <= 0xFFFF - 16 && least in keys
    ensures Requests(keys, least, k) <==> k in keys && least <= k <= least + 16
  {
    if k in keys && least < k <= least + 16 {
      assert k == Following(least, k - least - 1);
    }
  }

  /** After a pop whatever is still due lies above all that was asked for. */
  lemma PopRaises(before: Pending, after: Pending, r: Readings, lo: int, hi: int, end: int, target: U16,
                  frameLen: U32, word: nat)
    requires Pops(before, after, r, target, frameLen, word) && word != 0 && Between(r, lo, hi)
    requires NoWrap(before) && Steady(before, lo, end) && lo <= hi <= end && end - lo < RENACK_TIME
    ensures NoWrap(after) && Steady(after, hi, end)
    ensures DueAbove(after, hi, Pid(word) + 16)
    ensures forall k :: k in after ==> k in before && (k !in Asked(word) ==> after[k] == before[k])
    ensures forall k :: k in Asked(word) ==> k in before && Pid(word) <= k <= Pid(word) + 16
    ensures forall k :: k in after && Due(after, k, hi) ==> k !in Asked(word)
  {
    hide Asked, Word, Pid;
    var live := Live(before, r.seen, target, frameLen);
    AskedRange(live, word);
    forall k, t | k in after && hi <= t <= end ensures Due(after, k, t) <==> Due(after, k, hi) {
      if k in Asked(word) {
        JustAsked(after, k, r.stamped.Of(k), t);
        JustAsked(after, k, r.stamped.Of(k), hi);
      } else {
        assert Due(before, k, t) <==> Due(before, k, lo);
        assert Due(before, k, hi) <==> Due(before, k, lo);
      }
    }
    forall k | k in after && Due(after, k, hi) ensures k > Pid(word) + 16 {
      if k in Asked(word) {
        JustAsked(after, k, r.stamped.Of(k), hi);
      } else {
        assert Due(before, k, hi) <==> Due(before, k, lo);
        assert Due(before, k, r.seen.Of(k)) <==> Due(before, k, lo);
      }
    }
    forall k | k in after && k in Asked(word) ensures !Due(after, k, hi) {
      JustAsked(after, k, r.stamped.Of(k), hi);
    }
  }

  lemma JustAsked(m: Pending, k: U16, now: int, t: int)
    requires k in m && m[k] == now != 1 && 0 <= t - now < RENACK_TIME
    ensures !Due(m, k, t)
  {
  }

  /** A batch popped while the clock moves less than RENACK_TIME. */
  ghost predicate QuickBatch(ms: seq<Pending>, rs: seq<Readings>, ts: seq<int>, words: seq<nat>, target: U16,
                             frameLen: U32, end: int) {
    && Batch(ms, rs, words, target, frameLen) && Clock(rs, ts, end) && NoWrap(ms[0]) && Steady(ms[0], ts[0], end)
    && forall i :: 0 <= i < |words| - 1 ==> words[i] != 0
  }

  lemma {:induction false} BatchStays(ms: seq<Pending>, rs: seq<Readings>, ts: seq<int>, words: seq<nat>, target: U16,
                                      frameLen: U32, end: int, i: nat)
    requires QuickBatch(ms, rs, ts, words, target, frameLen, end) && i < |words|
    ensures NoWrap(ms[i]) && Steady(ms[i], ts[i], end)
  {
    hide Pops, Steady, NoWrap, Between;
    if i > 0 {
      BatchStays(ms, rs, ts, words, target, frameLen, end, i - 1);
      PopRaises(ms[i - 1], ms[i], rs[i - 1], ts[i - 1], ts[i], end, target, frameLen, words[i - 1]);
    }
  }

  lemma {:induction false} BatchRaises(ms: seq<Pending>, rs: seq<Readings>, ts: seq<int>, words: seq<nat>, target: U16,
                                       frameLen: U32, end: int, i: nat, j: nat)
    requires QuickBatch(ms, rs, ts, words, target, frameLen, end) && i < j < |words|
    ensures DueAbove(ms[j], ts[j], Pid(words[i]) + 16)
  {
    hide Asked, Word, Pid, Due, Steady, DueAbove, Pops, Between;
    BatchStays(ms, rs, ts, words, target, frameLen, end, j - 1);
    var was, t := ms[j - 1], ts[j - 1];
    PopRaises(was, ms[j], rs[j - 1], t, ts[j], end, target, frameLen, words[j - 1]);
    if i < j - 1 {
      BatchRaises(ms, rs, ts, words, target, frameLen, end, i, j - 1);
      StaysAbove(was, ms[j], t, ts[j], end, Pid(words[i]) + 16, Asked(words[j - 1]));
    }
  }

  lemma StaysAbove(was: Pending, m: Pending, t: int, t': int, end: int, low: int, asked: set<U16>)
    requires Steady(was, t, end) && t <= t' <= end && DueAbove(was, t, low)
    requires forall k :: k in m ==> k in was && (k !in asked ==> m[k] == was[k])
    requires forall k :: k in m && Due(m, k, t') ==> k !in asked
    ensures DueAbove(m, t', low)
  {
    forall k | k in m && Due(m, k, t') ensures k > low {
      assert Due(was, k, t');
      assert Due(was, k, t);
    }
  }

  /** A number that is due when it is looked at is due throughout. */
  lemma DueThroughout(m: Pending, r: Readings, lo: int, hi: int, end: int, k: U16)
    requires Steady(m, lo, end) && Between(r, lo, hi) && lo <= hi <= end && k in m
    ensures Due(m, k, r.seen.Of(k)) <==> Due(m, k, lo)
  {
  }

  /** Within a batch during which no pending number becomes due, no number is
      asked for twice. */
  lemma BatchDisjoint(ms: seq<Pending>, rs: seq<Readings>, ts: seq<int>, words: seq<nat>, target: U16, frameLen: U32,
                      end: int, i: nat, j: nat)
    requires QuickBatch(ms, rs, ts, words, target, frameLen, end)
    requires i < j < |words| && words[i] != 0 && words[j] != 0
    ensures Asked(words[i]) !! Asked(words[j])
  {
    hide Asked, Word, Pid, Between;
    BatchRaises(ms, rs, ts, words, target, frameLen, end, i, j);
    BatchStays(ms, rs, ts, words, target, frameLen, end, i);
    BatchStays(ms, rs, ts, words, target, frameLen, end, j);
    PopRaises(ms[i], ms[i + 1], rs[i], ts[i], ts[i + 1], end, target, frameLen, words[i]);
    PopRaises(ms[j], ms[j + 1], rs[j], ts[j], ts[j + 1], end, target, frameLen, words[j]);
    DueThroughout(ms[j], rs[j], ts[j], ts[j + 1], end, Pid(words[j]));
    assert Due(ms[j], Pid(words[j]), ts[j]);
  }

  lemma {:induction false} UnaskedStays(ms: seq<Pending>, rs: seq<Readings>, ts: seq<int>, words: seq<nat>, target: U16,
                                        frameLen: U32, end: int, k: U16, i: nat)
    requires QuickBatch(ms, rs, ts, words, target, frameLen, end) && i < |words|
    requires k in ms[0] && Due(ms[0], k, ts[0]) && !TooOld(k, target, frameLen)
    requires forall j :: 0 <= j < i ==> k !in Asked(words[j])
    ensures k in ms[i] && Due(ms[i], k, ts[i])
  {
    hide Asked, Word, Pid, Live, Stamped, Between;
    if i > 0 {
      UnaskedStays(ms, rs, ts, words, target, frameLen, end, k, i - 1);
      BatchStays(ms, rs, ts, words, target, frameLen, end, i - 1);
      StaysUnlessAsked(ms[i - 1], ms[i], rs[i - 1], target, frameLen, words[i - 1], k);
      assert Due(ms[i - 1], k, ts[i]);
    }
  }

  lemma StaysUnlessAsked(before: Pending, after: Pending, r: Readings, target: U16, frameLen: U32, word: nat, k: U16)
    requires Pops(before, after, r, target, frameLen, word) && word != 0
    requires k in before && !TooOld(k, target, frameLen) && k !in Asked(word)
    ensures k in after && after[k] == before[k]
  {
  }

  lemma NothingLeft(before: Pending, after: Pending, r: Readings, target: U16, frameLen: U32)
    requires Pops(before, after, r, target, frameLen, 0) && NoWrap(before)
    ensures forall k :: k in before && !TooOld(k, target, frameLen) ==> !Due(before, k, r.seen.Of(k))
  {
    var live := Live(before, r.seen, target, frameLen);
    assert forall k :: k in before && !TooOld(k, target, frameLen) ==>
      k in live && (Due(live, k, r.seen.Of(k)) <==> Due(before, k, r.seen.Of(k)));
  }

  /** A batch that ends because there is nothing more to ask for has asked for
      every number that was due and not too old. */
  lemma BatchCovers(ms: seq<Pending>, rs: seq<Readings>, ts: seq<int>, words: seq<nat>, target: U16, frameLen: U32,
                    end: int, k: U16)
    requires QuickBatch(ms, rs, ts, words, target, frameLen, end)
    requires words != [] && words[|words| - 1] == 0
    requires k in ms[0] && Due(ms[0], k, ts[0]) && !TooOld(k, target, frameLen)
    ensures exists i :: 0 <= i < |words| - 1 && k in Asked(words[i])
  {
    hide Asked, Word, Pid, Between;
    var n := |words| - 1;
    if forall i :: 0 <= i < n ==> k !in Asked(words[i]) {
      UnaskedStays(ms, rs, ts, words, target, frameLen, end, k, n);
      BatchStays(ms, rs, ts, words, target, frameLen, end, n);
      NothingLeft(ms[n], ms[n + 1], rs[n], target, frameLen);
      DueThroughout(ms[n], rs[n], ts[n], ts[n + 1], end, k);
      assert false;
    }
  }

  // ---- when two words overlap ----

  /** Pops in quick succession, during which pending numbers may come due. */
  ghost predicate Succession(ms: seq<Pending>, rs: seq<Readings>, ts: seq<int>, words: seq<nat>, target: U16,
                             frameLen: U32, end: int) {
    Batch(ms, rs, words, target, frameLen) && Clock(rs, ts, end) && NoWrap(ms[0])
  }

  /** The least number that can be requested lies from low up to, not including, high. */
  ghost predicate StartsIn(m: Pending, seen: Times, target: U16, frameLen: U32, low: int, high: int) {
    exists k: U16 ::
      && low <= k < high && Requestable(m, k, seen, target, frameLen)
      && forall k': U16 :: Requestable(m, k', seen, target, frameLen) ==> k <= k'
  }

  lemma {:induction false} KeysShrink(ms: seq<Pending>, rs: seq<Readings>, words: seq<nat>, target: U16,
                                      frameLen: U32, i: nat, j: nat)
    requires Batch(ms, rs, words, target, frameLen) && i <= j <= |words|
    ensures forall k :: k in ms[j] ==> k in ms[i]
  {
    hide Asked, Word, Pid, Due, TooOld;
    if i < j {
      KeysShrink(ms, rs, words, target, frameLen, i, j - 1);
      assert Pops(ms[j - 1], ms[j], rs[j - 1], target, frameLen, words[j - 1]);
    }
  }

  /** What a pop has asked for stays pending, stamped by that or by a later pop. */
  lemma {:induction false} AskedKept(ms: seq<Pending>, rs: seq<Readings>, ts: seq<int>, words: seq<nat>, target: U16,
                                     frameLen: U32, end: int, i: nat, j: nat, k: U16)
    requires Succession(ms, rs, ts, words, target, frameLen, end)
    requires i < j <= |words| && words[i] != 0 && k in Asked(words[i])
    ensures k in ms[j] && exists x :: i <= x < j && ms[j][k] == rs[x].stamped.Of(k)
  {
    hide Asked, Word, Pid, Due, TooOld;
    assert Pops(ms[j - 1], ms[j], rs[j - 1], target, frameLen, words[j - 1]);
    if i == j - 1 {
      KeysShrink(ms, rs, words, target, frameLen, 0, i);
      AskedRange(Live(ms[i], rs[i].seen, target, frameLen), words[i]);
      assert ms[j][k] == rs[i].stamped.Of(k);
    } else {
      AskedKept(ms, rs, ts, words, target, frameLen, end, i, j - 1, k);
      var x :| i <= x < j - 1 && ms[j - 1][k] == rs[x].stamped.Of(k);
      StampedBefore(rs, ts, end, x, j - 1, k);
      JustAsked(ms[j - 1], k, rs[x].stamped.Of(k), rs[j - 1].seen.Of(k));
      assert ms[j][k] ==
             if k in Asked(words[j - 1]) && words[j - 1] != 0 then rs[j - 1].stamped.Of(k) else rs[x].stamped.Of(k);
    }
  }

  /** A later pop looks at a number less than RENACK_TIME after an earlier one stamped it. */
  lemma StampedBefore(rs: seq<Readings>, ts: seq<int>, end: int, x: nat, y: nat, k: U16)
    requires Clock(rs, ts, end) && x < y < |rs|
    ensures 0 <= rs[y].seen.Of(k) - rs[x].stamped.Of(k) < RENACK_TIME && rs[x].stamped.Of(k) != 1
  {
    assert ts[0] <= ts[x] <= ts[x + 1] <= ts[y] <= ts[y + 1] <= ts[|rs|];
    assert Between(rs[x], ts[x], ts[x + 1]) && Between(rs[y], ts[y], ts[y + 1]);
  }

  /** Two words popped in quick succession, one anywhere after the other, ask for a
      number in common exactly if the least number that can be requested by the second
      pop is one of the sixteen below the first word's. */
  lemma PopsOverlapIff(ms: seq<Pending>, rs: seq<Readings>, ts: seq<int>, words: seq<nat>, target: U16, frameLen: U32,
                       end: int, i: nat, j: nat)
    requires Succession(ms, rs, ts, words, target, frameLen, end)
    requires i < j < |words| && words[i] != 0 && words[j] != 0
    ensures
      !(Asked(words[i]) !! Asked(words[j])) <==>
      StartsIn(ms[j], rs[j].seen, target, frameLen, Pid(words[i]) - 16, Pid(words[i]))
  {
    hide Asked, Word, Pid, Due, TooOld;
    var live, live' := Live(ms[i], rs[i].seen, target, frameLen), Live(ms[j], rs[j].seen, target, frameLen);
    var l: int, l': int := Pid(words[i]), Pid(words[j]);
    assert Pops(ms[i], ms[i + 1], rs[i], target, frameLen, words[i]);
    assert Pops(ms[j], ms[j + 1], rs[j], target, frameLen, words[j]);
    KeysShrink(ms, rs, words, target, frameLen, 0, i);
    KeysShrink(ms, rs, words, target, frameLen, 0, j);
    KeysShrink(ms, rs, words, target, frameLen, i + 1, j);
    AskedRange(live, words[i]);
    AskedRange(live', words[j]);
    LiveDue(ms[j], rs[j].seen, target, frameLen);
    SecondStart(ms, rs, ts, words, target, frameLen, end, i, j);
    assert StartsIn(ms[j], rs[j].seen, target, frameLen, l - 16, l) <==> l - 16 <= l' < l;
  }

  /** The second word starts outside the first one's range, in which nothing is due,
      and what the first asked for is still pending. */
  lemma SecondStart(ms: seq<Pending>, rs: seq<Readings>, ts: seq<int>, words: seq<nat>, target: U16, frameLen: U32,
                    end: int, i: nat, j: nat)
    requires Succession(ms, rs, ts, words, target, frameLen, end)
    requires i < j < |words| && words[i] != 0 && words[j] != 0
    ensures Pid(words[j]) !in Asked(words[i])
    ensures Pid(words[i]) in Asked(words[i]) && Pid(words[i]) in Live(ms[j], rs[j].seen, target, frameLen)
  {
    hide Asked, Word, Pid, Due, TooOld;
    assert Pops(ms[i], ms[i + 1], rs[i], target, frameLen, words[i]);
    assert Pops(ms[j], ms[j + 1], rs[j], target, frameLen, words[j]);
    KeysShrink(ms, rs, words, target, frameLen, 0, i);
    AskedRange(Live(ms[i], rs[i].seen, target, frameLen), words[i]);
    AskedNotDue(ms, rs, ts, words, target, frameLen, end, i, j, Pid(words[i]));
    LiveDue(ms[j], rs[j].seen, target, frameLen);
    assert Requestable(ms[j], Pid(words[j]), rs[j].seen, target, frameLen);
    if Pid(words[j]) in Asked(words[i]) {
      AskedNotDue(ms, rs, ts, words, target, frameLen, end, i, j, Pid(words[j]));
    }
  }

  lemma AskedNotDue(ms: seq<Pending>, rs: seq<Readings>, ts: seq<int>, words: seq<nat>, target: U16, frameLen: U32,
                    end: int, i: nat, j: nat, k: U16)
    requires Succession(ms, rs, ts, words, target, frameLen, end)
    requires i < j < |words| && words[i] != 0 && k in Asked(words[i])
    ensures k in ms[j] && !Due(ms[j], k, rs[j].seen.Of(k))
  {
    hide Asked, Word, Pid, Due, TooOld, Pops;
    AskedKept(ms, rs, ts, words, target, frameLen, end, i, j, k);
    var x :| i <= x < j && ms[j][k] == rs[x].stamped.Of(k);
    StampedBefore(rs, ts, end, x, j, k);
    JustAsked(ms[j], k, rs[x].stamped.Of(k), rs[j].seen.Of(k));
  }

  /** For two pops in a row the condition can be read off before the first of them. */
  lemma TwoPopsOverlapIff(before: Pending, mid: Pending, after: Pending, r: Readings, r': Readings,
                          t0: int, t1: int, t2: int, target: U16, frameLen: U32, word: nat, word': nat)
    requires Pops(before, mid, r, target, frameLen, word) && word != 0 && Between(r, t0, t1)
    requires Pops(mid, after, r', target, frameLen, word') && word' != 0 && Between(r', t1, t2)
    requires NoWrap(before) && t0 <= t1 <= t2 < t0 + RENACK_TIME
    ensures
      !(Asked(word) !! Asked(word')) <==> StartsIn(before, r'.seen, target, frameLen, Pid(word) - 16, Pid(word))
  {
    hide Asked, Word, Pid, Due, TooOld;
    var ms, rs, words, ts := [before, mid, after], [r, r'], [word, word'], [t0, t1, t2];
    assert forall i :: 0 <= i < 2 ==> Pops(ms[i], ms[i + 1], rs[i], target, frameLen, words[i]);
    PopsOverlapIff(ms, rs, ts, words, target, frameLen, t2, 0, 1);
    AskedRange(Live(before, r.seen, target, frameLen), word);
    forall k: U16 | k < Pid(word)
      ensures Requestable(mid, k, r'.seen, target, frameLen) <==> Requestable(before, k, r'.seen, target, frameLen)
    {
      SameBelow(before, mid, r, r'.seen, target, frameLen, word, k);
    }
    assert StartsIn(mid, r'.seen, target, frameLen, Pid(word) - 16, Pid(word)) <==>
           StartsIn(before, r'.seen, target, frameLen, Pid(word) - 16, Pid(word));
  }

  lemma SameBelow(before: Pending, mid: Pending, r: Readings, seen: Times, target: U16, frameLen: U32, word: nat,
                  k: U16)
    requires Pops(before, mid, r, target, frameLen, word) && word != 0 && NoWrap(before) && k < Pid(word)
    ensures Requestable(mid, k, seen, target, frameLen) <==> Requestable(before, k, seen, target, frameLen)
  {
    hide Asked, Word, Pid;
    AskedRange(Live(before, r.seen, target, frameLen), word);
  }

  /** So a batch may ask for a number twice: 10 is asked for at once, and again after
      5, requested earlier, comes due. */
  lemma BatchMayOverlap()
    ensures exists before, mid, after, word, word' ::
      && NoWrap(before) && Pops(before, mid, At(200000), 1, 1, word) && Pops(mid, after, At(200010), 1, 1, word')
      && word != 0 && word' != 0 && 10 in Asked(word) && 10 in Asked(word')
  {
    hide Asked, Word, Pid;
    var before: Pending := map[5 := 100002, 10 := 1];
    var word := Word({5, 10}, 10);
    Example(before, {5, 10}, 10, 200000);
    var mid := Stamped(before, Asked(word), At(200000).stamped);
    RequestsRange({5, 10}, 10, 5);
    WordRoundTrip({5, 10}, 10);
    assert mid[5] == 100002 && mid[10] == 200000;
    var word' := Word({5, 10}, 5);
    Example(mid, {5, 10}, 5, 200010);
    WordRoundTrip({5, 10}, 5);
    RequestsRange({5, 10}, 5, 10);
    var after := Stamped(mid, Asked(word'), At(200010).stamped);
  }

  lemma Example(m: Pending, keys: set<U16>, least: U16, now: int)
    requires m.Keys == keys && least in keys && Due(m, least, now) && least != 0
    requires forall k :: k in m && Due(m, k, now) ==> least <= k
    ensures Pops(m, Stamped(m, Asked(Word(keys, least)), At(now).stamped), At(now), 1, 1, Word(keys, least))
    ensures Word(keys, least) != 0
  {
    hide Asked, Word, Pid;
    WordRoundTrip(keys, least);
    NonZeroWord(keys, least);
    assert Live(m, At(now).seen, 1, 1) == m;
  }

  lemma NonZeroWord(keys: set<U16>, least: U16)
    requires least != 0
    ensures Word(keys, least) != 0
  {
    WordParts(keys, least);
  }
}
