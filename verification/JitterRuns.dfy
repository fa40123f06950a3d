/** Whole runs of a jitter buffer: any operations in any order, and one run through
    which two requests come to overlap. */
module JitterRuns {
  import opened Basics
  import opened JitterNodes
  import opened SendLog
  import opened NackWords
  import opened NackBatch
  import opened MissingTracker
  import opened JitterBuffers

  /** What is done to a buffer: a packet is put in, one is read into what buf holds, a
      NACK word is popped by some clock, or everything is thrown away. */
  datatype Op = Put(packet: Packet) | Get(buf: Packet) | Pop(clock: nat -> int) | Empty

  /** Packet got was put in before operation at, which handed it out. */
  predicate Handed(ops: seq<Op>, from: nat, at: nat, got: Packet) {
    from < at < |ops| && ops[from].Put? && ops[at].Get? && got == Restored(ops[from].packet)
  }

  /** Each packet handed out is one of those put in before, by an operation of its own. */
  ghost predicate AllHanded(ops: seq<Op>, got: seq<Packet>, from: seq<nat>, at: seq<nat>) {
    && |from| == |at| == |got|
    && (forall i :: 0 <= i < |got| ==> Handed(ops, from[i], at[i], got[i]))
    && (forall i, j :: 0 <= i < j < |got| ==> from[i] != from[j] && at[i] < at[j])
  }

  /** Each packet held is one of the first k put in, by an operation of its own, and
      was not handed out. */
  ghost predicate Owned(held: map<Node, Packet>, owner: map<Node, nat>, ops: seq<Op>, k: nat, from: seq<nat>) {
    && (forall n :: n in held ==>
         n in owner && owner[n] < k <= |ops| && ops[owner[n]].Put? && held[n] == Restored(ops[owner[n]].packet)
         && owner[n] !in from)
    && forall m, n :: m in held && n in held && m != n ==> m in owner && n in owner && owner[m] != owner[n]
  }

  /** Any run of an empty buffer: what is handed out was put in before, and each
      packet put in is handed out at most once. */
  method Run(b: JitterBuffer, ops: seq<Op>) returns (got: seq<Packet>, ghost from: seq<nat>, ghost at: seq<nat>)
    requires b.Valid() && b.Held() == map[]
    modifies b, b.nodes
    ensures b.Valid() && fresh(set n | n in b.nodes && n !in old(b.nodes))
    ensures AllHanded(ops, got, from, at) && b.ledger.delivered == old(b.ledger.delivered) + |got|
  {
    hide *;
    got, from, at := [], [], [];
    ghost var owner: map<Node, nat> := map[];
    var k := 0;
    StartRun(ops);
    while k < |ops|
      invariant 0 <= k <= |ops| && b.Valid()
      invariant forall i :: 0 <= i < |b.nodes| ==> b.nodes[i] in old(b.nodes) || fresh(b.nodes[i])
      invariant |from| == |at| && AllHanded(ops, got, from, at)
      invariant forall i :: 0 <= i < |from| ==> from[i] < k && at[i] < k
      invariant Owned(b.Held(), owner, ops, k, from)
      invariant b.ledger.delivered == old(b.ledger.delivered) + |got|
    {
      ghost var held, before := b.Held(), b.nodes;
      match ops[k] {
        case Put(p) =>
          ghost var into := b.PutPacket(p);
          owner := PutIn(held, b.Held(), owner, ops, k, from, into);
        case Get(buf) =>
          var status, packet, played := b.GetPacket(buf);
          TakenOut(held, b.Held(), owner, ops, k, from, played);
          if status == Success || status == Timeout {
            HandedOut(ops, got, from, at, held, owner, k, played);
            got, from, at := got + [packet], from + [owner[played]], at + [k];
          }
        case Pop(clock) =>
          var _, _, _ := b.PopNack(clock, 0);
          StillOwned(held, b.Held(), owner, ops, k, from);
        case Empty =>
          b.ResetBuffer();
          StillOwned(held, b.Held(), owner, ops, k, from);
      }
      forall i | 0 <= i < |b.nodes| ensures b.nodes[i] in old(b.nodes) || fresh(b.nodes[i]) {
        if b.nodes[i] in before {
          var j :| 0 <= j < |before| && before[j] == b.nodes[i];
        }
      }
      k := k + 1;
    }
  }

  lemma StartRun(ops: seq<Op>)
    ensures AllHanded(ops, [], [], []) && forall owner :: Owned(map[], owner, ops, 0, [])
  {
  }

  lemma StillOwned(held: map<Node, Packet>, held': map<Node, Packet>, owner: map<Node, nat>, ops: seq<Op>, k: nat,
                   from: seq<nat>)
    requires Owned(held, owner, ops, k, from) && k < |ops| && (held' == held || held' == map[])
    ensures Owned(held', owner, ops, k + 1, from)
  {
  }

  /** The node that took operation k's packet is now owned by it. */
  ghost function PutIn(held: map<Node, Packet>, held': map<Node, Packet>, owner: map<Node, nat>, ops: seq<Op>, k: nat,
                       from: seq<nat>, into: Node?): (owner': map<Node, nat>)
    requires Owned(held, owner, ops, k, from) && k < |ops| && ops[k].Put? && Adds(held, held', into, ops[k].packet)
    requires forall i :: 0 <= i < |from| ==> from[i] < k
    ensures Owned(held', owner', ops, k + 1, from)
  {
    if into == null then owner else owner[into := k]
  }

  lemma TakenOut(held: map<Node, Packet>, held': map<Node, Packet>, owner: map<Node, nat>, ops: seq<Op>, k: nat,
                 from: seq<nat>, played: Node?)
    requires Owned(held, owner, ops, k, from) && k < |ops| && Takes(held, held', played)
    requires played != null ==> played in held
    ensures Owned(held', owner, ops, k + 1, from)
    ensures played != null ==> played in owner && Owned(held', owner, ops, k + 1, from + [owner[played]])
  {
  }

  lemma HandedOut(ops: seq<Op>, got: seq<Packet>, from: seq<nat>, at: seq<nat>, held: map<Node, Packet>,
                  owner: map<Node, nat>, k: nat, played: Node)
    requires AllHanded(ops, got, from, at) && (forall i :: 0 <= i < |from| ==> from[i] < k && at[i] < k)
    requires Owned(held, owner, ops, k, from) && played in held && k < |ops| && ops[k].Get?
    ensures played in owner && owner[played] < k
    ensures AllHanded(ops, got + [held[played]], from + [owner[played]], at + [k])
  {
    assert forall i :: 0 <= i < |from| ==> from[i] in from;
  }

  // ---- a run through which two requests overlap ----

  /** A receiving video buffer with a few packets, none of them mismarked. */
  ghost predicate Open(b: JitterBuffer)
    reads b, b.nodes
  {
    && b.Valid() && b.kind.Video? && !b.queueOnly && b.minFrameLen == 1 && b.maxFrameLen == 10
    && b.highestDroppedTs == 0 && b.tally.missed == 0 && |b.Held()| < 20
  }

  /** Number k comes next, or after a gap of one. */
  ghost predicate Follows(b: JitterBuffer, k: U16, ts: U32)
    reads b
  {
    && 0 < k < 1000 && (b.nextSeq != 0 ==> b.nextSeq <= k <= b.nextSeq + 1) && k !in b.missing
    && (b.wrote.init ==> 0 <= k - b.wrote.seqNo < 100 && 0 <= ts - b.wrote.ts < 1000)
  }

  lemma PlainPut(b: JitterBuffer, p: Packet)
    requires Open(b) && Follows(b, p.seqNo, p.ts) && p.ts < 1000
    ensures !b.Ignores(p) && !b.Empties(p) && !b.GapReset(p)
    ensures b.LenAfter(p.seqNo) == b.frameLen && b.NextOnce(p.seqNo) == p.seqNo + 1
    ensures b.MissingOnce(p.seqNo) ==
            if b.nextSeq != 0 && p.seqNo == b.nextSeq + 1 then b.missing[b.nextSeq := 1] else b.missing
  {
    HeldCount(b);
    LenBound(b);
  }

  lemma HeldCount(b: JitterBuffer)
    requires b.Valid()
    ensures |b.Held()| == b.visibleNodes
  {
    hide *;
    b.Parts();
    b.CoreIs();
    b.ShapeIs();
    b.HeldIs();
  }

  lemma LenBound(b: JitterBuffer)
    requires Open(b)
    ensures 1 <= b.frameLen <= 10
  {
  }

  lemma AddsCount(h: map<Node, Packet>, h': map<Node, Packet>, into: Node?, p: Packet)
    requires Adds(h, h', into, p)
    ensures |h'| <= |h| + 1
  {
    if into == null {
      SubsetCount(h'.Keys, h.Keys);
    } else {
      SubsetCount(h'.Keys, h.Keys + {into});
    }
  }

  lemma SubsetCount(a: set<Node>, b: set<Node>)
    requires a <= b
    ensures |a| <= |b|
  {
    assert b == a + (b - a);
  }

  /** Put in the next packet, or the one after it. */
  method PutNext(b: JitterBuffer, k: U16, ts: U32)
    requires Open(b) && Follows(b, k, ts) && ts < 1000 && |b.Held()| < 19
    modifies b, b.nodes
    ensures Open(b) && fresh(set n | n in b.nodes && n !in old(b.nodes)) && |b.Held()| <= |old(b.Held())| + 1
    ensures b.nextSeq == k + 1 && b.targetSeq == old(b.targetSeq) && b.frameLen == old(b.frameLen)
    ensures b.missing == old(if b.nextSeq != 0 && k == b.nextSeq + 1 then b.missing[b.nextSeq := 1] else b.missing)
    ensures b.wrote == NextWrote(old(b.wrote), Plain(k, ts), Video)
    ensures b.completeFrames == old(b.completeFrames) + if b.Ends(old(b.wrote), Plain(k, ts)) then 1 else 0
    ensures b.Stored() == old(b.Stored())[k := Plain(k, ts)]
    ensures b.unique == (old(b.unique) && k !in old(b.Stored()))
  {
    hide *;
    var p := Plain(k, ts);
    PlainIs(b, k, ts);
    OpenIs(b);
    StoredIs(b);
    PlainPut(b, p);
    ghost var held := b.Held();
    ghost var into := b.PutPacket(p);
    AddsCount(held, b.Held(), into, p);
    OpenIs(b);
    StoredIs(b);
  }

  function Plain(k: U16, ts: U32): Packet { Packet(2, false, k, ts, []) }

  lemma PlainIs(b: JitterBuffer, k: U16, ts: U32)
    ensures Plain(k, ts) == Packet(2, false, k, ts, []) && Restored(Plain(k, ts)) == Plain(k, ts)
    ensures forall t, w :: Missed(t, b.Uncounted(w, Plain(k, ts))) == t
  {
  }

  lemma OpenIs(b: JitterBuffer)
    ensures Open(b) <==>
      && b.Valid() && b.kind == Video && !b.queueOnly && b.minFrameLen == 1 && b.maxFrameLen == 10
      && b.highestDroppedTs == 0 && b.tally.missed == 0 && |b.Held()| < 20
    ensures b.kind.Video? <==> b.kind == Video
  {
  }

  lemma StoredIs(b: JitterBuffer)
    requires b.Valid()
    ensures (forall k :: k in b.nodeHash ==> b.nodeHash[k] in b.nodes) && b.Stored().Keys == b.nodeHash.Keys
  {
    hide *;
    b.Parts();
    b.CoreIs();
    b.Storable();
  }

  lemma Started(b: JitterBuffer)
    requires b.Valid() && b.nodes == [] && b.kind == Video && !b.queueOnly && b.minFrameLen == 1 && b.maxFrameLen == 10
    requires b.highestDroppedTs == 0 && b.tally == NO_TALLY && b.nextSeq == 0 && b.missing == map[] && b.wrote == UNSET
    ensures Open(b) && Follows(b, 104, 1) && |b.Held()| == 0
  {
    assert b.Held() == map[];
  }

  lemma WroteFirst(b: JitterBuffer)
    requires b.wrote == NextWrote(UNSET, Plain(104, 1), Video)
    requires b.nextSeq == 105 && b.missing == map[] && b.kind == Video
    ensures Follows(b, 105, 2) && b.Ends(b.wrote, Plain(105, 2)) && !b.Ends(UNSET, Plain(104, 1))
    ensures NextWrote(b.wrote, Plain(105, 2), Video) == Highest(true, 105, 2)
  {
  }

  /** With one frame complete there is enough to read, and 104 is the lowest number. */
  lemma Readable(b: JitterBuffer)
    requires b.Valid() && b.unique && b.completeFrames == 1 && b.frameLen == 1 && b.targetSeq == 0
    requires b.nodeHash.Keys == {104, 105} && forall k :: k in b.nodeHash ==> b.nodeHash[k] in b.nodes
    ensures b.Reads() && b.Starts() && 0 !in b.nodeHash
    ensures forall n :: n in b.Visible() ==> n.packet.seqNo == 104 || n.packet.seqNo == 105
    ensures b.nodeHash[104] in b.Visible() && b.nodeHash[104].packet.seqNo == 104
  {
    forall n | n in b.Visible() ensures n.packet.seqNo in b.nodeHash { }
  }

  lemma FirstOf(node: Node?, vis: set<Node>, index: map<U16, Node>)
    requires JitterBuffer.Lowest(node, vis, index)
    requires 104 in index && index[104] in vis && index[104].packet.seqNo == 104
    requires 0 !in index && forall n :: n in vis ==> n.packet.seqNo == 104 || n.packet.seqNo == 105
    ensures node != null && node.packet.seqNo == 104
  {
  }

  lemma TakesCount(h: map<Node, Packet>, h': map<Node, Packet>, played: Node?)
    requires Takes(h, h', played)
    ensures |h'| <= |h|
  {
    SubsetCount(h'.Keys, h.Keys);
  }

  /** A buffer with one complete frame: 104 and 105. */
  method TwoPut() returns (b: JitterBuffer)
    ensures Open(b) && fresh(b) && fresh(set n | n in b.nodes) && |b.Held()| <= 2 && b.unique
    ensures b.Stored().Keys == {104, 105} && b.completeFrames == 1 && b.frameLen == 1 && b.targetSeq == 0
    ensures b.nextSeq == 106 && b.missing == map[] && b.wrote == Highest(true, 105, 2)
  {
    hide *;
    b := new JitterBuffer(Video, false, 1, 10);
    Started(b);
    PutNext(b, 104, 1);
    WroteFirst(b);
    PutNext(b, 105, 2);
  }

  /** A buffer that has been read from: its next target is 105. */
  method StartPlaying() returns (b: JitterBuffer)
    ensures Open(b) && fresh(b) && fresh(set n | n in b.nodes) && |b.Held()| <= 2
    ensures b.targetSeq == 105 && b.nextSeq == 106 && b.missing == map[] && b.wrote == Highest(true, 105, 2)
  {
    hide *;
    b := TwoPut();
    OpenIs(b);
    StoredIs(b);
    Readable(b);
    ghost var held, vis, index, readTs := b.Held(), b.Visible(), b.nodeHash, b.read.ts;
    b.HeldIs();
    var status, packet, played := b.GetPacket(Plain(0, 0));
    b.ChosenIs(played, vis, index, 0, true, readTs);
    FirstOf(played, vis, index);
    JitterBuffer.SameNumber(played.packet);
    TakesCount(held, b.Held(), played);
    OpenIs(b);
  }

  lemma PopIs(m: Pending, m': Pending, least: U16, r: Readings, now: int, target: U16, frameLen: U32, word: nat)
    requires Pops(m, m', r, target, frameLen, word) && least in m && least != 0 && Due(m, least, now)
    requires forall k :: r.seen.Of(k) == now == r.stamped.Of(k)
    requires forall k :: k in m ==> target <= k + frameLen <= target + 1000 && (Due(m, k, now) ==> least <= k)
    requires frameLen <= 10 < target
    ensures word == Word(m.Keys, least) && word != 0 && m' == Stamped(m, Asked(word), r.stamped)
  {
    hide Word, Asked, Pid;
    assert Live(m, r.seen, target, frameLen) == m;
    NonZeroWord(m.Keys, least);
  }

  /** Before a gap of one: the next number is k - 1. */
  lemma AfterGap(b: JitterBuffer, k: U16)
    requires 100 < k < 200 && b.wrote == Highest(true, k - 2, 2) && b.nextSeq == k - 1 && k !in b.missing
    ensures Follows(b, k, 2) && NextWrote(b.wrote, Plain(k, 2), Video) == Highest(true, k, 2)
  {
  }

  lemma AllNow(r: Readings, clock: nat -> int, next: nat, now: int)
    requires Taken(r.seen, clock, 0, next) && Taken(r.stamped, clock, 0, next) && forall i :: clock(i) == now
    ensures forall k :: r.seen.Of(k) == now == r.stamped.Of(k)
  {
  }

  lemma DueIs(m: Pending, now: int)
    ensures forall k :: k in m ==> (Due(m, k, now) <==> m[k] == 1 || (now - m[k]) % 0x1_0000_0000 >= 100000)
  {
  }

  /** What a word that starts at least asks for, among few numbers. */
  lemma AskedOf(keys: set<U16>, least: U16)
    requires least in keys && least < 1000
    ensures forall k :: k in Asked(Word(keys, least)) <==> k in keys && least <= k <= least + 16
  {
    hide Asked, Word;
    WordRoundTrip(keys, least);
    forall k: U16 ensures k in Asked(Word(keys, least)) <==> k in keys && least <= k <= least + 16 {
      RequestsRange(keys, least, k);
    }
  }

  lemma StampedIs(m: Pending, asked: set<U16>, stamped: Times, now: int)
    requires forall k :: stamped.Of(k) == now
    ensures Stamped(m, asked, stamped).Keys == m.Keys
    ensures forall k :: k in m ==> Stamped(m, asked, stamped)[k] == if k in asked then now else m[k]
  {
  }

  /** Pop a word, which starts at least and asks for all that is missing after it. */
  method PopOne(b: JitterBuffer, least: U16, now: int) returns (word: nat)
    requires Open(b) && b.targetSeq == 105 && 0 < least < 1000 && least in b.missing && Due(b.missing, least, now)
    requires forall k :: k in b.missing ==> 106 <= k <= 120 && (Due(b.missing, k, now) ==> least <= k)
    modifies b`missing, b`past
    ensures Open(b) && word != 0 && b.missing.Keys == old(b.missing.Keys) && b.Held() == old(b.Held())
    ensures forall k :: k in Asked(word) <==> k in b.missing && least <= k
    ensures forall k :: k in b.missing ==> b.missing[k] == if least <= k then now else old(b.missing)[k]
  {
    hide *;
    OpenIs(b);
    LenBound(b);
    var clock := (_: nat) => now;
    var next;
    ghost var r;
    word, next, r := b.PopNack(clock, 0);
    AllNow(r, clock, next, now);
    OpenIs(b);
    PopIs(old(b.missing), b.missing, least, r, now, b.targetSeq, b.frameLen, word);
    AskedOf(old(b.missing.Keys), least);
    StampedIs(old(b.missing), Asked(word), r.stamped, now);
  }

  /** Then 106 is found missing and asked for at 100002, and 108 found missing. */
  method TwoMissing() returns (b: JitterBuffer)
    ensures Open(b) && fresh(b) && fresh(set n | n in b.nodes) && b.targetSeq == 105
    ensures b.missing == map[106 := 100002, 108 := 1]
  {
    hide *;
    b := StartPlaying();
    AfterGap(b, 107);
    PutNext(b, 107, 2);
    DueIs(b.missing, 100002);
    var first := PopOne(b, 106, 100002);
    AfterGap(b, 109);
    PutNext(b, 109, 2);
  }

  /** Puts and pops through which two words, popped 10 microseconds apart, both ask for
      number 108: 106, requested before, comes due in between. */
  method OverlapInBuffer() returns (b: JitterBuffer, word: nat, word': nat)
    ensures b.Valid() && 108 in Asked(word) && 108 in Asked(word') && word != 0 && word' != 0
  {
    hide *;
    b := TwoMissing();
    DueIs(b.missing, 200000);
    word := PopOne(b, 108, 200000);
    DueIs(b.missing, 200010);
    word' := PopOne(b, 106, 200010);
    OpenIs(b);
  }

  // ---- a run that counts frames ----

  /** Packets in order, near enough to each other for a buffer with limit max. */
  ghost predicate Near(ps: seq<Packet>, max: nat) {
    && InOrder(ps) && |ps| <= 2 * max
    && forall i :: 0 < i < |ps| ==>
         && ps[i].seqNo - ps[i - 1].seqNo < 100 && ps[i].seqNo - ps[i - 1].seqNo - 1 <= Max(max, 17)
         && ps[i].ts - ps[i - 1].ts <= 4500000
  }

  /** A video buffer from which nothing has been read since it was empty; packets came in
      of which last was the last. */
  ghost predicate Filling(b: JitterBuffer, k: nat, w: Highest, frames: nat)
    reads b, b.nodes
  {
    && b.Valid() && b.kind.Video? && b.highestDroppedTs == 0 && b.wrote == w && b.completeFrames == frames
    && |b.Held()| <= k && (if w.init then b.nextSeq == (w.seqNo + 1) % 0x1_0000 else b.nextSeq == 0)
  }

  /** What comes next is stored: nothing is full and nothing jumps. */
  lemma NextIsStored(b: JitterBuffer, p: Packet, k: nat, w: Highest, frames: nat)
    requires Filling(b, k, w, frames) && k < 2 * b.maxFrameLen
    requires w.init ==>
               && 0 < p.seqNo - w.seqNo < 100 && p.seqNo - w.seqNo - 1 <= Max(b.maxFrameLen, 17)
               && 0 <= p.ts - w.ts <= 4500000
    ensures !b.Ignores(p) && !b.Empties(p) && !b.GapReset(p) && b.NextOnce(p.seqNo) == (p.seqNo + 1) % 0x1_0000
  {
    FillingIs(b, k, w, frames);
    HeldCount(b);
    NotFullYet(b, k);
    hide JitterBuffer.Valid, Filling, JitterBuffer.Held, JitterBuffer.PoolFull;
  }

  lemma NotFullYet(b: JitterBuffer, k: nat)
    requires b.visibleNodes <= k < 2 * b.maxFrameLen
    ensures !b.PoolFull()
  {
    MulAtLeast(b.maxFrameLen, 2, b.Mult());
  }

  lemma FillingIs(b: JitterBuffer, k: nat, w: Highest, frames: nat)
    ensures Filling(b, k, w, frames) <==>
      && b.Valid() && b.kind == Video && b.highestDroppedTs == 0 && b.wrote == w && b.completeFrames == frames
      && |b.Held()| <= k && (if w.init then b.nextSeq == (w.seqNo + 1) % 0x1_0000 else b.nextSeq == 0)
    ensures b.kind.Video? <==> b.kind == Video
  {
  }

  lemma NothingWritten(ps: seq<Packet>)
    ensures ps[..0] == [] && WroteRun([]) == (UNSET, 0)
  {
  }

  /** What was written before packet i, and what is written with it. */
  lemma WroteSoFar(ps: seq<Packet>, i: nat, max: nat)
    requires Near(ps, max) && i < |ps|
    ensures
      var (w, frames) := WroteRun(ps[..i]);
      && w == (if i == 0 then UNSET else Highest(true, ps[i - 1].seqNo, ps[i - 1].ts))
      && WroteRun(ps[..i + 1]) ==
         (NextWrote(w, ps[i], Video), frames + if EndsFrame(w, NextWrote(w, ps[i], Video).seqNo, ps[i]) then 1 else 0)
    ensures i > 0 ==>
              && 0 < ps[i].seqNo - ps[i - 1].seqNo < 100 && ps[i].seqNo - ps[i - 1].seqNo - 1 <= Max(max, 17)
              && 0 <= ps[i].ts - ps[i - 1].ts <= 4500000
  {
    hide *;
    NearAt(ps, i, max);
    var before, now := ps[..i], ps[..i + 1];
    assert now[..i] == before && now[i] == ps[i];
    assert i > 0 ==> before[i - 1] == ps[i - 1];
    FramesAreRises(before);
    RunStep(before);
    RunStep(now);
  }

  lemma NearAt(ps: seq<Packet>, i: nat, max: nat)
    requires Near(ps, max) && i < |ps|
    ensures InOrder(ps[..i])
    ensures i > 0 ==>
              && 0 < ps[i].seqNo - ps[i - 1].seqNo < 100 && ps[i].seqNo - ps[i - 1].seqNo - 1 <= Max(max, 17)
              && 0 <= ps[i].ts - ps[i - 1].ts <= 4500000
  {
    hide Max;
    assert forall p :: p in ps[..i] ==> p in ps;
  }

  lemma AllWritten(ps: seq<Packet>)
    requires InOrder(ps)
    ensures ps[..|ps|] == ps && WroteRun(ps).1 == Rises(ps)
    ensures ps != [] ==> WroteRun(ps).0 == Highest(true, ps[|ps| - 1].seqNo, ps[|ps| - 1].ts)
  {
    FramesAreRises(ps);
  }

  lemma NearIs(ps: seq<Packet>, max: nat)
    requires Near(ps, max)
    ensures InOrder(ps) && |ps| <= 2 * max
  {
  }

  lemma WrittenIs(b: JitterBuffer, w: Highest, p: Packet)
    requires b.kind == Video
    ensures b.Ends(w, p) <==> EndsFrame(w, NextWrote(w, p, Video).seqNo, p)
    ensures NextWrote(w, p, Video).init
    ensures (w == UNSET || (w.init && w.seqNo < p.seqNo)) ==> NextWrote(w, p, Video).seqNo == p.seqNo
  {
  }

  method PutOne(b: JitterBuffer, p: Packet, ghost ps: seq<Packet>, ghost i: nat)
    requires Near(ps, b.maxFrameLen) && i < |ps| && p == ps[i]
    requires Filling(b, i, WroteRun(ps[..i]).0, WroteRun(ps[..i]).1)
    modifies b, b.nodes
    ensures Filling(b, i + 1, WroteRun(ps[..i + 1]).0, WroteRun(ps[..i + 1]).1)
    ensures fresh(set n | n in b.nodes && n !in old(b.nodes))
  {
    hide *;
    ghost var (w, frames) := WroteRun(ps[..i]);
    NearIs(ps, b.maxFrameLen);
    WroteSoFar(ps, i, b.maxFrameLen);
    FillingIs(b, i, w, frames);
    JumpStart(p);
    NextIsStored(b, p, i, w, frames);
    WrittenIs(b, w, p);
    ghost var held := b.Held();
    ghost var into := b.PutPacket(p);
    AddsCount(held, b.Held(), into, p);
    FillingIs(b, i + 1, WroteRun(ps[..i + 1]).0, WroteRun(ps[..i + 1]).1);
  }

  lemma JumpStart(p: Packet)
    ensures UNSET == Highest(false, 0, 0)
  {
  }

  /** Put packets in order into an empty video buffer: as many frames are complete as the
      timestamp rose times. */
  method PutInOrder(b: JitterBuffer, ps: seq<Packet>)
    requires Filling(b, 0, UNSET, 0) && Near(ps, b.maxFrameLen)
    modifies b, b.nodes
    ensures b.Valid() && fresh(set n | n in b.nodes && n !in old(b.nodes)) && b.completeFrames == Rises(ps)
    ensures ps != [] ==> b.wrote == Highest(true, ps[|ps| - 1].seqNo, ps[|ps| - 1].ts)
  {
    hide *;
    NothingWritten(ps);
    NearIs(ps, b.maxFrameLen);
    var i := 0;
    while i < |ps|
      invariant 0 <= i <= |ps|
      invariant Filling(b, i, WroteRun(ps[..i]).0, WroteRun(ps[..i]).1)
      invariant forall j :: 0 <= j < |b.nodes| ==> b.nodes[j] in old(b.nodes) || fresh(b.nodes[j])
    {
      ghost var before := b.nodes;
      PutOne(b, ps[i], ps, i);
      forall j | 0 <= j < |b.nodes| ensures b.nodes[j] in old(b.nodes) || fresh(b.nodes[j]) {
        if b.nodes[j] in before {
          var x :| 0 <= x < |before| && before[x] == b.nodes[j];
        }
      }
      i := i + 1;
    }
    AllWritten(ps);
    FillingIs(b, |ps|, WroteRun(ps).0, WroteRun(ps).1);
  }
}
