/** The jitter buffer in sequence mode: a pool of packet nodes on one doubly
    linked list, indexed by sequence number, with playout and loss tracking. */
module JitterBuffers {
  import opened Basics
  import opened JitterNodes
  import opened JitterSort
  import opened StableMerge
  import opened MissingTracker
  import opened SendLog
  import opened Playout
  import opened NackWords
  import opened NackBatch

  datatype Kind = Video | Audio | Text

  datatype Status = Success | Break | MoreData | NotFound | Restart | Timeout

  /** The highest number and timestamp on one side of the buffer, once init. */
  datatype Highest = Highest(init: bool, seqNo: U16, ts: U32)

  const UNSET := Highest(false, 0, 0)

  /** Hits and misses of the current period of reads. */
  datatype Period = Period(count: nat, good: nat, miss: nat, missInc: nat, consecGood: nat, consecMiss: nat)

  const PERIOD_LEN := 250

  const NEW_PERIOD := Period(0, 0, 0, 0, 0, 0)

  /** Packets taken in, handed out, dropped as late frames, thrown away by resets. */
  datatype Ledger = Ledger(accepted: nat, delivered: nat, frameDrops: nat, discarded: nat)

  /** What happened since the last reset: the numbers received, the packets
      stored, whether a missing number was given up as too old, and the playout
      since the target was last unset; tapped once a retransmission buffer has been
      read from. */
  datatype History = History(gots: seq<U16>, log: seq<Packet>, expired: bool, slots: seq<Slot>, tapped: bool)

  /** Where the frame counter goes astray, since the last reset: packets put with the
      internal mark already on that ended no frame, and marked packets taken out whose
      number was not in the index any more. */
  datatype Tally = Tally(missed: nat, stale: nat)

  const NO_TALLY := Tally(0, 0)

  function Missed(t: Tally, n: nat): Tally { t.(missed := t.missed + n) }

  const NO_HISTORY := History([], [], false, [], false)

  function Abs(x: int): nat { if x < 0 then -x else x }

  /** The value of x as a 32-bit signed integer. */
  function Int32(x: int): int { (x + 0x8000_0000) % 0x1_0000_0000 - 0x8000_0000 }

  function SeqDiff(wrote: U16, got: U16): int {
    if wrote > 0xFFFF - 100 && got < 100 then 0xFFFF - wrote + got else Abs(got - wrote)
  }

  /** Near the wrap of the timestamp the source's expression is UINT_MAX, -1 as an int. */
  function TsDiff(wrote: U32, got: U32): int {
    if wrote > 0xFFFF_FFFF - 1000 && got < 1000 then Int32(0xFFFF_FFFF - got + got) else Abs(Int32(got - wrote))
  }

  predicate CheckSeq(a: U16, b: U16) { a >= b || (b > a && b > 0xFFFF / 2 && a < 0xFFFF / 2) }

  predicate CheckTs(a: U32, b: U32) { a > b || (b > a && b > 0xFFFF_FFFF / 2 && a < 0xFFFF_FFFF / 2) }

  /** What counts as written last after p: the frame mark goes to a packet newer
      in both number and timestamp. */
  function NextWrote(w: Highest, p: Packet, kind: Kind): Highest {
    var seqNo := if !w.init || p.seqNo > w.seqNo || (w.seqNo > 0xFFFF - 100 && p.seqNo < 100) then p.seqNo else w.seqNo;
    Highest(true, seqNo, if kind.Video? && (!w.init || EndsFrame(w, seqNo, p)) then p.ts else w.ts)
  }

  /** What counts as read last after p, likewise; audio and text go by the packet. */
  function NextRead(r: Highest, p: Packet, kind: Kind): Highest {
    var seqNo := if !r.init || CheckSeq(p.seqNo, r.seqNo) then p.seqNo else r.seqNo;
    Highest(true, seqNo,
            if !kind.Video? || !r.init || (CheckSeq(p.seqNo, seqNo) && CheckTs(p.ts, r.ts)) then p.ts else r.ts)
  }

  ghost function ReadRun(ps: seq<Packet>, kind: Kind): Highest {
    if ps == [] then UNSET else NextRead(ReadRun(ps[..|ps| - 1], kind), ps[|ps| - 1], kind)
  }

  /** r keeps the highest number read, and the timestamp of the last packet read, or for
      video that of some packet read. */
  ghost predicate IsHighest(r: Highest, ps: seq<Packet>, kind: Kind) {
    && ps != [] && r.init && (forall p :: p in ps ==> p.seqNo <= r.seqNo) && (exists p :: p in ps && p.seqNo == r.seqNo)
    && (exists p :: p in ps && p.ts == r.ts) && (!kind.Video? ==> r.ts == ps[|ps| - 1].ts)
  }

  lemma HighestStep(r: Highest, ps: seq<Packet>, p: Packet, kind: Kind)
    requires IsHighest(r, ps, kind) && (r.seqNo <= 0x7FFF || p.seqNo >= 0x7FFF)
    ensures IsHighest(NextRead(r, p, kind), ps + [p], kind)
  {
    var all, r' := ps + [p], NextRead(r, p, kind);
    assert p in all && forall q :: q in all <==> q in ps || q == p;
    assert r'.seqNo == Max(r.seqNo, p.seqNo);
    var q :| q in ps && q.seqNo == r.seqNo;
    assert q in all;
    var t :| t in ps && t.ts == r.ts;
    assert t in all;
  }

  /** As long as the numbers read stay in one half of their range, the number kept is
      the highest one read. */
  lemma {:induction false} HighestRead(ps: seq<Packet>, kind: Kind)
    requires ps != []
    requires (forall p :: p in ps ==> p.seqNo <= 0x7FFF) || forall p :: p in ps ==> p.seqNo >= 0x7FFF
    ensures IsHighest(ReadRun(ps, kind), ps, kind)
  {
    hide *;
    var before, p := ps[..|ps| - 1], ps[|ps| - 1];
    assert ps == before + [p];
    ReadRunStep(ps, kind);
    if before == [] {
      assert ps == [p];
      HighestFirst(p, kind);
    } else {
      assert forall q :: q in before ==> q in ps;
      HighestRead(before, kind);
      HighestIsOne(ReadRun(before, kind), before, kind);
      HighestStep(ReadRun(before, kind), before, p, kind);
    }
  }

  lemma ReadRunStep(ps: seq<Packet>, kind: Kind)
    requires ps != []
    ensures ReadRun(ps, kind) == NextRead(ReadRun(ps[..|ps| - 1], kind), ps[|ps| - 1], kind)
    ensures ReadRun([], kind) == UNSET
  {
  }

  lemma HighestFirst(p: Packet, kind: Kind)
    ensures IsHighest(NextRead(UNSET, p, kind), [p], kind)
  {
    assert p in [p];
  }

  lemma HighestIsOne(r: Highest, ps: seq<Packet>, kind: Kind)
    requires IsHighest(r, ps, kind)
    ensures exists p :: p in ps && p.seqNo == r.seqNo
  {
  }

  /** The lag and the flush flag of a text buffer after a poll. */
  function Polled(kind: Kind, short: bool, some: bool, lag: nat, flush: bool): (nat, bool) {
    if !kind.Text? || !short then (lag, flush)
    else
      var started := if some && lag == 0 then 10 else lag;
      if started == 0 then (0, flush) else (started - 1, flush || started == 1)
  }

  /** The same after n polls of a text buffer that holds something but stays short. */
  function PolledTimes(n: nat, lag: nat, flush: bool): (nat, bool) {
    if n == 0 then (lag, flush)
    else
      var (lag', flush') := PolledTimes(n - 1, lag, flush);
      Polled(Text, true, true, lag', flush')
  }

  /** The tenth poll flushes, and none before it. */
  lemma {:induction false} TenthPollFlushes(n: nat)
    requires 1 <= n <= 10
    ensures PolledTimes(n, 0, false) == (10 - n, n == 10)
  {
    if n > 1 { TenthPollFlushes(n - 1); }
  }

  /** The counters of a period after one more read. */
  function CountedRead(p: Period): Period {
    if p.count + 1 >= PERIOD_LEN then NEW_PERIOD.(count := 1) else p.(count := p.count + 1)
  }

  /** The pending numbers once got has arrived where want was expected: it is pending no
      more, and those skipped have never been requested. */
  ghost function Noted(m: Pending, want: U16, got: U16): Pending {
    map k | k in (m.Keys - {got}) + Span(want, got) :: if want <= k < got then 1 else m[k]
  }

  lemma NotedKeys(m: Pending, next: U16, got: U16, maxFrameLen: nat)
    requires !GapTooBig(next, got, maxFrameLen)
    ensures
      PutTrack(Track(next, m.Keys), got, maxFrameLen) ==
      Track(NextAfter(next, got), Noted(m, Want(next, got), got).Keys)
  {
  }

  predicate EndsFrame(w: Highest, highest: U16, p: Packet) {
    w.init && CheckSeq(p.seqNo, highest) && CheckTs(p.ts, w.ts)
  }

  /** A packet ends a frame exactly if its number is not behind the highest one written and
      its timestamp is ahead of the one that was marked last, or one of them has wrapped. */
  lemma EndsIff(w: Highest, p: Packet)
    requires w.init
    ensures EndsFrame(w, NextWrote(w, p, Video).seqNo, p) <==>
      && (p.seqNo >= w.seqNo || p.seqNo < 0x7FFF < w.seqNo)
      && (p.ts > w.ts || p.ts < 0x7FFF_FFFF < w.ts)
  {
  }

  /** What was written last, after packets put one after the other, and how many of them
      ended a frame. */
  ghost function WroteRun(ps: seq<Packet>): (Highest, nat) {
    if ps == [] then (UNSET, 0)
    else
      var (w, frames) := WroteRun(ps[..|ps| - 1]);
      var p := ps[|ps| - 1];
      var w' := NextWrote(w, p, Video);
      (w', frames + if EndsFrame(w, w'.seqNo, p) then 1 else 0)
  }

  /** Numbers rise, and timestamps do not fall and stay in one half of their range. */
  ghost predicate InOrder(ps: seq<Packet>) {
    && (forall i :: 0 < i < |ps| ==> ps[i - 1].seqNo < ps[i].seqNo && ps[i - 1].ts <= ps[i].ts)
    && ((forall p :: p in ps ==> p.ts <= 0x7FFF_FFFF) || forall p :: p in ps ==> p.ts > 0x7FFF_FFFF)
  }

  /** How often the timestamp rises. */
  ghost function Rises(ps: seq<Packet>): nat {
    if |ps| < 2 then 0
    else Rises(ps[..|ps| - 1]) + if ps[|ps| - 1].ts > ps[|ps| - 2].ts then 1 else 0
  }

  lemma OrderedEnds(w: Highest, p: Packet)
    ensures w == UNSET ==>
              NextWrote(w, p, Video) == Highest(true, p.seqNo, p.ts) && !EndsFrame(w, NextWrote(w, p, Video).seqNo, p)
    ensures w.init && w.seqNo < p.seqNo && w.ts <= p.ts && (p.ts <= 0x7FFF_FFFF || w.ts > 0x7FFF_FFFF) ==>
              && NextWrote(w, p, Video) == Highest(true, p.seqNo, p.ts)
              && (EndsFrame(w, NextWrote(w, p, Video).seqNo, p) <==> p.ts > w.ts)
  {
    if w.init { EndsIff(w, p); }
  }

  lemma OrderKept(ps: seq<Packet>)
    requires InOrder(ps) && ps != []
    ensures InOrder(ps[..|ps| - 1])
    ensures |ps| > 1 ==>
              var p, q := ps[|ps| - 2], ps[|ps| - 1];
              p.seqNo < q.seqNo && p.ts <= q.ts && (q.ts <= 0x7FFF_FFFF || p.ts > 0x7FFF_FFFF)
  {
    var before := ps[..|ps| - 1];
    assert forall q :: q in before ==> q in ps;
    if |ps| > 1 { assert ps[|ps| - 2] in ps && ps[|ps| - 1] in ps; }
  }

  lemma RunStep(ps: seq<Packet>)
    ensures WroteRun([]) == (UNSET, 0) && Rises([]) == 0
    ensures ps != [] ==>
              var (w, frames) := WroteRun(ps[..|ps| - 1]);
              var p := ps[|ps| - 1];
              var w' := NextWrote(w, p, Video);
              && WroteRun(ps) == (w', frames + if EndsFrame(w, w'.seqNo, p) then 1 else 0)
              && Rises(ps) == Rises(ps[..|ps| - 1]) + if |ps| > 1 && p.ts > ps[|ps| - 2].ts then 1 else 0
  {
    hide EndsFrame, NextWrote;
  }

  /** Of packets put in order those end a frame at which the timestamp rises. */
  lemma {:induction false} FramesAreRises(ps: seq<Packet>)
    requires InOrder(ps)
    ensures WroteRun(ps).1 == Rises(ps)
    ensures ps != [] ==> WroteRun(ps).0 == Highest(true, ps[|ps| - 1].seqNo, ps[|ps| - 1].ts)
  {
    hide *;
    RunStep(ps);
    if ps != [] {
      var before := ps[..|ps| - 1];
      OrderKept(ps);
      FramesAreRises(before);
      RunStep(before);
      OrderedEnds(WroteRun(before).0, ps[|ps| - 1]);
      assert |ps| > 1 ==> before[|before| - 1] == ps[|ps| - 2];
    }
  }

  /** The playout length after asking for i frames more, in 32-bit arithmetic. */
  function FrameIncLen(frameLen: U32, i: int, minLen: U32, maxLen: U32): U32 {
    var moved := (frameLen + i) % 0x1_0000_0000;
    if i == 0 then minLen
    else if i > 0 then (if moved < maxLen then moved else maxLen)
    else (if moved > minLen then moved else minLen)
  }

  /** A step by one frame keeps a length within its limits, unless it wraps: down from
      zero, or up from the greatest length there is. */
  lemma StepStaysIff(len: U32, i: int, minLen: U32, maxLen: U32)
    requires minLen <= len <= maxLen && (i == 1 || i == -1)
    ensures
      minLen <= FrameIncLen(len, i, minLen, maxLen) <= maxLen <==>
      !(i == -1 && len == 0 && maxLen < 0xFFFF_FFFF) && !(i == 1 && len == 0xFFFF_FFFF && minLen > 0)
  {
  }

  /** Short of the ends of the 32-bit range the playout length moves by one frame, as far as
      its limits allow; a step of no frames puts it back to the least. */
  lemma FrameIncIs(len: U32, minLen: U32, maxLen: U32)
    ensures len < 0xFFFF_FFFF ==> FrameIncLen(len, 1, minLen, maxLen) == Min(len + 1, maxLen)
    ensures len > 0 ==> FrameIncLen(len, -1, minLen, maxLen) == Max(len - 1, minLen)
    ensures FrameIncLen(len, 0, minLen, maxLen) == minLen
  {
  }

  /** What is stored is what the log says, or, if tapped, part of it. */
  ghost predicate Within(stored: map<U16, Packet>, log: seq<Packet>, tapped: bool) {
    && (forall k :: k in stored ==> k in Latest(log) && stored[k] == Latest(log)[k])
    && (!tapped ==> stored.Keys == Latest(log).Keys)
  }

  lemma WithinIsLatest(stored: map<U16, Packet>, log: seq<Packet>)
    requires Within(stored, log, false)
    ensures stored == Latest(log)
  {
  }

  lemma WithinPut(stored: map<U16, Packet>, log: seq<Packet>, tapped: bool, p: Packet)
    requires Within(stored, log, tapped)
    ensures Within(stored[p.seqNo := Restored(p)], log + [p], tapped)
  {
    assert (log + [p])[..|log|] == log;
  }

  lemma WithinTapped(stored: map<U16, Packet>, log: seq<Packet>, tapped: bool)
    requires Within(stored, log, tapped)
    ensures Within(stored, log, true)
  {
  }

  lemma WithinTaken(stored: map<U16, Packet>, log: seq<Packet>, left: map<U16, Packet>)
    requires Within(stored, log, true) && forall k :: k in left ==> k in stored && left[k] == stored[k]
    ensures Within(left, log, true)
  {
    hide Latest;
  }

  /** What is held by which node, before and after p was put into one: nothing else was
      added or changed. */
  ghost predicate Adds(held: map<Node, Packet>, held': map<Node, Packet>, into: Node?, p: Packet) {
    forall n :: n in held' ==> if n == into then held'[n] == Restored(p) else n in held && held'[n] == held[n]
  }

  /** The same before and after the packet of a node was handed out, if there is one. */
  ghost predicate Takes(held: map<Node, Packet>, held': map<Node, Packet>, played: Node?) {
    forall n :: n in held' ==> n != played && n in held && held'[n] == held[n]
  }

  class JitterBuffer {
    const kind: Kind
    const queueOnly: bool

    var nodeList: Node?
    var visibleNodes: nat
    var allocatedNodes: nat
    var completeFrames: int
    var nodeHash: map<U16, Node>
    var missing: Pending

    const minFrameLen: U32
    const maxFrameLen: U32
    var frameLen: U32
    var highestFrameLen: U32
    var maxPacketLen: nat
    var packetCount: nat

    var targetSeq: U16
    var lastTargetSeq: U16
    var nextSeq: U16
    var wrote: Highest
    var read: Highest
    var highestDroppedTs: U32
    var dropped: nat
    var period: Period
    var bufferLag: nat
    var flush: bool

    /** The list, front to back. */
    ghost var nodes: seq<Node>
    /** No number was put while it was already buffered, since the last reset. */
    ghost var unique: bool
    ghost var tally: Tally
    ghost var ledger: Ledger
    ghost var past: History

    ghost function Visible(): set<Node>
      reads this`nodes, nodes`visible
    {
      set n | n in nodes && n.visible
    }

    /** The packets buffered, as they would be handed out. */
    ghost function Held(): map<Node, Packet>
      reads this`nodes, nodes`visible, nodes`packet
    {
      map n | n in nodes && n.visible :: Restored(n.packet)
    }

    /** Visible nodes carrying the internal end-of-frame mark. */
    ghost function Marked(): set<Node>
      reads this`nodes, nodes`visible, nodes`packet
    {
      set n | n in nodes && n.visible && n.packet.version == 1
    }

    /** The list is well formed, the counters count it, the index points into it. */
    ghost predicate Shape()
      reads this`nodes, this`nodeList, this`allocatedNodes, this`visibleNodes, this`nodeHash
      reads nodes`next, nodes`prev, nodes`visible, nodes`packet
    {
      && DoublyLinked(nodeList, nodes)
      && allocatedNodes == |nodes|
      && visibleNodes == |Visible()|
      && IndexOk()
    }

    ghost predicate IndexOk()
      reads this`nodes, this`nodeHash, nodes`visible, nodes`packet
    {
      forall k :: k in nodeHash ==> nodeHash[k] in nodes && nodeHash[k].visible && nodeHash[k].packet.seqNo == k
    }

    /** Every visible node is the indexed one for its number. */
    ghost predicate FullyIndexed()
      reads this`nodes, this`nodeHash, nodes`visible, nodes`packet
    {
      forall n :: n in nodes && n.visible ==> n.packet.seqNo in nodeHash && nodeHash[n.packet.seqNo] == n
    }

    lemma Neighbours(i: nat)
      requires DoublyLinked(nodeList, nodes) && i < |nodes|
      ensures nodes[i].prev == (if i == 0 then null else nodes[i - 1])
      ensures nodes[i].next == (if i + 1 == |nodes| then null else nodes[i + 1])
      ensures nodes[i] == nodeList <==> i == 0
    {
    }

    lemma DistinctWithout(s: seq<Node>, i: nat)
      requires i < |s| && Distinct(s)
      ensures Distinct(s[..i] + s[i + 1..]) && s[i] !in s[..i] + s[i + 1..]
    {
    }

    method Unlink(node: Node, ghost i: nat)
      requires DoublyLinked(nodeList, nodes)
      requires i < |nodes| && nodes[i] == node
      modifies this`nodeList, this`nodes, nodes`next, nodes`prev
      ensures DoublyLinked(nodeList, nodes)
      ensures nodes == old(nodes)[..i] + old(nodes)[i + 1..] && node !in nodes
    {
      Neighbours(i);
      DistinctWithout(nodes, i);
      if node == nodeList {
        nodeList := node.next;
      } else if node.prev != null {
        node.prev.next := node.next;
      }
      if node.next != null {
        node.next.prev := node.prev;
      }
      nodes := nodes[..i] + nodes[i + 1..];
    }

    method LinkFirst(node: Node)
      requires DoublyLinked(nodeList, nodes) && node !in nodes
      modifies this`nodeList, this`nodes, nodes`prev, node`next, node`prev
      ensures DoublyLinked(nodeList, nodes)
      ensures nodes == [node] + old(nodes)
    {
      node.next := nodeList;
      node.prev := null;
      if node.next != null {
        node.next.prev := node;
      }
      nodeList := node;
      nodes := [node] + nodes;
    }

    method PushToTop(node: Node, ghost i: nat)
      requires DoublyLinked(nodeList, nodes)
      requires i < |nodes| && nodes[i] == node
      modifies this`nodeList, this`nodes, nodes`next, nodes`prev
      ensures DoublyLinked(nodeList, nodes)
      ensures nodes == [node] + (old(nodes)[..i] + old(nodes)[i + 1..])
    {
      hide DoublyLinked;
      Unlink(node, i);
      LinkFirst(node);
    }

    lemma VisibleAfterHide(node: Node, before: set<Node>, marked: set<Node>)
      requires !node.visible && node in nodes
      requires forall n :: n in nodes ==> (n in before <==> n.visible || n == node)
      requires forall n :: n in before ==> n in nodes
      requires forall n :: n in marked <==> n in before && n.packet.version == 1
      ensures Visible() == before - {node} && |Visible()| == |before| - 1
      ensures Marked() == marked - {node}
    {
      assert Visible() == before - {node};
      assert Marked() == marked - {node};
    }

    method MakeInvisible(node: Node, pop: bool)
      requires DoublyLinked(nodeList, nodes) && visibleNodes == |Visible()|
      requires node in nodes && node.visible
      modifies this`visibleNodes, this`nodes, this`nodeList, nodes`visible, nodes`next, nodes`prev
      ensures DoublyLinked(nodeList, nodes) && visibleNodes == |Visible()|
      ensures |nodes| == |old(nodes)| && (!pop ==> nodes == old(nodes))
      ensures forall n :: n in nodes <==> n in old(nodes)
      ensures forall n :: n in nodes ==> n.visible == (old(n.visible) && n != node)
      ensures Visible() == old(Visible()) - {node} && Marked() == old(Marked()) - {node}
    {
      hide DoublyLinked;
      node.visible := false;
      ghost var before, marked := old(Visible()), old(Marked());
      VisibleAfterHide(node, before, marked);
      visibleNodes := visibleNodes - 1;
      if pop {
        ghost var i :| 0 <= i < |nodes| && nodes[i] == node;
        MovedSame(nodes, i);
        PushToTop(node, i);
        assert Visible() == before - {node} && Marked() == marked - {node};
      }
    }

    method Unindex(node: Node)
      requires node in nodes && !node.visible
      requires forall k :: k in nodeHash ==>
        nodeHash[k] in nodes && nodeHash[k].packet.seqNo == k && (nodeHash[k].visible || nodeHash[k] == node)
      modifies this`nodeHash, this`completeFrames
      ensures IndexOk()
      ensures nodeHash == old(nodeHash) - {node.packet.seqNo}
      ensures completeFrames == old(completeFrames) -
        (if kind.Video? && node.packet.seqNo in old(nodeHash) && node.packet.version == 1 then 1 else 0)
    {
      if node.packet.seqNo in nodeHash {
        nodeHash := nodeHash - {node.packet.seqNo};
        if node.packet.version == 1 && kind.Video? {
          completeFrames := completeFrames - 1;
        }
      }
    }

    /** Hide a node, take its number out of the index, and uncount its frame. */
    method HideNode(node: Node, pop: bool)
      requires Shape() && node in nodes
      modifies this`visibleNodes, this`nodeHash, this`completeFrames, this`nodes, this`nodeList
      modifies nodes`visible, nodes`next, nodes`prev
      ensures Shape()
      ensures |nodes| == |old(nodes)| && (!pop ==> nodes == old(nodes))
      ensures forall n :: n in nodes <==> n in old(nodes)
      ensures forall n :: n in nodes ==> n.visible == (old(n.visible) && n != node)
      ensures Visible() == old(Visible()) - {node} && Marked() == old(Marked()) - {node}
      ensures nodeHash == old(nodeHash) - {node.packet.seqNo}
      ensures completeFrames == old(completeFrames) -
        (if kind.Video? && node.packet.seqNo in old(nodeHash) && node.packet.version == 1 then 1 else 0)
    {
      hide DoublyLinked;
      assert nodeHash.Keys == old(nodeHash).Keys;
      if node.visible {
        MakeInvisible(node, pop);
      } else {
        assert node !in Visible() && node !in Marked();
      }
      assert Visible() == old(Visible()) - {node} && Marked() == old(Marked()) - {node};
      Unindex(node);
    }

    lemma MovedSame(s: seq<Node>, i: nat)
      requires i < |s|
      ensures multiset([s[i]] + (s[..i] + s[i + 1..])) == multiset(s)
      ensures forall n :: n in s <==> n in [s[i]] + (s[..i] + s[i + 1..])
    {
      assert s == s[..i] + [s[i]] + s[i + 1..];
      assert forall n :: n in s <==> n in multiset(s);
    }

    method HideNodes()
      requires Shape()
      modifies this`visibleNodes, this`nodeHash, this`completeFrames, this`nodes, this`nodeList
      modifies nodes`visible, nodes`next, nodes`prev
      ensures Shape() && nodes == old(nodes)
      ensures Visible() == {} && nodeHash == map[]
    {
      hide *;
      ShapeLinks();
      var np := nodeList;
      ghost var i := 0;
      StartOfList();
      while np != null
        invariant Shape() && nodes == old(nodes)
        invariant 0 <= i <= |nodes| && np == First(nodes[i..])
        invariant forall j :: 0 <= j < i ==> !nodes[j].visible
        decreases |nodes| - i
      {
        ShapeLinks();
        FirstOf(i);
        HideNode(np, false);
        ShapeLinks();
        NextInList(i);
        np := np.next;
        i := i + 1;
      }
      FirstOf(i);
      NoneVisible();
    }

    lemma ShapeLinks()
      requires Shape()
      ensures DoublyLinked(nodeList, nodes)
    {
    }

    lemma FirstOf(i: nat)
      requires i <= |nodes|
      ensures First(nodes[i..]) == if i == |nodes| then null else nodes[i]
    {
    }

    lemma NoneVisible()
      requires Shape() && forall j :: 0 <= j < |nodes| ==> !nodes[j].visible
      ensures Visible() == {} && nodeHash == map[]
    {
      hide DoublyLinked;
    }

    lemma StartOfList()
      requires DoublyLinked(nodeList, nodes)
      ensures nodeList == First(nodes) && nodes[0..] == nodes
    {
    }

    lemma NextInList(i: nat)
      requires DoublyLinked(nodeList, nodes) && i < |nodes|
      ensures nodes[i].next == First(nodes[i + 1..])
      ensures First(nodes[i..]) == nodes[i]
    {
    }

    /** The frame counter agrees with the list. */
    ghost predicate FramesOk()
      reads this`nodes, this`nodeHash, this`unique, this`tally, this`completeFrames, this`visibleNodes
      reads nodes`visible, nodes`packet
    {
      && (unique ==> FullyIndexed())
      && (unique ==> tally.stale == 0)
      && (if kind.Video? then completeFrames + tally.missed == |Marked()| + tally.stale
          else completeFrames == visibleNodes)
    }

    /** Every packet taken in is accounted for. */
    ghost predicate LedgerOk()
      reads this`ledger, this`visibleNodes
    {
      ledger.accepted == ledger.delivered + ledger.frameDrops + ledger.discarded + visibleNodes
    }

    /** Forget everything buffered. */
    method Reset()
      requires Shape()
      modifies this`visibleNodes, this`nodeHash, this`completeFrames, this`nodes, this`nodeList
      modifies nodes`visible, nodes`next, nodes`prev
      modifies this`missing, this`lastTargetSeq, this`targetSeq, this`nextSeq, this`wrote, this`read, this`period
      modifies this`unique, this`tally, this`past, this`ledger
      ensures Shape() && FramesOk() && nodes == old(nodes)
      ensures Visible() == {} && nodeHash == map[] && missing == (if kind.Video? then map[] else old(missing))
      ensures completeFrames == 0 && targetSeq == 0 && nextSeq == 0
      ensures wrote == UNSET && read == UNSET && period == NEW_PERIOD
      ensures unique && tally == NO_TALLY && past == NO_HISTORY
      ensures visibleNodes == 0
      ensures ledger == old(ledger.(discarded := ledger.discarded + visibleNodes))
    {
      hide *;
      ShapeIs();
      if kind.Video? {
        missing := map[];
      }
      ledger := ledger.(discarded := ledger.discarded + visibleNodes);
      HideNodes();
      ClearState();
      ShapeIs();
      EmptyFrames();
    }

    method ClearState()
      modifies this`completeFrames, this`lastTargetSeq, this`targetSeq, this`nextSeq, this`wrote, this`read, this`period
      modifies this`unique, this`tally, this`past
      ensures completeFrames == 0 && targetSeq == 0 && nextSeq == 0
      ensures wrote == UNSET && read == UNSET && period == NEW_PERIOD == Period(0, 0, 0, 0, 0, 0)
      ensures unique && tally == NO_TALLY && past == NO_HISTORY
    {
      lastTargetSeq, targetSeq, wrote, nextSeq := 0, 0, UNSET, 0;
      read, completeFrames, period := UNSET, 0, NEW_PERIOD;
      unique, tally, past := true, NO_TALLY, NO_HISTORY;
    }

    lemma EmptyFrames()
      requires Visible() == {} && completeFrames == 0 && visibleNodes == |Visible()| && tally == NO_TALLY
      ensures FramesOk()
    {
      assert Marked() <= Visible();
      assert forall n :: n in nodes && n.visible ==> n in Visible();
    }

    /** How many marks leave the list with node that are not uncounted. */
    static function Stale(node: Node, index: map<U16, Node>): nat
      reads node`packet
    {
      if node.packet.version == 1 && node.packet.seqNo !in index then 1 else 0
    }

    /** Hiding a visible video node keeps the frame counter in step. */
    method HideFrameNode(node: Node, pop: bool)
      requires kind.Video? && Shape() && FramesOk() && node in nodes && node.visible
      modifies this`visibleNodes, this`nodeHash, this`completeFrames, this`nodes, this`nodeList, this`tally
      modifies nodes`visible, nodes`next, nodes`prev
      ensures Shape() && FramesOk()
      ensures tally == old(tally).(stale := old(tally).stale + Stale(node, old(nodeHash)))
      ensures |nodes| == |old(nodes)| && (!pop ==> nodes == old(nodes))
      ensures forall n :: n in nodes <==> n in old(nodes)
      ensures forall n :: n in nodes ==> n.visible == (old(n.visible) && n != node)
      ensures visibleNodes == old(visibleNodes) - 1 && Visible() == old(Visible()) - {node}
      ensures completeFrames <= old(completeFrames)
      ensures nodeHash == old(nodeHash) - {node.packet.seqNo}
    {
      hide *;
      ghost var marked := Marked();
      CountIs();
      FramesAre(marked);
      MarkedIs(node);
      InVisible(node);
      StaleIs(node);
      if unique { IndexedAt(node); }
      tally := tally.(stale := tally.stale + Stale(node, nodeHash));
      HideNode(node, pop);
      if unique { StillIndexed(node, old(nodeHash)); }
      OneLess(marked, node);
      CountIs();
      FramesAre(marked - {node});
    }

    lemma StaleIs(node: Node)
      requires kind.Video?
      ensures Stale(node, nodeHash) == if node.packet.seqNo in nodeHash then 0 else MarkOn(node.packet)
      ensures MarkOn(node.packet) == if node.packet.version == 1 then 1 else 0
    {
    }

    method SortFreeNodes()
      requires Shape()
      modifies this`nodes, this`nodeList, nodes`next, nodes`prev
      ensures Shape()
      ensures StablySorted(old(nodes), nodes, old(KeyOf(nodes)))
      ensures |nodes| == |old(nodes)|
      ensures forall n :: n in nodes <==> n in old(nodes)
      ensures old(FramesOk()) ==> FramesOk()
    {
      hide DoublyLinked, StablySorted, IndexOk, FramesOk;
      ghost var before := nodes;
      assert Distinct(nodes) && Chain(nodeList, nodes) by { Linked(); }
      nodeList, nodes := SortNodes(nodeList, nodes);
      Permuted(before, nodes, old(KeyOf(nodes)));
      SameSets();
    }

    twostate lemma SameSets()
      requires old(IndexOk())
      requires forall n :: n in nodes <==> n in old(nodes)
      requires forall n :: n in nodes ==> n.visible == old(n.visible) && n.packet == old(n.packet)
      requires unchanged(this`nodeHash, this`unique, this`tally, this`completeFrames, this`visibleNodes)
      ensures Visible() == old(Visible()) && Marked() == old(Marked()) && IndexOk()
      ensures old(FramesOk()) ==> FramesOk()
    {
    }

    lemma Linked()
      requires DoublyLinked(nodeList, nodes)
      ensures Distinct(nodes) && Chain(nodeList, nodes)
    {
    }

    static lemma Permuted(s: seq<Node>, r: seq<Node>, key: Node -> int)
      requires StablySorted(s, r, key)
      ensures |r| == |s| && forall n :: n in r <==> n in s
    {
      assert |multiset(s)| == |s| && |multiset(r)| == |r|;
      SameElements(r, s);
    }

    static ghost predicate Fewer(a: map<U16, Node>, b: map<U16, Node>) { forall k :: k in a ==> k in b && a[k] == b[k] }

    /** Drop every visible packet of the video frame with timestamp ts. */
    method DropTs(ts: U32)
      requires kind.Video? && Shape() && FramesOk()
      modifies this`visibleNodes, this`nodeHash, this`completeFrames, this`nodes, this`nodeList, this`ledger, this`tally
      modifies nodes`visible, nodes`next, nodes`prev
      ensures Shape() && FramesOk()
      ensures |nodes| == |old(nodes)| && forall n :: n in nodes <==> n in old(nodes)
      ensures forall n :: n in nodes ==> n.visible == (old(n.visible) && n.packet.ts != ts)
      ensures old(LedgerOk()) ==> LedgerOk()
      ensures completeFrames <= old(completeFrames) && tally.missed == old(tally.missed)
      ensures ledger.delivered == old(ledger).delivered && Fewer(nodeHash, old(nodeHash))
      ensures Visible() <= old(Visible()) && forall n :: n in old(Visible()) ==> (n in Visible() <==> n.packet.ts != ts)
    {
      hide *;
      VisibleIs();
      LedgerIs();
      var x := HideTs(ts);
      ledger := ledger.(frameDrops := ledger.frameDrops + (old(visibleNodes) - visibleNodes));
      if x > 0 {
        SortFreeNodes();
      }
      VisibleIs();
      LedgerIs();
    }

    /** Hide those packets, and say how many there were. */
    method HideTs(ts: U32) returns (x: nat)
      requires kind.Video? && Shape() && FramesOk()
      modifies this`visibleNodes, this`nodeHash, this`completeFrames, this`nodes, this`nodeList, this`tally
      modifies nodes`visible, nodes`next, nodes`prev
      ensures Shape() && FramesOk() && nodes == old(nodes) && x == old(visibleNodes) - visibleNodes
      ensures forall n :: n in nodes ==> n.visible == (old(n.visible) && n.packet.ts != ts)
      ensures completeFrames <= old(completeFrames) && tally.missed == old(tally.missed)
      ensures Fewer(nodeHash, old(nodeHash))
    {
      hide *;
      ShapeLinks();
      FewerSame(nodeHash);
      var np := nodeList;
      x := 0;
      ghost var i := 0;
      StartOfList();
      while np != null
        invariant Shape() && FramesOk() && nodes == old(nodes)
        invariant 0 <= i <= |nodes| && np == First(nodes[i..])
        invariant completeFrames <= old(completeFrames) && tally.missed == old(tally.missed)
        invariant x == old(visibleNodes) - visibleNodes && Fewer(nodeHash, old(nodeHash))
        invariant forall n :: n in nodes[..i] ==> n.visible == (old(n.visible) && n.packet.ts != ts)
        invariant forall n :: n in nodes && n !in nodes[..i] ==> n.visible == old(n.visible)
        decreases |nodes| - i
      {
        FirstOf(i);
        TakeOne(nodes, i);
        ghost var index := nodeHash;
        if np.visible {
          if ts == np.packet.ts {
            HideFrameNode(np, false);
            FewerStill(nodeHash, index, old(nodeHash), np.packet.seqNo);
            x := x + 1;
          }
        }
        ShapeLinks();
        NextInList(i);
        np := np.next;
        i := i + 1;
      }
      FirstOf(i);
      assert nodes[..i] == nodes;
    }

    lemma VisibleIs()
      ensures Visible() == set n | n in nodes && n.visible
    {
    }

    static lemma FewerSame(a: map<U16, Node>)
      ensures Fewer(a, a)
    {
    }

    static lemma FewerStill(a: map<U16, Node>, b: map<U16, Node>, c: map<U16, Node>, k: U16)
      requires a == b - {k} && Fewer(b, c)
      ensures Fewer(a, c)
    {
    }

    static lemma TakeOne(s: seq<Node>, i: nat)
      requires i < |s|
      ensures s[..i + 1] == s[..i] + [s[i]]
    {
    }

    /** The visible node with the lowest number, among those with timestamp ts if ts is set. */
    method FindLowestSeq(ts: U32) returns (lowest: Node?)
      requires DoublyLinked(nodeList, nodes)
      ensures lowest == null ==> forall n :: n in nodes && n.visible ==> ts != 0 && n.packet.ts != ts
      ensures lowest != null ==> lowest in nodes && lowest.visible && (ts == 0 || lowest.packet.ts == ts)
      ensures lowest != null ==>
        forall n :: n in nodes && n.visible && (ts == 0 || n.packet.ts == ts) ==> lowest.packet.seqNo <= n.packet.seqNo
    {
      hide DoublyLinked;
      lowest := null;
      var np := nodeList;
      ghost var i := 0;
      StartOfList();
      while np != null
        invariant 0 <= i <= |nodes| && np == First(nodes[i..])
        invariant lowest == null ==> forall n :: n in nodes[..i] && n.visible ==> ts != 0 && n.packet.ts != ts
        invariant lowest != null ==> lowest in nodes && lowest.visible && (ts == 0 || lowest.packet.ts == ts)
        invariant lowest != null ==>
          forall n :: n in nodes[..i] && n.visible && (ts == 0 || n.packet.ts == ts) ==>
            lowest.packet.seqNo <= n.packet.seqNo
        decreases |nodes| - i
      {
        NextInList(i);
        TakeOne(nodes, i);
        if np.visible && !(ts != 0 && ts != np.packet.ts) {
          if lowest == null || lowest.packet.seqNo > np.packet.seqNo {
            lowest := np;
          }
        }
        np := np.next;
        i := i + 1;
      }
      assert nodes[..i] == nodes;
    }

    function Mult(): nat
      reads this`maxPacketLen
    {
      if kind.Video? && maxPacketLen > 2 then maxPacketLen else 2
    }

    /** There is no free node, and no room to allocate another. */
    predicate PoolFull()
      reads this`visibleNodes, this`allocatedNodes, this`maxPacketLen
    {
      visibleNodes == allocatedNodes && allocatedNodes > maxFrameLen * Mult()
    }

    /** p is far from what was last written, in number or in time. */
    predicate Far(w: Highest, p: Packet) { SeqDiff(w.seqNo, p.seqNo) >= 100 || TsDiff(w.ts, p.ts) > 900000 * 5 }

    /** p is so far from what was last written that the buffer starts over. */
    ghost predicate Jumps(p: Packet)
      reads this`wrote
    {
      wrote.init && kind.Video? && Far(wrote, p)
    }

    /** The numbering jumps by a hundred numbers either way, or by fifty seconds of a 90 kHz
        clock. Across the wrap of the numbers one counts less; across the wrap of the
        timestamps, within a thousand samples of it, there is no jump in time. */
    lemma JumpsIff(p: Packet)
      requires wrote.init && kind.Video?
      ensures
        var wraps := wrote.seqNo > 0xFFFF - 100 && p.seqNo < 100;
        var wrapsTs := wrote.ts > 0xFFFF_FFFF - 1000 && p.ts < 1000;
        Jumps(p) <==>
          || (!wraps && (p.seqNo >= wrote.seqNo + 100 || wrote.seqNo >= p.seqNo + 100))
          || (wraps && (p.seqNo - wrote.seqNo) % 0x1_0000 > 100)
          || (!wrapsTs && 4500000 < (p.ts - wrote.ts) % 0x1_0000_0000 < 0x1_0000_0000 - 4500000)
    {
    }

    /** The pool is full exactly if it holds one packet more than the limit in frames times
        the most packets that a frame of video has had, or times two. */
    lemma PoolFullIff()
      requires Shape() && PoolOk()
      ensures PoolFull() <==>
        visibleNodes == maxFrameLen * (if kind.Video? && maxPacketLen > 2 then maxPacketLen else 2) + 1
    {
      hide DoublyLinked, IndexOk;
      AllVisible();
      SomeVisible();
    }

    lemma SomeVisible()
      requires Shape()
      ensures visibleNodes <= allocatedNodes
    {
      hide DoublyLinked, IndexOk;
      var all := set n | n in nodes;
      assert Distinct(nodes) by { Linked(); }
      DistinctCount(nodes);
      SubsetCount(Visible(), all);
    }

    method FindFree() returns (np: Node?)
      requires DoublyLinked(nodeList, nodes)
      ensures np == null ==> forall n :: n in nodes ==> n.visible
      ensures np != null ==> np in nodes && !np.visible
    {
      hide DoublyLinked;
      np := nodeList;
      ghost var i := 0;
      StartOfList();
      while np != null
        invariant 0 <= i <= |nodes| && np == First(nodes[i..])
        invariant forall n :: n in nodes[..i] ==> n.visible
        decreases |nodes| - i
      {
        NextInList(i);
        if !np.visible { break; }
        TakeOne(nodes, i);
        np := np.next;
        i := i + 1;
      }
      assert np == null ==> nodes[..i] == nodes;
    }

    /** A node to put a packet in, or null after a reset if the pool is full. */
    method NewNode() returns (np: Node?)
      requires Shape()
      modifies this`visibleNodes, this`nodeHash, this`completeFrames, this`nodes, this`nodeList, this`allocatedNodes
      modifies nodes`visible, nodes`next, nodes`prev
      modifies this`missing, this`lastTargetSeq, this`targetSeq, this`nextSeq, this`wrote, this`read, this`period
      modifies this`unique, this`tally, this`past, this`ledger
      ensures np == null <==> old(PoolFull())
      ensures np == null ==> Shape() && FramesOk() && WasReset() && wrote == UNSET && nodes == old(nodes)
      ensures !kind.Video? ==> missing == old(missing)
      ensures np == null ==> ledger == old(ledger.(discarded := ledger.discarded + visibleNodes))
      ensures np != null ==> Shape() && np in nodes && np.visible && np !in old(Visible())
      ensures np != null ==> (forall n :: n in nodes <==> n in old(nodes) || n == np)
      ensures np != null ==> Visible() == old(Visible()) + {np} && fresh(set n | n in nodes && n !in old(nodes))
      ensures np != null ==>
        unchanged(this`nodeHash, this`completeFrames, this`missing, this`lastTargetSeq, this`targetSeq,
        this`nextSeq, this`wrote, this`read, this`period, this`unique, this`tally, this`past, this`ledger)
      ensures old(PoolOk()) ==> PoolOk()
    {
      hide *;
      np := FreeNode();
      if np == null {
        Reset();
        WasResetIs();
        return;
      }
      Show(np);
    }

    lemma WasResetIs()
      ensures WasReset() <==>
        && nodeHash == map[] && visibleNodes == 0 && (kind.Video? ==> missing == map[])
        && targetSeq == 0 && nextSeq == 0 && unique && tally == NO_TALLY && past == NO_HISTORY && read == UNSET
        && period == NEW_PERIOD
    {
    }

    lemma AllVisible()
      requires Shape()
      ensures visibleNodes == allocatedNodes <==> forall n :: n in nodes ==> n.visible
    {
      var all := set n | n in nodes;
      assert Distinct(nodes) by { Linked(); }
      DistinctCount(nodes);
      if forall n :: n in nodes ==> n.visible {
        assert Visible() == all;
      } else {
        var n :| n in nodes && !n.visible;
        assert Visible() <= all - {n};
        SubsetCount(Visible(), all - {n});
      }
    }

    static lemma DistinctCount(s: seq<Node>)
      requires Distinct(s)
      ensures |set n | n in s| == |s|
    {
      if s != [] {
        var rest := s[1..];
        DistinctCount(rest);
        assert (set n | n in s) == {s[0]} + set n | n in rest;
      }
    }

    static lemma SubsetCount(a: set<Node>, b: set<Node>)
      requires a <= b
      ensures |a| <= |b|
    {
      assert b == a + (b - a);
    }

    /** A free node: one on the list, or else a new one if the pool may grow. */
    method FreeNode() returns (np: Node?)
      requires Shape()
      modifies this`allocatedNodes, this`nodes, this`nodeList, nodes`prev
      ensures Shape() && (np == null <==> old(PoolFull()))
      ensures np == null ==> unchanged(this`allocatedNodes, this`nodes)
      ensures np != null ==> np in nodes && !np.visible && fresh(set n | n in nodes && n !in old(nodes))
      ensures np != null ==> (forall n :: n in nodes <==> n in old(nodes) || n == np) && Visible() == old(Visible())
      ensures old(PoolOk()) ==> PoolOk()
    {
      hide DoublyLinked, IndexOk;
      np := FindFree();
      assert np == null <==> visibleNodes == allocatedNodes by { AllVisible(); }
      if np == null {
        var mult := 2;
        if kind.Video? && maxPacketLen > mult {
          mult := maxPacketLen;
        }
        if allocatedNodes > maxFrameLen * mult {
          return;
        }
        np := Allocate();
      }
    }

    method Show(np: Node)
      requires Shape() && np in nodes && !np.visible
      modifies this`visibleNodes, np`visible
      ensures Shape() && np.visible && np !in old(Visible()) && Visible() == old(Visible()) + {np}
    {
      hide DoublyLinked;
      np.visible := true;
      visibleNodes := visibleNodes + 1;
      assert Visible() == old(Visible()) + {np};
    }

    ghost predicate WasReset()
      reads this`nodeHash, this`missing, this`targetSeq, this`nextSeq, this`unique, this`tally, this`past
      reads this`visibleNodes
      reads this`read, this`period
    {
      && nodeHash == map[] && visibleNodes == 0 && (kind.Video? ==> missing == map[])
      && targetSeq == 0 && nextSeq == 0 && unique && tally == NO_TALLY && past == NO_HISTORY && read == UNSET
      && period == NEW_PERIOD
    }

    method Allocate() returns (np: Node)
      requires Shape()
      modifies this`allocatedNodes, this`nodeList, this`nodes, nodes`prev
      ensures Shape() && fresh(np) && !np.visible
      ensures nodes == [np] + old(nodes) && allocatedNodes == old(allocatedNodes) + 1
      ensures Visible() == old(Visible())
    {
      hide DoublyLinked;
      np := new Node();
      allocatedNodes := allocatedNodes + 1;
      LinkFirst(np);
      assert Visible() == old(Visible());
    }

    /** FramesOk but for node, which has been shown and not been filled yet. */
    ghost predicate FramesExcept(node: Node)
      reads this`nodes, this`nodeHash, this`unique, this`tally, this`completeFrames, this`visibleNodes
      reads nodes`visible, nodes`packet
    {
      && (forall k :: k in nodeHash ==> nodeHash[k] != node)
      && (unique ==> forall n :: n in nodes && n.visible && n != node ==>
            n.packet.seqNo in nodeHash && nodeHash[n.packet.seqNo] == n)
      && (unique ==> tally.stale == 0)
      && (if kind.Video? then completeFrames + tally.missed == |Marked() - {node}| + tally.stale
          else completeFrames + 1 == visibleNodes)
    }

    /** FramesOk but for the counting of one audio or text frame just stored. */
    ghost predicate FramePending()
      reads this`nodes, this`nodeHash, this`unique, this`tally, this`completeFrames, this`visibleNodes
      reads nodes`visible, nodes`packet
    {
      && (unique ==> FullyIndexed())
      && (unique ==> tally.stale == 0)
      && (if kind.Video? then completeFrames + tally.missed == |Marked()| + tally.stale
          else completeFrames + 1 == visibleNodes)
    }

    /** The packets that can be looked up, as they would be sent out again. */
    ghost function Stored(): map<U16, Packet>
      requires forall k :: k in nodeHash ==> nodeHash[k] in nodes
      reads this`nodes, this`nodeHash, nodes`packet
    {
      map k | k in nodeHash :: Restored(nodeHash[k].packet)
    }

    /** vis and marked are what was visible and marked before np was shown. */
    lemma NewNodeFrames(np: Node, vis: set<Node>, marked: set<Node>)
      requires Visible() == vis + {np} && np !in vis
      requires forall k :: k in nodeHash ==> nodeHash[k] in vis
      requires marked <= vis && forall n :: n in vis ==> (n in marked <==> n.packet.version == 1)
      requires unique ==> forall n :: n in vis ==> n.packet.seqNo in nodeHash && nodeHash[n.packet.seqNo] == n
      requires unique ==> tally.stale == 0
      requires if kind.Video? then completeFrames + tally.missed == |marked| + tally.stale
               else completeFrames + 1 == visibleNodes
      ensures FramesExcept(np)
    {
      assert Marked() - {np} == marked by {
        assert forall n :: n in Marked() && n != np <==> n in Visible() && n != np && n.packet.version == 1;
      }
      assert forall n :: n in nodes && n.visible && n != np <==> n in vis;
    }

    /** How many packets p is that look as the buffer marks the end of a frame. */
    function MarkOn(p: Packet): nat { if kind.Video? && p.version == 1 then 1 else 0 }

    /** How many ends of frames p adds to the list that are not counted, if w was
        written last. */
    function Uncounted(w: Highest, p: Packet): nat { if Ends(w, p) then 0 else MarkOn(p) }

    /** Copy the packet into its node. */
    method FillNode(node: Node, p: Packet)
      requires Shape() && FramesExcept(node) && node in nodes && node.visible
      modifies node`packet
      ensures Shape() && FramesExcept(node) && node.packet == p
    {
      hide *;
      ghost var rest := set n | n in nodes && n != node;
      FramesExceptIs(node, rest);
      CopyPacket(node, p);
      FramesExceptIs(node, rest);
    }

    method CopyPacket(node: Node, p: Packet)
      requires Shape() && node in nodes && forall k :: k in nodeHash ==> nodeHash[k] != node
      modifies node`packet
      ensures Shape() && node.packet == p
    {
      hide *;
      ShapeIs();
      node.packet := p;
      ShapeIs();
    }

    lemma CountIs()
      requires Shape()
      ensures visibleNodes == |Visible()|
    {
      hide DoublyLinked;
    }

    lemma ShapeIs()
      ensures Shape() <==>
        && DoublyLinked(nodeList, nodes) && allocatedNodes == |nodes| && visibleNodes == |Visible()|
        && forall k :: k in nodeHash ==> nodeHash[k] in nodes && nodeHash[k].visible && nodeHash[k].packet.seqNo == k
    {
      hide DoublyLinked;
    }

    ghost predicate IndexedAmong(rest: set<Node>)
      reads this`nodeHash, rest`visible, rest`packet
    {
      forall n :: n in rest && n.visible ==> n.packet.seqNo in nodeHash && nodeHash[n.packet.seqNo] == n
    }

    static ghost function MarkedAmong(rest: set<Node>): set<Node>
      reads rest`visible, rest`packet
    {
      set n | n in rest && n.visible && n.packet.version == 1
    }

    /** FramesExcept says nothing about the packet of node itself. */
    lemma FramesExceptIs(node: Node, rest: set<Node>)
      requires rest == set n | n in nodes && n != node
      ensures FramesExcept(node) <==>
        && (forall k :: k in nodeHash ==> nodeHash[k] != node) && (unique ==> IndexedAmong(rest))
        && (unique ==> tally.stale == 0)
        && (if kind.Video? then completeFrames + tally.missed == |MarkedAmong(rest)| + tally.stale
            else completeFrames + 1 == visibleNodes)
    {
      assert Marked() - {node} == MarkedAmong(rest);
    }

    /** What a shown node adds to the marks and the index. */
    lemma IndexMore(node: Node)
      requires Shape() && node in nodes && node.visible
      ensures kind.Video? ==> |Marked()| == |Marked() - {node}| + MarkOn(node.packet)
    {
      hide DoublyLinked;
      assert Marked() == (Marked() - {node}) + if node.packet.version == 1 then {node} else {};
    }

    /** Index the node under its number. */
    method IndexNode(node: Node)
      requires Shape() && FramesExcept(node) && node in nodes && node.visible
      modifies this`nodeHash, this`unique, this`tally
      ensures Shape() && FramePending()
      ensures tally == Missed(old(tally), MarkOn(node.packet))
      ensures nodeHash == old(nodeHash)[node.packet.seqNo := node]
      ensures unique == (old(unique) && node.packet.seqNo !in old(nodeHash))
    {
      hide DoublyLinked, Marked, Visible;
      IndexMore(node);
      tally := Missed(tally, MarkOn(node.packet));
      unique := unique && node.packet.seqNo !in nodeHash;
      nodeHash := nodeHash[node.packet.seqNo := node];
    }

    /** before and stored are the index and what it held before p was filled in. */
    lemma StoredAfterFill(node: Node, p: Packet, before: map<U16, Node>, stored: map<U16, Packet>)
      requires IndexOk() && nodeHash == before[p.seqNo := node] && Restored(node.packet) == Restored(p)
      requires stored.Keys == before.Keys
      requires forall k :: k in before && k != p.seqNo ==> stored[k] == Restored(before[k].packet)
      ensures Stored() == stored[p.seqNo := Restored(p)]
    {
    }

    /** With max_frame_len fixed, the pool stays within its bound. */
    ghost predicate PoolOk()
      reads this`allocatedNodes, this`maxPacketLen
    {
      allocatedNodes <= maxFrameLen * Mult() + 1
    }

    /** p ends a video frame, if w was written last. */
    predicate Ends(w: Highest, p: Packet) { kind.Video? && EndsFrame(w, NextWrote(w, p, kind).seqNo, p) }

    /** The packet as it is kept: with the internal mark if it ends a frame. */
    function Kept(w: Highest, p: Packet): Packet { if Ends(w, p) then p.(version := 1) else p }

    ghost predicate Keeps(p: Packet)
      reads this`nodeHash, nodeHash.Values`packet
    {
      p.seqNo in nodeHash && nodeHash[p.seqNo].packet == p
    }

    /** The packets of the frame being written, and the most that a frame has had. */
    function Packets(count: nat, most: nat, ends: bool): (nat, nat) {
      if !kind.Video? || queueOnly then (count, most) else if ends then (0, Max(most, count + 1)) else (count + 1, most)
    }

    /** The bookkeeping of add_node once the packet is in its node. */
    method WroteFrame(node: Node, p: Packet)
      requires Shape() && FramePending() && node in nodes && node.packet == p
      requires wrote.init ==> node.visible && tally.missed >= MarkOn(p)
      modifies this`wrote, this`packetCount, this`maxPacketLen, this`completeFrames, this`tally, node`packet
      ensures Shape() && FramesOk()
      ensures tally ==
        if Ends(old(wrote), p) then old(tally).(missed := old(tally).missed - MarkOn(p)) else old(tally)
      ensures Stored() == old(Stored()) && Held() == old(Held())
      ensures wrote == NextWrote(old(wrote), p, kind) && node.packet == Kept(old(wrote), p)
      ensures completeFrames == old(completeFrames) + if !kind.Video? || Ends(old(wrote), p) then 1 else 0
      ensures (packetCount, maxPacketLen) == Packets(old(packetCount), old(maxPacketLen), Ends(old(wrote), p))
    {
      hide DoublyLinked, IndexOk, FramePending, FramesOk, Stored, Held, Shape;
      var seqNo := wrote.seqNo;
      if !wrote.init || p.seqNo > seqNo || (seqNo > 0xFFFF - 100 && p.seqNo < 100) {
        seqNo := p.seqNo;
      }
      var ts := wrote.ts;
      if kind.Video? {
        PendingVideo();
        if !queueOnly {
          packetCount := packetCount + 1;
        }
        if wrote.init && CheckSeq(p.seqNo, seqNo) && CheckTs(p.ts, wrote.ts) {
          ts := p.ts;
          if !queueOnly {
            if packetCount > maxPacketLen {
              maxPacketLen := packetCount;
            }
            packetCount := 0;
          }
          MarkFrame(node, p);
        } else if !wrote.init {
          ts := p.ts;
        }
      } else {
        CountFrame();
      }
      wrote := Highest(true, seqNo, ts);
    }

    lemma HeldIs()
      ensures Held().Keys == Visible() && forall n :: n in Held() ==> n in nodes && Held()[n] == Restored(n.packet)
    {
    }

    static lemma AddsOne(h: map<Node, Packet>, h': map<Node, Packet>, into: Node, p: Packet)
      requires into in h' ==> h'[into] == Restored(p)
      requires forall n :: n in h' && n != into ==> n in h && h'[n] == h[n]
      ensures Adds(h, h', into, p)
    {
    }

    static lemma AddsTwice(h: map<Node, Packet>, h': map<Node, Packet>, h'': map<Node, Packet>, into: Node, q: Packet,
                           p: Packet)
      requires Adds(h, h', into, q) && Adds(h', h'', into, p)
      ensures Adds(h, h'', into, p)
    {
    }

    static lemma AddsNothing(h: map<Node, Packet>, into: Node?, p: Packet)
      ensures Adds(h, map[], into, p)
    {
    }

    lemma NoneHeld()
      requires Shape() && (visibleNodes == 0 || Visible() == {})
      ensures Held() == map[]
    {
      hide DoublyLinked;
      assert Held().Keys == Visible();
    }

    lemma PendingVideo()
      requires kind.Video?
      ensures FramePending() <==> FramesOk()
    {
    }

    method CountFrame()
      requires !kind.Video? && FramePending()
      modifies this`completeFrames
      ensures FramesOk() && completeFrames == old(completeFrames) + 1
    {
      completeFrames := completeFrames + 1;
    }

    /** Count a frame, which node ends, and mark the node. */
    method MarkFrame(node: Node, p: Packet)
      requires kind.Video? && Shape() && FramesOk() && node in nodes && node.visible && node.packet == p
      requires tally.missed >= MarkOn(p)
      modifies this`completeFrames, this`tally, node`packet
      ensures Shape() && FramesOk() && completeFrames == old(completeFrames) + 1 && node.packet == p.(version := 1)
      ensures tally == old(tally).(missed := old(tally).missed - MarkOn(p))
      ensures Stored() == old(Stored()) && Held() == old(Held())
    {
      hide *;
      ghost var marked := Marked();
      FramesAre(marked);
      MarkedIs(node);
      completeFrames := completeFrames + 1;
      tally := tally.(missed := tally.missed - MarkOn(p));
      SetMark(node, p);
      OneMore(marked, node);
      FramesAre(marked + {node});
    }

    method SetMark(node: Node, p: Packet)
      requires Shape() && node in nodes && node.visible && node.packet == p
      modifies node`packet
      ensures Shape() && node.packet == p.(version := 1)
      ensures Stored() == old(Stored()) && Held() == old(Held())
      ensures Visible() == old(Visible()) && Marked() == old(Marked()) + {node} && FullyIndexed() == old(FullyIndexed())
    {
      hide DoublyLinked;
      node.packet := p.(version := 1);
      assert Visible() == old(Visible());
    }

    lemma FramesAre(marked: set<Node>)
      requires kind.Video? && marked == Marked()
      ensures FramesOk() <==>
        (unique ==> FullyIndexed() && tally.stale == 0) && completeFrames + tally.missed == |marked| + tally.stale
    {
    }

    lemma MarkedIs(node: Node)
      requires kind.Video? && node in nodes && node.visible
      ensures MarkOn(node.packet) == if node in Marked() then 1 else 0
    {
    }

    static lemma OneLess(marked: set<Node>, node: Node)
      ensures |marked - {node}| == |marked| - if node in marked then 1 else 0
    {
      assert node !in marked ==> marked - {node} == marked;
    }

    static lemma OneMore(marked: set<Node>, node: Node)
      ensures |marked + {node}| == |marked| + if node in marked then 0 else 1
    {
      assert node in marked ==> marked + {node} == marked;
    }

    /** Buffer a packet, unless the pool is full. Either that or a jump of the
        numbering empties the buffer instead. */
    method AddNode(p: Packet) returns (ghost into: Node?)
      requires Shape() && FramesOk() && LedgerOk() && PoolOk()
      modifies this`visibleNodes, this`nodeHash, this`completeFrames, this`nodes, this`nodeList, this`allocatedNodes
      modifies nodes
      modifies this`missing, this`lastTargetSeq, this`targetSeq, this`nextSeq, this`wrote, this`read, this`period
      modifies this`unique, this`tally, this`past, this`ledger, this`packetCount, this`maxPacketLen
      ensures Shape() && FramesOk() && LedgerOk() && PoolOk()
      ensures fresh(set n | n in nodes && n !in old(nodes)) && Adds(old(Held()), Held(), into, p)
      ensures old(PoolFull()) ==> WasReset() && wrote == UNSET
      ensures !old(PoolFull()) && old(Jumps(p)) ==> WasReset() && wrote == NextWrote(UNSET, p, kind)
      ensures !old(PoolFull()) && !old(Jumps(p)) ==>
        && Stored() == old(Stored())[p.seqNo := Restored(p)]
        && past == old(past).(log := old(past).log + [p])
        && wrote == NextWrote(old(wrote), p, kind)
        && unique == (old(unique) && p.seqNo !in old(nodeHash)) && tally == Missed(old(tally), Uncounted(old(wrote), p))
        && unchanged(this`missing, this`lastTargetSeq, this`targetSeq, this`nextSeq, this`read, this`period)
        && completeFrames == old(completeFrames) + (if !kind.Video? || Ends(old(wrote), p) then 1 else 0)
        && Keeps(Kept(old(wrote), p))
      ensures (packetCount, maxPacketLen) ==
        if old(PoolFull()) then (old(packetCount), old(maxPacketLen))
        else Packets(old(packetCount), old(maxPacketLen), !old(Jumps(p)) && Ends(old(wrote), p))
      ensures ledger.accepted == old(ledger).accepted + if into == null then 0 else 1
      ensures ledger.delivered == old(ledger).delivered && ledger.frameDrops == old(ledger).frameDrops
      ensures into == null <==> old(PoolFull())
      ensures queueOnly ==> maxPacketLen == old(maxPacketLen)
      ensures !kind.Video? ==> missing == old(missing)
    {
      hide *;
      JumpsIs(p);
      var node := StoreNew(p);
      into := node;
      if node == null {
        return;
      }
      JumpsIs(p);
      UncountedIs(old(tally), old(wrote), p);
      PoolIs();
      PacketsGrow(packetCount, maxPacketLen, !old(Jumps(p)) && Ends(old(wrote), p));
      ghost var held := Held();
      Settle(node, p);
      AddsSettled(old(Held()), held, Held(), node, p);
      PoolLonger(old(maxPacketLen));
    }

    lemma JumpsIs(p: Packet)
      ensures Jumps(p) <==>
        && wrote.init && kind.Video?
        && (SeqDiff(wrote.seqNo, p.seqNo) >= 100 || TsDiff(wrote.ts, p.ts) > 900000 * 5)
      ensures !UNSET.init && !Ends(UNSET, p)
    {
    }

    lemma KeepsIs(w: Highest, p: Packet)
      ensures Keeps(Kept(w, p)) <==> p.seqNo in nodeHash && nodeHash[p.seqNo].packet == Kept(w, p)
    {
    }

    lemma PacketsGrow(count: nat, most: nat, ends: bool)
      ensures Packets(count, most, ends).1 >= most && (queueOnly ==> Packets(count, most, ends).1 == most)
    {
    }

    lemma UncountedIs(t: Tally, w: Highest, p: Packet)
      ensures
        var more := Missed(t, MarkOn(p));
        && more.missed >= MarkOn(p)
        && Missed(t, Uncounted(w, p)) == if Ends(w, p) then more.(missed := more.missed - MarkOn(p)) else more
    {
    }

    static lemma AddsSettled(h: map<Node, Packet>, h': map<Node, Packet>, h'': map<Node, Packet>, into: Node, p: Packet)
      requires Adds(h, h', into, p) && (h'' == h' || h'' == map[])
      ensures Adds(h, h'', into, p)
    {
    }

    lemma PoolIs()
      ensures PoolOk() <==>
        allocatedNodes <= maxFrameLen * (if kind.Video? && maxPacketLen > 2 then maxPacketLen else 2) + 1
    {
    }

    lemma PoolLonger(was: nat)
      requires allocatedNodes <= maxFrameLen * (if kind.Video? && was > 2 then was else 2) + 1 && was <= maxPacketLen
      ensures PoolOk()
    {
      MulMonotone(maxFrameLen, if kind.Video? && was > 2 then was else 2, Mult());
    }

    /** Do the bookkeeping for a packet in its node; a jump of the numbering empties the
        buffer first. */
    method Settle(node: Node, p: Packet)
      requires Shape() && FramePending() && LedgerOk() && node in nodes && node.visible && node.packet == p
      requires p.seqNo in nodeHash && nodeHash[p.seqNo] == node && tally.missed >= MarkOn(p)
      modifies this`visibleNodes, this`nodeHash, this`completeFrames, this`nodes, this`nodeList
      modifies nodes`visible, nodes`next, nodes`prev, node`packet
      modifies this`missing, this`lastTargetSeq, this`targetSeq, this`nextSeq, this`wrote, this`read, this`period
      modifies this`unique, this`tally, this`past, this`ledger, this`packetCount, this`maxPacketLen
      ensures ledger.accepted == old(ledger).accepted
      ensures ledger.delivered == old(ledger).delivered && ledger.frameDrops == old(ledger).frameDrops
      ensures Shape() && FramesOk() && LedgerOk() && nodes == old(nodes)
      ensures old(Jumps(p)) ==> WasReset() && wrote == NextWrote(UNSET, p, kind) && Held() == map[]
      ensures !old(Jumps(p)) ==>
        && Stored() == old(Stored()) && Held() == old(Held()) && wrote == NextWrote(old(wrote), p, kind)
        && tally == (if Ends(old(wrote), p) then old(tally).(missed := old(tally).missed - MarkOn(p)) else old(tally))
        && unchanged(this`missing, this`lastTargetSeq, this`targetSeq, this`nextSeq, this`read, this`period,
                     this`unique, this`past, this`ledger)
        && completeFrames == old(completeFrames) + (if !kind.Video? || Ends(old(wrote), p) then 1 else 0)
        && Keeps(Kept(old(wrote), p))
      ensures (packetCount, maxPacketLen) ==
        Packets(old(packetCount), old(maxPacketLen), !old(Jumps(p)) && Ends(old(wrote), p))
      ensures !kind.Video? ==> missing == old(missing)
    {
      hide *;
      JumpsIs(p);
      if wrote.init && kind.Video? {
        if SeqDiff(wrote.seqNo, p.seqNo) >= 100 || TsDiff(wrote.ts, p.ts) > 900000 * 5 {
          ResetForGap();
          NoneHeld();
          PendingVideo();
          WasResetIs();
        }
      }
      WroteFrame(node, p);
      WasResetIs();
      KeepsIs(old(wrote), p);
    }

    static lemma MulMonotone(a: nat, b: nat, c: nat)
      requires b <= c
      ensures a * b <= a * c
    {
    }

    /** Put the packet in a new node and index it. */
    method StoreNew(p: Packet) returns (node: Node?)
      requires Shape() && FramesOk() && LedgerOk() && PoolOk()
      modifies this`visibleNodes, this`nodeHash, this`completeFrames, this`nodes, this`nodeList, this`allocatedNodes
      modifies nodes
      modifies this`missing, this`lastTargetSeq, this`targetSeq, this`nextSeq, this`wrote, this`read, this`period
      modifies this`unique, this`tally, this`past, this`ledger
      ensures Shape() && LedgerOk() && PoolOk()
      ensures node == null <==> old(PoolFull())
      ensures ledger.accepted == old(ledger).accepted + if node == null then 0 else 1
      ensures ledger.delivered == old(ledger).delivered && ledger.frameDrops == old(ledger).frameDrops
      ensures !kind.Video? ==> missing == old(missing)
      ensures node == null ==> FramesOk() && WasReset() && wrote == UNSET
      ensures fresh(set n | n in nodes && n !in old(nodes)) && Adds(old(Held()), Held(), node, p)
      ensures node != null ==>
        && node in nodes && node.visible && node.packet == p && FramePending()
        && p.seqNo in nodeHash && nodeHash[p.seqNo] == node
        && Stored() == old(Stored())[p.seqNo := Restored(p)]
        && past == old(past).(log := old(past).log + [p])
        && unique == (old(unique) && p.seqNo !in old(nodeHash)) && tally == Missed(old(tally), MarkOn(p))
        && unchanged(this`missing, this`lastTargetSeq, this`targetSeq, this`nextSeq, this`read, this`period, this`wrote,
                     this`completeFrames)
    {
      hide DoublyLinked, Adds, Held, FramesOk, FramesExcept, FramePending, PoolOk, PoolFull;
      node := TakeNode();
      if node == null {
        NoneHeld();
        AddsNothing(old(Held()), node, p);
        return;
      }
      assert Stored() == old(Stored());
      ghost var held, q := Held(), node.packet;
      StoreIn(node, p);
      AddsTwice(old(Held()), held, Held(), node, q, p);
    }

    method StoreIn(node: Node, p: Packet)
      requires Shape() && FramesExcept(node) && node in nodes && node.visible
      requires ledger.accepted + 1 == ledger.delivered + ledger.frameDrops + ledger.discarded + visibleNodes
      modifies node`packet, this`nodeHash, this`unique, this`tally, this`ledger, this`past
      ensures Shape() && FramePending() && LedgerOk() && node.packet == p
      ensures p.seqNo in nodeHash && nodeHash[p.seqNo] == node
      ensures Stored() == old(Stored())[p.seqNo := Restored(p)]
      ensures ledger == old(ledger).(accepted := old(ledger).accepted + 1)
      ensures Adds(old(Held()), Held(), node, p)
      ensures past == old(past).(log := old(past).log + [p])
      ensures unique == (old(unique) && p.seqNo !in old(nodeHash)) && tally == Missed(old(tally), MarkOn(p))
    {
      hide *;
      Storable();
      HeldIs();
      ghost var before, stored := nodeHash, Stored();
      NotIndexed(node);
      FillNode(node, p);
      IndexNode(node);
      HeldIs();
      assert Adds(old(Held()), Held(), node, p) by { AddsOne(old(Held()), Held(), node, p); }
      Storable();
      StoredAfterFill(node, p, before, stored);
      ledger := ledger.(accepted := ledger.accepted + 1);
      LedgerIs();
      past := past.(log := past.log + [p]);
    }

    lemma Storable()
      requires Shape()
      ensures IndexOk() && forall k :: k in nodeHash ==> nodeHash[k] in nodes
      ensures Stored().Keys == nodeHash.Keys && forall k :: k in nodeHash ==>
        Stored()[k] == Restored(nodeHash[k].packet)
    {
    }

    lemma NotIndexed(node: Node)
      requires FramesExcept(node)
      ensures forall k :: k in nodeHash ==> nodeHash[k] != node
    {
    }

    /** NewNode on a buffer whose frame counter agrees with the list. */
    method TakeNode() returns (np: Node?)
      requires Shape() && FramesOk() && LedgerOk() && PoolOk()
      modifies this`visibleNodes, this`nodeHash, this`completeFrames, this`nodes, this`nodeList, this`allocatedNodes
      modifies nodes`visible, nodes`next, nodes`prev
      modifies this`missing, this`lastTargetSeq, this`targetSeq, this`nextSeq, this`wrote, this`read, this`period
      modifies this`unique, this`tally, this`past, this`ledger
      ensures Shape() && PoolOk() && (np == null <==> old(PoolFull()))
      ensures np == null ==> FramesOk() && LedgerOk() && WasReset() && wrote == UNSET && nodes == old(nodes)
      ensures np == null ==> ledger == old(ledger.(discarded := ledger.discarded + visibleNodes))
      ensures np != null ==> np in nodes && np.visible && FramesExcept(np)
      ensures np != null ==>
        fresh(set n | n in nodes && n !in old(nodes)) && unchanged(this`nodeHash, this`missing, this`completeFrames,
        this`lastTargetSeq, this`targetSeq, this`nextSeq, this`wrote, this`read, this`period, this`unique, this`tally,
        this`past, this`ledger)
      ensures np != null ==> visibleNodes == old(visibleNodes) + 1
      ensures np != null ==> Adds(old(Held()), Held(), np, np.packet)
      ensures !kind.Video? ==> missing == old(missing)
    {
      hide *;
      ghost var vis, marked := Visible(), Marked();
      HeldIs();
      CountIs();
      LedgerIs();
      FramesOf(vis, marked);
      np := NewNode();
      CountIs();
      if np != null {
        NewNodeFrames(np, vis, marked);
        HeldWith(np, old(Held()));
      } else {
        LedgerIs();
        WasResetIs();
      }
    }

    /** What is held once np has been shown; h was held before. */
    lemma HeldWith(np: Node, h: map<Node, Packet>)
      requires Visible() == h.Keys + {np} && forall n :: n in h ==> h[n] == Restored(n.packet)
      ensures Adds(h, Held(), np, np.packet)
    {
      HeldIs();
    }

    /** What the frame counter says of the visible nodes and the marked ones. */
    lemma FramesOf(vis: set<Node>, marked: set<Node>)
      requires Shape() && FramesOk() && vis == Visible() && marked == Marked()
      ensures forall k :: k in nodeHash ==> nodeHash[k] in vis
      ensures marked <= vis && forall n :: n in vis ==> (n in marked <==> n.packet.version == 1)
      ensures unique ==> forall n :: n in vis ==> n.packet.seqNo in nodeHash && nodeHash[n.packet.seqNo] == n
      ensures unique ==> tally.stale == 0
      ensures if kind.Video? then completeFrames + tally.missed == |marked| + tally.stale
              else completeFrames == visibleNodes
    {
      hide DoublyLinked;
    }

    /** Unless a number was given up, the missing set is what the received ones imply;
        number 0 is never in it. */
    ghost predicate LossOk()
      reads this`missing, this`nextSeq, this`past
    {
      if kind.Video? && !queueOnly then
        0 !in missing && (!past.expired ==> Track(nextSeq, missing.Keys) == TrackRun(past.gots, maxFrameLen))
      else missing == map[]
    }

    /** A retransmission buffer never evicts, and holds what its log says, unless it has
        been read from: then it holds part of that. */
    ghost predicate LogOk()
      requires forall k :: k in nodeHash ==> nodeHash[k] in nodes
      reads this`maxPacketLen, this`past
      reads this`nodes, this`nodeHash, nodes`packet
    {
      queueOnly ==> maxPacketLen == 0 && Within(Stored(), past.log, past.tapped)
    }

    /** Reading a retransmission buffer takes packets out that its log still has. */
    ghost predicate MayRead()
      reads this`past
    {
      queueOnly ==> past.tapped
    }

    function Tapped(was: History): History { if queueOnly then was.(tapped := true) else was }

    ghost predicate PlayoutOk()
      reads this`past, this`targetSeq
    {
      if kind.Video? then past.slots == [] else SlotsOk(past.slots, targetSeq)
    }

    /** The playout length stays within limits that are sound. */
    ghost predicate LenOk()
      reads this`frameLen
    {
      1 <= minFrameLen <= maxFrameLen < 0xFFFF_FFFF ==> minFrameLen <= frameLen <= maxFrameLen
    }

    ghost predicate Valid()
      reads this`nodes, this`nodeList, this`allocatedNodes, this`visibleNodes, this`nodeHash, this`unique, this`tally
      reads this`completeFrames
      reads this`ledger, this`maxPacketLen, this`missing, this`nextSeq, this`past, this`highestDroppedTs
      reads this`targetSeq, nodes
      reads this`frameLen
    {
      Core() && PlayoutOk() && LenOk()
    }

    ghost predicate Core()
      reads this`nodes, this`nodeList, this`allocatedNodes, this`visibleNodes, this`nodeHash, this`unique, this`tally
      reads this`completeFrames
      reads this`ledger, this`maxPacketLen, this`missing, this`nextSeq, this`past, this`highestDroppedTs, nodes
    {
      && Shape() && FramesOk() && LedgerOk() && PoolOk() && LossOk() && LogOk()
      && (!kind.Video? ==> highestDroppedTs == 0)
    }

    /** p belongs to a frame older than one already dropped. */
    ghost predicate Ignores(p: Packet)
      reads this`highestDroppedTs
    {
      highestDroppedTs != 0 && p.ts < highestDroppedTs
    }

    ghost predicate GapReset(p: Packet)
      reads this`nextSeq
    {
      kind.Video? && !queueOnly && GapTooBig(nextSeq, p.seqNo, maxFrameLen)
    }

    /** Putting p empties the buffer and leaves it empty. */
    ghost predicate Empties(p: Packet)
      reads this`nextSeq, this`wrote, this`visibleNodes, this`allocatedNodes, this`maxPacketLen
    {
      !GapReset(p) && (PoolFull() || Jumps(p))
    }

    method FrameInc(i: int)
      requires -1 <= i <= 1
      modifies this`frameLen, this`highestFrameLen
      ensures frameLen == FrameIncLen(old(frameLen), i, minFrameLen, maxFrameLen)
      ensures highestFrameLen == Max(old(highestFrameLen), frameLen)
      ensures old(LenOk()) ==> LenOk()
    {
      frameLen := FrameIncLen(frameLen, i, minFrameLen, maxFrameLen);
      if frameLen > highestFrameLen {
        highestFrameLen := frameLen;
      }
    }

    /** The playout length grows by a frame when a packet asked for again comes too late. */
    function LenAfterLate(len: U32, late: bool): U32 {
      if late then FrameIncLen(len, 1, minFrameLen, maxFrameLen) else len
    }

    /** It also grows before a gap that is wider. */
    function LenAfterGap(len: U32, want: U16, got: U16): U32 {
      if got > want && len < got - want then FrameIncLen(len, 1, minFrameLen, maxFrameLen) else len
    }

    method MarkMissing(want: U16, got: U16)
      requires want < got && got !in missing
      modifies this`missing
      ensures missing == Noted(old(missing), want, got)
    {
      var i: int := want;
      while i < got
        invariant want <= i <= got
        invariant missing.Keys == old(missing.Keys) + Span(want, i)
        invariant forall k :: k in missing ==> missing[k] == if want <= k < i then 1 else old(missing)[k]
      {
        missing := missing[i := 1];
        i := i + 1;
      }
    }

    /** The playout length once number got has arrived. */
    ghost function LenAfter(got: U16): U32
      reads this`frameLen, this`missing, this`targetSeq, this`nextSeq
    {
      if !kind.Video? || queueOnly then frameLen
      else
        var len := LenAfterLate(frameLen, got in missing && got < targetSeq);
        if GapTooBig(nextSeq, got, maxFrameLen) then len else LenAfterGap(len, Want(nextSeq, got), got)
    }

    /** Note the arrival of number got in a receiving video buffer. */
    method TrackArrival(got: U16)
      requires kind.Video? && !queueOnly && Shape() && FramesOk() && LedgerOk()
      modifies this`visibleNodes, this`nodeHash, this`completeFrames, this`nodes, this`nodeList
      modifies nodes`visible, nodes`next, nodes`prev
      modifies this`missing, this`lastTargetSeq, this`targetSeq, this`nextSeq, this`wrote, this`read, this`period
      modifies this`unique, this`tally, this`past, this`ledger, this`frameLen, this`highestFrameLen
      ensures ledger.accepted == old(ledger).accepted
      ensures ledger.delivered == old(ledger).delivered && ledger.frameDrops == old(ledger).frameDrops
      ensures Shape() && FramesOk() && LedgerOk() && nodes == old(nodes)
      ensures (old(LenOk()) ==> LenOk()) && frameLen == old(LenAfter(got))
      ensures nextSeq == NextAfter(old(nextSeq), got)
      ensures !GapTooBig(old(nextSeq), got, maxFrameLen) ==>
        && missing == Noted(old(missing), Want(old(nextSeq), got), got)
        && past == old(past).(gots := old(past).gots + [got])
        && unchanged(this`visibleNodes, this`nodeHash, this`completeFrames, this`wrote, this`unique, this`tally,
                     this`ledger, this`targetSeq, this`lastTargetSeq, this`read, this`period)
        && Visible() == old(Visible())
      ensures GapTooBig(old(nextSeq), got, maxFrameLen) ==>
        && missing == map[] && past == NO_HISTORY.(gots := [got]) && nodeHash == map[] && Visible() == {}
        && wrote == UNSET && targetSeq == 0 && unique && tally == NO_TALLY && visibleNodes == 0
    {
      hide *;
      var want := Want(nextSeq, got);
      ArrivalIs(nextSeq, got);
      LenAfterIs(got);
      ClearMissing(got);
      ClearedIs(old(missing), want, got);
      if got > want {
        NoteGap(want, got);
      }
      if got >= want || want - got > 1000 {
        nextSeq := (got + 1) % 0x1_0000;
      }
      past := past.(gots := past.gots + [got]);
    }

    lemma ArrivalIs(next: U16, got: U16)
      ensures
        var want := Want(next, got);
        && (GapTooBig(next, got, maxFrameLen) <==> got > want && TooWide(want, got))
        && NextAfter(next, got) == if got >= want || want - got > 1000 then (got + 1) % 0x1_0000 else next
      ensures NO_HISTORY.gots == [] && [] + [got] == [got]
    {
    }

    lemma LenAfterIs(got: U16)
      requires kind.Video? && !queueOnly
      ensures
        var want, len := Want(nextSeq, got), LenAfterLate(frameLen, got in missing && got < targetSeq);
        LenAfter(got) == if got > want && !TooWide(want, got) then LenAfterGap(len, want, got) else len
    {
    }

    static lemma ClearedIs(m: Pending, want: U16, got: U16)
      ensures Noted(m, want, got) == if want < got then Noted(m - {got}, want, got) else m - {got}
    {
    }

    /** The gap from want to got is not worth repairing. */
    predicate TooWide(want: U16, got: U16) { got - want > maxFrameLen && got - want > 17 }

    /** Give up on too wide a gap, or else mark the numbers in it missing. */
    method NoteGap(want: U16, got: U16)
      requires want < got && got !in missing && kind.Video? && Shape() && FramesOk() && LedgerOk()
      modifies this`visibleNodes, this`nodeHash, this`completeFrames, this`nodes, this`nodeList
      modifies nodes`visible, nodes`next, nodes`prev
      modifies this`missing, this`lastTargetSeq, this`targetSeq, this`nextSeq, this`wrote, this`read, this`period
      modifies this`unique, this`tally, this`past, this`ledger, this`frameLen, this`highestFrameLen
      ensures ledger.accepted == old(ledger).accepted
      ensures ledger.delivered == old(ledger).delivered && ledger.frameDrops == old(ledger).frameDrops
      ensures Shape() && FramesOk() && LedgerOk() && nodes == old(nodes)
      ensures old(LenOk()) ==> LenOk()
      ensures frameLen == if TooWide(want, got) then old(frameLen) else LenAfterGap(old(frameLen), want, got)
      ensures TooWide(want, got) ==>
        && missing == map[] && past == NO_HISTORY && nodeHash == map[] && Visible() == {}
        && wrote == UNSET && targetSeq == 0 && unique && tally == NO_TALLY && visibleNodes == 0
      ensures !TooWide(want, got) ==>
        && missing == Noted(old(missing), want, got)
        && unchanged(this`visibleNodes, this`nodeHash, this`completeFrames, this`wrote, this`unique, this`tally,
                     this`ledger, this`targetSeq, this`lastTargetSeq, this`read, this`period, this`nextSeq, this`past)
        && Visible() == old(Visible())
    {
      hide *;
      GapIs(want, got);
      if got - want > maxFrameLen && got - want > 17 {
        ResetForGap();
        WasResetIs();
      } else {
        if frameLen < got - want {
          FrameInc(1);
        }
        MarkMissing(want, got);
      }
    }

    lemma GapIs(want: U16, got: U16)
      requires want < got
      ensures TooWide(want, got) <==> got - want > maxFrameLen && got - want > 17
      ensures LenAfterGap(frameLen, want, got) ==
              if frameLen < got - want then FrameIncLen(frameLen, 1, minFrameLen, maxFrameLen) else frameLen
    {
    }

    method ClearMissing(got: U16)
      modifies this`missing, this`frameLen, this`highestFrameLen
      ensures missing == old(missing) - {got}
      ensures frameLen == LenAfterLate(old(frameLen), got in old(missing) && got < targetSeq)
      ensures old(LenOk()) ==> LenOk()
    {
      if got in missing {
        missing := missing - {got};
        if got < targetSeq {
          FrameInc(1);
        }
      }
    }

    /** Reset, which accounts for every packet it throws away. */
    method ResetForGap()
      requires Shape() && LedgerOk()
      modifies this`visibleNodes, this`nodeHash, this`completeFrames, this`nodes, this`nodeList
      modifies nodes`visible, nodes`next, nodes`prev
      modifies this`missing, this`lastTargetSeq, this`targetSeq, this`nextSeq, this`wrote, this`read, this`period
      modifies this`unique, this`tally, this`past, this`ledger
      ensures ledger.accepted == old(ledger).accepted
      ensures ledger.delivered == old(ledger).delivered && ledger.frameDrops == old(ledger).frameDrops
      ensures Shape() && FramesOk() && LedgerOk() && nodes == old(nodes) && Visible() == {}
      ensures WasReset() && wrote == UNSET
    {
      hide DoublyLinked;
      Reset();
    }

    /** The numbers tracked for loss, once p has arrived. */
    ghost function Tracked(p: Packet): seq<U16>
      reads this`past
    {
      if kind.Video? && !queueOnly then past.gots + [p.seqNo] else past.gots
    }

    /** Take in a packet. */
    method PutPacket(p: Packet) returns (ghost into: Node?)
      requires Valid()
      modifies this, nodes
      ensures Valid()
      ensures fresh(set n | n in nodes && n !in old(nodes)) && Adds(old(Held()), Held(), into, p)
      ensures ledger.accepted == old(ledger).accepted + if into == null then 0 else 1
      ensures ledger.delivered == old(ledger).delivered && ledger.frameDrops == old(ledger).frameDrops
      ensures into == null <==> old(Ignores(p) || (!GapReset(p) && PoolFull()))
      ensures old(Ignores(p)) ==> unchanged(this) && Stored() == old(Stored()) && Held() == old(Held())
      ensures !old(Ignores(p)) ==> highestDroppedTs == 0 && frameLen == old(LenAfter(p.seqNo))
      ensures !old(Ignores(p)) && old(Empties(p)) ==>
        && Stored() == map[] && past == NO_HISTORY && visibleNodes == 0
        && wrote == (if old(PoolFull()) then UNSET else NextWrote(UNSET, p, kind))
      ensures !old(Ignores(p)) && !old(Empties(p)) && !old(GapReset(p)) ==>
        && Stored() == old(Stored())[p.seqNo := Restored(p)]
        && past == old(past).(log := old(past).log + [p], gots := old(Tracked(p)))
        && wrote == NextWrote(old(wrote), p, kind)
        && unique == (old(unique) && p.seqNo !in old(nodeHash)) && tally == Missed(old(tally), Uncounted(old(wrote), p))
        && completeFrames == old(completeFrames) + (if !kind.Video? || Ends(old(wrote), p) then 1 else 0)
        && Keeps(Kept(old(wrote), p))
        && missing == old(MissingOnce(p.seqNo)) && nextSeq == old(NextOnce(p.seqNo))
        && unchanged(this`targetSeq, this`lastTargetSeq, this`read, this`period)
      ensures !old(Ignores(p)) && old(GapReset(p)) ==>
        && Stored() == map[p.seqNo := Restored(p)]
        && past == NO_HISTORY.(log := [p], gots := [p.seqNo])
        && wrote == NextWrote(UNSET, p, kind) && unique && tally == Missed(NO_TALLY, MarkOn(p)) && Keeps(p)
        && missing == map[] && nextSeq == old(NextOnce(p.seqNo)) && targetSeq == 0
    {
      hide *;
      PutIs(p);
      into := null;
      if highestDroppedTs != 0 {
        if p.ts < highestDroppedTs {
          AddsNone(Held(), p);
          return;
        }
        StopIgnoring();
      }
      Arrive(p);
      ghost var held := Held();
      NotFull(p);
      into := BufferPacket(p);
      AddsTo(old(Held()), held, Held(), into, p);
    }

    /** What the cases of PutPacket come to. */
    lemma PutIs(p: Packet)
      ensures Ignores(p) <==> highestDroppedTs != 0 && p.ts < highestDroppedTs
      ensures Empties(p) <==> !GapReset(p) && (PoolFull() || Jumps(p))
      ensures UNSET == Highest(false, 0, 0) && Kept(UNSET, p) == p && Uncounted(UNSET, p) == MarkOn(p)
      ensures NO_HISTORY.log == [] && [] + [p] == [p]
    {
    }

    /** After a gap there is nothing that could be full or jump. */
    lemma NotFull(p: Packet)
      ensures visibleNodes == 0 && !wrote.init ==> !PoolFull() && !Jumps(p)
    {
    }

    static lemma AddsNone(h: map<Node, Packet>, p: Packet)
      ensures Adds(h, h, null, p)
    {
    }

    static lemma AddsTo(h: map<Node, Packet>, h': map<Node, Packet>, h'': map<Node, Packet>, into: Node?, p: Packet)
      requires Adds(h', h'', into, p) && (h' == h || h' == map[])
      ensures Adds(h, h'', into, p)
    {
    }

    method StopIgnoring()
      requires Valid()
      modifies this`highestDroppedTs
      ensures Valid() && highestDroppedTs == 0
    {
      hide DoublyLinked, Shape, FramesOk, LedgerOk, PoolOk, LossOk, PlayoutOk;
      highestDroppedTs := 0;
    }

    /** Update the expected number, and in a receiving video buffer the missing ones. */
    method Arrive(p: Packet)
      requires Valid()
      modifies this`visibleNodes, this`nodeHash, this`completeFrames, this`nodes, this`nodeList
      modifies nodes`visible, nodes`next, nodes`prev
      modifies this`missing, this`lastTargetSeq, this`targetSeq, this`nextSeq, this`wrote, this`read, this`period
      modifies this`unique, this`tally, this`past, this`ledger, this`frameLen, this`highestFrameLen
      ensures ledger.accepted == old(ledger).accepted
      ensures ledger.delivered == old(ledger).delivered && ledger.frameDrops == old(ledger).frameDrops
      ensures Valid() && nodes == old(nodes)
      ensures frameLen == old(LenAfter(p.seqNo)) && nextSeq == old(NextOnce(p.seqNo))
      ensures !old(GapReset(p)) ==>
        && Stored() == old(Stored()) && Held() == old(Held()) && past == old(past).(gots := old(Tracked(p)))
        && missing == old(MissingOnce(p.seqNo))
        && unchanged(this`visibleNodes, this`nodeHash, this`wrote, this`unique, this`tally, this`ledger,
                     this`completeFrames, this`targetSeq, this`lastTargetSeq, this`read, this`period)
      ensures old(GapReset(p)) ==>
        && Stored() == map[] && Held() == map[] && past == NO_HISTORY.(gots := [p.seqNo]) && missing == map[]
        && nodeHash == map[] && wrote == UNSET && unique && tally == NO_TALLY && visibleNodes == 0 && targetSeq == 0
    {
      hide *;
      Parts();
      CoreIs();
      LogIs();
      LossIs();
      HeldIs();
      Storable();
      OnceIs(p);
      ghost var was := past;
      if queueOnly || !kind.Video? {
        nextSeq := (p.seqNo + 1) % 0x1_0000;
      } else {
        ZeroNeverMissing(Track(nextSeq, missing.Keys), p.seqNo, maxFrameLen);
        TrackArrival(p.seqNo);
        Arrived(p, old(nextSeq), old(missing), was);
      }
      HeldIs();
      Storable();
      CoreIs();
      LogIs();
      LossIs();
      Parts();
    }

    /** The loss bookkeeping agrees with the numbers received, p's among them. */
    lemma Arrived(p: Packet, next: U16, m: Pending, was: History)
      requires kind.Video? && !queueOnly && nextSeq == NextAfter(next, p.seqNo)
      requires 0 !in PutTrack(Track(next, m.Keys), p.seqNo, maxFrameLen).missing
      requires !was.expired ==> Track(next, m.Keys) == TrackRun(was.gots, maxFrameLen)
      requires if GapTooBig(next, p.seqNo, maxFrameLen) then missing == map[] && past == NO_HISTORY.(gots := [p.seqNo])
               else missing == Noted(m, Want(next, p.seqNo), p.seqNo) && past == was.(gots := was.gots + [p.seqNo])
      ensures LossOk() && (GapTooBig(next, p.seqNo, maxFrameLen) ==> past.slots == [])
    {
      hide *;
      LossIs();
      GapIsReset(next, p.seqNo);
      if GapTooBig(next, p.seqNo, maxFrameLen) {
        GapRestarts(next, p.seqNo, maxFrameLen);
      } else {
        NotedKeys(m, next, p.seqNo, maxFrameLen);
        TrackRunAppend(was.gots, p.seqNo, maxFrameLen);
      }
    }

    lemma GapIsReset(next: U16, got: U16)
      ensures GapTooBig(next, got, maxFrameLen) ==>
        PutTrack(Track(next, {}), got, maxFrameLen) == Track(NextAfter(next, got), {})
      ensures var none: Pending := map[]; none.Keys == {} && NO_HISTORY.slots == []
    {
    }

    /** The number expected next, and those pending, once number got has arrived. */
    ghost function NextOnce(got: U16): U16
      reads this`nextSeq
    {
      if kind.Video? && !queueOnly then NextAfter(nextSeq, got) else (got + 1) % 0x1_0000
    }

    ghost function MissingOnce(got: U16): Pending
      reads this`nextSeq, this`missing
    {
      if kind.Video? && !queueOnly then Noted(missing, Want(nextSeq, got), got) else missing
    }

    lemma OnceIs(p: Packet)
      ensures
        if kind.Video? && !queueOnly then
          && NextOnce(p.seqNo) == NextAfter(nextSeq, p.seqNo) && Tracked(p) == past.gots + [p.seqNo]
          && MissingOnce(p.seqNo) == Noted(missing, Want(nextSeq, p.seqNo), p.seqNo)
          && GapReset(p) == GapTooBig(nextSeq, p.seqNo, maxFrameLen)
        else
          && NextOnce(p.seqNo) == (p.seqNo + 1) % 0x1_0000 && MissingOnce(p.seqNo) == missing
          && LenAfter(p.seqNo) == frameLen && Tracked(p) == past.gots && !GapReset(p)
    {
    }

    /** AddNode, and the check whether to evict. */
    method BufferPacket(p: Packet) returns (ghost into: Node?)
      requires Valid()
      modifies this`visibleNodes, this`nodeHash, this`completeFrames, this`nodes, this`nodeList, this`allocatedNodes
      modifies nodes
      modifies this`missing, this`lastTargetSeq, this`targetSeq, this`nextSeq, this`wrote, this`read, this`period
      modifies this`unique, this`tally, this`past, this`ledger, this`packetCount, this`maxPacketLen
      ensures Valid()
      ensures fresh(set n | n in nodes && n !in old(nodes)) && Adds(old(Held()), Held(), into, p)
      ensures ledger.accepted == old(ledger).accepted + if into == null then 0 else 1
      ensures ledger.delivered == old(ledger).delivered && ledger.frameDrops == old(ledger).frameDrops
      ensures into == null <==> old(PoolFull())
      ensures old(PoolFull() || Jumps(p)) ==>
        && Stored() == map[] && past == NO_HISTORY && visibleNodes == 0
        && wrote == (if old(PoolFull()) then UNSET else NextWrote(UNSET, p, kind))
      ensures !old(PoolFull() || Jumps(p)) ==>
        && Stored() == old(Stored())[p.seqNo := Restored(p)] && past == old(past).(log := old(past).log + [p])
        && wrote == NextWrote(old(wrote), p, kind)
        && unique == (old(unique) && p.seqNo !in old(nodeHash)) && tally == Missed(old(tally), Uncounted(old(wrote), p))
        && completeFrames == old(completeFrames) + (if !kind.Video? || Ends(old(wrote), p) then 1 else 0)
        && Keeps(Kept(old(wrote), p))
        && unchanged(this`missing, this`lastTargetSeq, this`targetSeq, this`nextSeq, this`read, this`period)
    {
      hide *;
      Parts();
      CoreIs();
      LogIs();
      LossIs();
      ghost var stored, was := Stored(), past;
      into := AddNode(p);
      CoreIs();
      LogIs();
      LossIs();
      if old(PoolFull() || Jumps(p)) {
        ResetParts();
      } else if queueOnly {
        WithinPut(stored, was.log, was.tapped, p);
      }
      Parts();
      if queueOnly && maxPacketLen > 0 && allocatedNodes > maxFrameLen * 2 - 1 {
        assert false;  // the eviction loop: a retransmission buffer never learns a frame's length in packets
      }
    }

    lemma Parts()
      ensures Valid() <==> Core() && PlayoutOk() && LenOk()
      ensures PlayoutOk() <==> if kind.Video? then past.slots == [] else SlotsOk(past.slots, targetSeq)
    {
      hide Core, SlotsOk;
    }

    lemma LossIs()
      ensures LossOk() <==>
        if kind.Video? && !queueOnly then
          0 !in missing && (!past.expired ==> Track(nextSeq, missing.Keys) == TrackRun(past.gots, maxFrameLen))
        else missing == map[]
    {
      hide TrackRun;
    }

    /** What a reset leaves behind meets the invariants. */
    lemma ResetParts()
      requires Shape() && WasReset() && (!kind.Video? ==> missing == map[]) && (queueOnly ==> maxPacketLen == 0)
      ensures IndexOk() && LossOk() && PlayoutOk() && LogOk() && Stored() == map[] && visibleNodes == 0
      ensures past == NO_HISTORY
    {
      hide DoublyLinked;
    }

    method Hit()
      modifies this`period
      ensures
        var p := old(period);
        period == p.(good := p.good + 1, consecGood := p.consecGood + 1, consecMiss := 0)
    {
      period := period.(good := period.good + 1, consecGood := period.consecGood + 1, consecMiss := 0);
    }

    method Miss()
      modifies this`period
      ensures
        var p := old(period);
        period == p.(miss := p.miss + 1, consecMiss := p.consecMiss + 1, consecGood := 0)
    {
      period := period.(miss := period.miss + 1, consecMiss := period.consecMiss + 1, consecGood := 0);
    }

    method IncrementSeq()
      modifies this`lastTargetSeq, this`targetSeq
      ensures lastTargetSeq == old(targetSeq) && targetSeq == (old(targetSeq) + 1) % 0x1_0000
    {
      lastTargetSeq := targetSeq;
      targetSeq := (targetSeq + 1) % 0x1_0000;
    }

    method SetReadSeq(seqNo: U16)
      modifies this`lastTargetSeq, this`targetSeq
      ensures lastTargetSeq == seqNo && targetSeq == (seqNo + 1) % 0x1_0000
    {
      lastTargetSeq := seqNo;
      targetSeq := (seqNo + 1) % 0x1_0000;
    }

    /** Of the ten numbers after target, the first that is indexed is at k. */
    static ghost predicate FirstAhead(index: map<U16, Node>, target: U16, k: nat) {
      k < 10 && Following(target, k) in index && forall i :: 0 <= i < k ==> Following(target, i) !in index
    }

    static ghost predicate NoneAhead(index: map<U16, Node>, target: U16) {
      forall i :: 0 <= i < 10 ==> Following(target, i) !in index
    }

    /** The packet is the last of its frame, or of the frame read last, which is then dropped. */
    static predicate Stranded(p: Packet, readTs: U32) { p.marker || p.ts == readTs }

    /** What is left to start from once the frame of a stranded packet has gone. */
    static ghost predicate LeftToStart(node: Node?, from: set<Node>, ts: U32)
      reads from`packet
    {
      if node == null then forall n :: n in from ==> n.packet.ts == ts
      else
        && node in from && node.packet.ts != ts
        && (node.packet.seqNo == 0
            || forall n :: n in from && n.packet.ts != ts ==> node.packet.seqNo <= n.packet.seqNo)
    }

    /** Past a missing video number, look at the next ten: the first one buffered. */
    method SkipAhead() returns (node: Node?, ghost tries: nat)
      modifies this`lastTargetSeq, this`targetSeq
      ensures tries < 10 && targetSeq == Following(old(targetSeq), tries)
      ensures forall i :: 0 <= i < tries ==> Following(old(targetSeq), i) !in nodeHash
      ensures node == null ==> tries == 9 && targetSeq !in nodeHash
      ensures node != null ==> targetSeq in nodeHash && nodeHash[targetSeq] == node
    {
      node := null;
      tries := 0;
      var x := 0;
      while x < 10
        invariant node == null && 0 <= x <= 10
        invariant x == 0 ==> targetSeq == old(targetSeq)
        invariant x > 0 ==> tries == x - 1 && targetSeq == Following(old(targetSeq), tries)
        invariant forall i :: 0 <= i < x ==> Following(old(targetSeq), i) !in nodeHash
      {
        IncrementSeq();
        tries := x;
        assert targetSeq == Following(old(targetSeq), x);
        if targetSeq in nodeHash {
          node := nodeHash[targetSeq];
          return;
        }
        x := x + 1;
      }
    }

    /** Where to start when there is no target: number 0 if indexed, or else the lowest. */
    static ghost predicate Lowest(node: Node?, from: set<Node>, index: map<U16, Node>)
      reads from`packet
    {
      if from == {} then node == null
      else if 0 in index then node == index[0]
      else node in from && forall n :: n in from ==> node.packet.seqNo <= n.packet.seqNo
    }

    method StartingPoint() returns (node: Node?)
      requires Shape()
      ensures Lowest(node, Visible(), nodeHash)
      ensures node == null <==> visibleNodes == 0
      ensures node != null ==> node in nodes && node.visible
      ensures 0 in nodeHash ==> node == nodeHash[0]
      ensures 0 !in nodeHash && node != null ==>
        forall n :: n in nodes && n.visible ==> node.packet.seqNo <= n.packet.seqNo
    {
      hide DoublyLinked;
      if 0 in nodeHash {
        node := nodeHash[0];
      } else {
        node := FindLowestSeq(0);
      }
      if node == null {
        assert Visible() == {};
      } else {
        assert node in Visible();
      }
    }

    /** What a video read from a target gets: the packet under it, or the first of the
        next ten, unless that one is stranded, or nothing. */
    static ghost predicate NextVideo(node: Node?, from: set<Node>, index: map<U16, Node>, target: U16,
                                     readTs: U32, droppedTs: U32)
      reads from`packet, index.Values`packet
    {
      if target in index then node == index[target]
      else
        && (NoneAhead(index, target) ==> node == null)
        && forall k {:trigger Following(target, k)} :: 0 <= k && FirstAhead(index, target, k) ==>
             var found := index[Following(target, k)];
             if Stranded(found.packet, readTs)
               then droppedTs == found.packet.ts && LeftToStart(node, from, found.packet.ts)
             else node == found
    }

    /** Past a target that is missing, the first of the next ten numbers is the last of its
        frame or lies in the frame read last: then nothing of that frame is left. */
    static ghost predicate BrokenGone(left: set<Node>, index: map<U16, Node>, target: U16, readTs: U32)
      reads left`packet, index.Values`packet
    {
      target !in index ==>
        forall k {:trigger Following(target, k)} :: 0 <= k && FirstAhead(index, target, k) ==>
          var found := index[Following(target, k)].packet;
          found.marker || found.ts == readTs ==> forall n :: n in left ==> n.packet.ts != found.ts
    }

    static lemma BrokenGoneLess(left: set<Node>, less: set<Node>, index: map<U16, Node>, target: U16, readTs: U32)
      requires BrokenGone(left, index, target, readTs) && less <= left
      ensures BrokenGone(less, index, target, readTs)
    {
      hide Following;
    }

    static lemma NothingBroken(left: set<Node>, index: map<U16, Node>, target: U16, readTs: U32)
      requires target in index || left == {}
      ensures BrokenGone(left, index, target, readTs)
    {
    }

    /** Playing on behind a missing packet, the packet found is not the last of its frame
        and not of the frame read last. */
    lemma PlaysOn(node: Node, was: set<Node>, index: map<U16, Node>, target: U16, readTs: U32, k: nat)
      requires Chosen(node, was, index, target, false, readTs) && kind.Video? && target !in index
      requires FirstAhead(index, target, k) && node == index[Following(target, k)]
      ensures !node.packet.marker && node.packet.ts != readTs
    {
      hide Following;
    }

    lemma NotBroken(node: Node, p: Packet, was: set<Node>, index: map<U16, Node>, target: U16, readTs: U32)
      requires Chosen(node, was, index, target, false, readTs) && kind.Video? && p == Restored(node.packet)
      ensures target !in index ==>
        forall k: nat :: FirstAhead(index, target, k) && node == index[Following(target, k)] ==>
          !p.marker && p.ts != readTs
    {
      hide *;
      SameNumber(node.packet);
      if target !in index {
        AheadIndexed(index, target);
        forall k: nat | FirstAhead(index, target, k) && node == index[Following(target, k)]
          ensures !p.marker && p.ts != readTs
        {
          PlaysOn(node, was, index, target, readTs, k);
        }
      }
    }

    /** The node to play next, if there is one; the target moves past its number. */
    method NextPacketBySeq() returns (node: Node?)
      requires Core() && MayRead()
      modifies this`dropped, this`targetSeq, this`lastTargetSeq, this`period, this`frameLen, this`highestFrameLen
      modifies this`highestDroppedTs
      modifies this`visibleNodes, this`nodeHash, this`completeFrames, this`nodes, this`nodeList, this`ledger, this`tally
      modifies nodes`visible, nodes`next, nodes`prev
      ensures Core() && (old(LenOk()) ==> LenOk())
      ensures (forall n :: n in nodes <==> n in old(nodes)) && Visible() <= old(Visible())
      ensures ledger.delivered == old(ledger).delivered
      ensures completeFrames <= old(completeFrames) && tally.missed == old(tally.missed)
      ensures node != null ==> node in nodes && node.visible && node in old(Visible())
      ensures node != null ==> lastTargetSeq == node.packet.seqNo && targetSeq == (node.packet.seqNo + 1) % 0x1_0000
      ensures !kind.Video? ==> unchanged(this`visibleNodes, this`nodeHash, this`completeFrames, this`nodes, this`ledger)
      ensures old(Starts()) ==> Visible() == old(Visible()) && highestDroppedTs == old(highestDroppedTs)
      ensures Chosen(node, old(Visible()), old(nodeHash), old(targetSeq), old(Starts()), read.ts)
      ensures kind.Video? && !old(Starts()) ==> BrokenGone(Visible(), old(nodeHash), old(targetSeq), read.ts)
      ensures !kind.Video? && old(targetSeq) == 0 && visibleNodes > 0 ==> node != null
      ensures !kind.Video? && old(targetSeq) != 0 ==>
        lastTargetSeq == old(targetSeq) && targetSeq == (old(targetSeq) + 1) % 0x1_0000
      decreases dropped == 0, 1
    {
      hide *;
      Indexed(targetSeq);
      StartsIs();
      if kind.Video? && dropped > 0 {
        dropped := 0;
        targetSeq := 0;
      }
      if targetSeq == 0 {
        node := TakeLowest();
      } else if targetSeq in nodeHash {
        node := nodeHash[targetSeq];
        Aim(node);
        Play(old(Visible()), nodeHash, old(targetSeq), read.ts, highestDroppedTs);
        NothingBroken(Visible(), nodeHash, old(targetSeq), read.ts);
      } else if kind.Video? {
        node := AfterMiss();
      } else {
        Miss();
        IncrementSeq();
        node := null;
      }
      ChosenIs(node, old(Visible()), old(nodeHash), old(targetSeq), old(Starts()), read.ts);
    }

    /** A hit: the target moves past the node. */
    method Aim(node: Node)
      modifies this`period, this`lastTargetSeq, this`targetSeq
      ensures lastTargetSeq == node.packet.seqNo && targetSeq == (node.packet.seqNo + 1) % 0x1_0000
    {
      Hit();
      SetReadSeq(node.packet.seqNo);
    }

    /** Without a target, play from the starting point. */
    method TakeLowest() returns (node: Node?)
      requires Shape()
      modifies this`period, this`lastTargetSeq, this`targetSeq
      ensures Lowest(node, Visible(), nodeHash) && (node == null <==> visibleNodes == 0)
      ensures node != null ==> node in nodes && node.visible && node in Visible()
      ensures node != null ==> lastTargetSeq == node.packet.seqNo && targetSeq == (node.packet.seqNo + 1) % 0x1_0000
    {
      hide *;
      node := StartingPoint();
      assert Lowest(node, old(Visible()), old(nodeHash));
      if node == null {
        Hit();
      } else {
        InVisible(node);
        Aim(node);
      }
      assert Lowest(node, old(Visible()), old(nodeHash));
    }

    static lemma Reached(index: map<U16, Node>, target: U16, tries: nat)
      requires tries < 10 && forall i :: 0 <= i < tries ==> Following(target, i) !in index
      requires Following(target, tries) in index || tries == 9
      ensures NoneAhead(index, target) <==> Following(target, tries) !in index
      ensures forall k {:trigger Following(target, k)} :: 0 <= k && FirstAhead(index, target, k) ==>
                k == tries && Following(target, tries) in index
    {
      hide Following;
      forall k: nat | FirstAhead(index, target, k)
        ensures k == tries && Following(target, tries) in index
      {
        assert k < tries ==> Following(target, k) !in index;
        assert tries < k ==> Following(target, tries) !in index;
      }
    }

    static lemma AheadIndexed(index: map<U16, Node>, target: U16)
      ensures forall k {:trigger Following(target, k)} :: 0 <= k && FirstAhead(index, target, k) ==>
        Following(target, k) in index
    {
    }

    /** A video read that missed its target: what there is further on. */
    method AfterMiss() returns (node: Node?)
      requires Core() && MayRead() && kind.Video? && dropped == 0 && targetSeq != 0 && targetSeq !in nodeHash
      modifies this`dropped, this`targetSeq, this`lastTargetSeq, this`period, this`frameLen, this`highestFrameLen
      modifies this`highestDroppedTs
      modifies this`visibleNodes, this`nodeHash, this`completeFrames, this`nodes, this`nodeList, this`ledger, this`tally
      modifies nodes`visible, nodes`next, nodes`prev
      ensures Core() && (old(LenOk()) ==> LenOk())
      ensures (forall n :: n in nodes <==> n in old(nodes)) && Visible() <= old(Visible())
      ensures ledger.delivered == old(ledger).delivered
      ensures completeFrames <= old(completeFrames) && tally.missed == old(tally.missed)
      ensures node != null ==> node in nodes && node.visible && node in old(Visible())
      ensures node != null ==> lastTargetSeq == node.packet.seqNo && targetSeq == (node.packet.seqNo + 1) % 0x1_0000
      ensures BrokenGone(Visible(), old(nodeHash), old(targetSeq), read.ts)
      ensures NextVideo(node, old(Visible()), old(nodeHash), old(targetSeq), read.ts, highestDroppedTs)
      decreases dropped == 0, 0
    {
      hide *;
      Indexed(0);
      AheadIndexed(nodeHash, targetSeq);
      var again;
      node, again := AfterVideoMiss();
      if !again {
        Skip(node, old(Visible()), old(nodeHash), old(targetSeq), read.ts, highestDroppedTs);
        NoneBroken(Visible(), old(nodeHash), old(targetSeq), read.ts);
        return;
      }
      assert forall i :: 0 <= i < |nodes| ==> nodes[i] in old(nodes);
      Indexed(0);
      ghost var left, index, targetSeq' := Visible(), nodeHash, targetSeq;
      Gone(left, old(nodeHash), old(targetSeq), read.ts, highestDroppedTs);
      StartsIs();
      node := NextPacketBySeq();
      BrokenGoneLess(left, Visible(), old(nodeHash), old(targetSeq), read.ts);
      ChosenIs(node, left, index, targetSeq', true, read.ts);
      assert forall n :: n in old(Visible()) ==> n.packet == old(n.packet);
      Resume(node, old(Visible()), left, old(nodeHash), index, old(targetSeq), read.ts, highestDroppedTs);
    }

    static lemma Play(from: set<Node>, index: map<U16, Node>, target: U16, readTs: U32, droppedTs: U32)
      requires target in index
      ensures NextVideo(index[target], from, index, target, readTs, droppedTs)
    {
    }

    static lemma NoneBroken(left: set<Node>, index: map<U16, Node>, target: U16, readTs: U32)
      requires forall k {:trigger Following(target, k)} :: 0 <= k && FirstAhead(index, target, k) ==>
                 !Stranded(index[Following(target, k)].packet, readTs)
      ensures BrokenGone(left, index, target, readTs)
    {
      hide Following;
    }

    static lemma Gone(left: set<Node>, index: map<U16, Node>, target: U16, readTs: U32, droppedTs: U32)
      requires forall k {:trigger Following(target, k)} :: 0 <= k && FirstAhead(index, target, k) ==>
                 droppedTs == index[Following(target, k)].packet.ts
      requires forall n :: n in left ==> n.packet.ts != droppedTs
      ensures BrokenGone(left, index, target, readTs)
    {
      hide Following;
    }

    static lemma Skip(node: Node?, from: set<Node>, index: map<U16, Node>, target: U16, readTs: U32, droppedTs: U32)
      requires target !in index && (NoneAhead(index, target) ==> node == null)
      requires forall k {:trigger Following(target, k)} :: 0 <= k && FirstAhead(index, target, k) ==>
                 var found := index[Following(target, k)];
                 !Stranded(found.packet, readTs) && node == found
      ensures NextVideo(node, from, index, target, readTs, droppedTs)
    {
    }

    static lemma Resume(node: Node?, from: set<Node>, left: set<Node>, index: map<U16, Node>, index': map<U16, Node>,
                        target: U16, readTs: U32, droppedTs: U32)
      requires target !in index && !NoneAhead(index, target)
      requires forall k {:trigger Following(target, k)} :: 0 <= k && FirstAhead(index, target, k) ==>
                 var found := index[Following(target, k)];
                 Stranded(found.packet, readTs) && droppedTs == found.packet.ts
      requires Lowest(node, left, index') && (0 in index' ==> index'[0] in left && index'[0].packet.seqNo == 0)
      requires left <= from && forall n :: n in from ==> (n in left <==> n.packet.ts != droppedTs)
      ensures NextVideo(node, from, index, target, readTs, droppedTs)
    {
      assert LeftToStart(node, from, droppedTs) by {
        if node == null { assert left == {}; }
      }
    }

    lemma Indexed(k: U16)
      requires Core()
      ensures Shape() && forall n :: n in nodes && n.visible <==> n in Visible()
      ensures forall n :: n in Visible() ==> n in nodes
      ensures k in nodeHash ==>
                nodeHash[k] in nodes && nodeHash[k].visible && nodeHash[k].packet.seqNo == k && nodeHash[k] in Visible()
    {
      hide DoublyLinked;
    }

    /** A miss; the second one of a period makes the playout longer. */
    method NoteMiss()
      modifies this`period, this`frameLen, this`highestFrameLen
      ensures old(LenOk()) ==> LenOk()
      ensures
        var p := old(period);
        var second := p.miss > 0 && p.missInc == 0;
        && period == p.(miss := p.miss + 1, consecMiss := p.consecMiss + 1, consecGood := 0,
                        missInc := if second then 1 else p.missInc)
        && frameLen == if second then FrameIncLen(old(frameLen), 1, minFrameLen, maxFrameLen) else old(frameLen)
    {
      Miss();
      if period.miss > 1 && period.missInc == 0 {
        period := period.(missInc := period.missInc + 1);
        FrameInc(1);
      }
    }

    /** The target of a video buffer is missing: skip ahead, and start over if that
        lands in a frame that has to be dropped. */
    method AfterVideoMiss() returns (node: Node?, again: bool)
      requires Core() && MayRead() && kind.Video? && dropped == 0
      modifies this`dropped, this`targetSeq, this`lastTargetSeq, this`period, this`frameLen, this`highestFrameLen
      modifies this`highestDroppedTs
      modifies this`visibleNodes, this`nodeHash, this`completeFrames, this`nodes, this`nodeList, this`ledger, this`tally
      modifies nodes`visible, nodes`next, nodes`prev
      ensures Core()
      ensures forall n :: n in nodes <==> n in old(nodes)
      ensures old(LenOk()) ==> LenOk()
      ensures Visible() <= old(Visible()) && ledger.delivered == old(ledger).delivered
      ensures completeFrames <= old(completeFrames) && tally.missed == old(tally.missed)
      ensures !again && node != null ==>
        && node in nodes && node.visible && node in Visible()
        && lastTargetSeq == node.packet.seqNo && targetSeq == (node.packet.seqNo + 1) % 0x1_0000
      ensures again ==>
        dropped > 0 && forall n :: n in old(Visible()) ==> (n in Visible() <==> n.packet.ts != highestDroppedTs)
      ensures !again ==> Visible() == old(Visible()) && unchanged(this`nodes, this`nodeHash, this`ledger, this`dropped)
      ensures NoneAhead(old(nodeHash), old(targetSeq)) ==>
        !again && node == null && targetSeq == Following(old(targetSeq), 9)
      ensures forall k {:trigger Following(old(targetSeq), k)} ::
                0 <= k && FirstAhead(old(nodeHash), old(targetSeq), k) ==>
                var found := old(nodeHash)[Following(old(targetSeq), k)];
                if Stranded(found.packet, read.ts) then again && highestDroppedTs == found.packet.ts
                  else !again && node == found
    {
      hide *;
      NoteMiss();
      again := false;
      ghost var tries;
      node, tries := SkipAhead();
      Reached(nodeHash, old(targetSeq), tries);
      Indexed(targetSeq);
      if node != null && Stranded(node.packet, read.ts) {
        DropFrame(node.packet.ts);
        again := true;
      } else if node != null {
        SetReadSeq(node.packet.seqNo);
      }
    }

    /** Drop the frame with timestamp ts, and anything older that is yet to come. */
    method DropFrame(ts: U32)
      requires Core() && MayRead() && kind.Video?
      modifies this`dropped, this`highestDroppedTs
      modifies this`visibleNodes, this`nodeHash, this`completeFrames, this`nodes, this`nodeList, this`ledger, this`tally
      modifies nodes`visible, nodes`next, nodes`prev
      ensures Core() && dropped == old(dropped) + 1 && highestDroppedTs == ts
      ensures ledger.delivered == old(ledger).delivered
      ensures completeFrames <= old(completeFrames) && tally.missed == old(tally.missed)
      ensures forall n :: n in nodes <==> n in old(nodes)
      ensures forall n :: n in nodes ==> n.visible == (old(n.visible) && n.packet.ts != ts)
      ensures Visible() <= old(Visible()) && forall n :: n in old(Visible()) ==> (n in Visible() <==> n.packet.ts != ts)
    {
      hide *;
      CoreIs();
      Storable();
      LogIs();
      ghost var stored := Stored();
      dropped := dropped + 1;
      DropTs(ts);
      LogTaken(stored, old(nodeHash));
      highestDroppedTs := ts;
      CoreIs();
    }

    lemma LogIs()
      requires IndexOk()
      ensures LogOk() <==> (queueOnly ==> maxPacketLen == 0 && Within(Stored(), past.log, past.tapped))
    {
    }

    lemma CoreIs()
      ensures Core() <==>
        && Shape() && FramesOk() && LedgerOk() && PoolOk() && LossOk() && (IndexOk() ==> LogOk())
        && (!kind.Video? ==> highestDroppedTs == 0)
      ensures Shape() ==> IndexOk() && forall k :: k in nodeHash ==> nodeHash[k] in nodes
    {
      hide DoublyLinked;
    }

    /** stored is what could be looked up, by index was, before packets were taken out. */
    lemma LogTaken(stored: map<U16, Packet>, was: map<U16, Node>)
      requires Shape() && MayRead() && Fewer(nodeHash, was) && stored.Keys == was.Keys
      requires forall k :: k in was ==> stored[k] == Restored(was[k].packet)
      requires queueOnly ==> maxPacketLen == 0 && Within(stored, past.log, past.tapped)
      ensures IndexOk() && LogOk()
    {
      hide DoublyLinked, Within;
      if queueOnly { WithinTaken(stored, past.log, Stored()); }
    }

    /** Reset as its callers outside this file see it. */
    method ResetBuffer()
      requires Valid()
      modifies this`visibleNodes, this`nodeHash, this`completeFrames, this`nodes, this`nodeList
      modifies nodes`visible, nodes`next, nodes`prev
      modifies this`missing, this`lastTargetSeq, this`targetSeq, this`nextSeq, this`wrote, this`read, this`period
      modifies this`unique, this`tally, this`past, this`ledger
      ensures Valid() && WasReset() && nodes == old(nodes)
      ensures Visible() == {} && Held() == map[] && completeFrames == 0 == Frames()
      ensures nodeHash == map[] && Stored() == map[]
      ensures ledger == old(ledger.(discarded := ledger.discarded + visibleNodes))
    {
      hide DoublyLinked, FramesOk, PoolOk;
      Reset();
      NoneHeld();
    }

    /** Hand out a node's packet: uncount its frame and put the node up for reuse. */
    method TakeOut(node: Node)
      requires Core() && MayRead() && node in nodes && node.visible
      modifies this`visibleNodes, this`nodeHash, this`completeFrames, this`nodes, this`nodeList, this`ledger, this`tally
      modifies nodes`visible, nodes`next, nodes`prev
      ensures Core() && Visible() <= old(Visible()) - {node}
      ensures completeFrames <= old(completeFrames) && tally.missed == old(tally.missed)
      ensures ledger == old(ledger).(delivered := old(ledger).delivered + 1)
      ensures forall n :: n in nodes <==> n in old(nodes)
    {
      hide *;
      CoreIs();
      Storable();
      LogIs();
      LedgerIs();
      ghost var stored := Stored();
      if kind.Video? {
        HideFrameNode(node, true);
      } else {
        HideCounted(node);
      }
      ledger := ledger.(delivered := ledger.delivered + 1);
      LedgerIs();
      FewerWithout(nodeHash, old(nodeHash), node.packet.seqNo);
      LogTaken(stored, old(nodeHash));
      CoreIs();
      InVisible(node);
    }

    lemma LedgerIs()
      ensures LedgerOk() <==> ledger.accepted == ledger.delivered + ledger.frameDrops + ledger.discarded + visibleNodes
    {
    }

    static lemma FewerWithout(a: map<U16, Node>, b: map<U16, Node>, k: U16)
      requires a == b - {k}
      ensures Fewer(a, b)
    {
    }

    /** Hiding a visible audio or text node, with its frame. */
    method HideCounted(node: Node)
      requires !kind.Video? && Shape() && FramesOk() && node in nodes && node.visible
      modifies this`visibleNodes, this`nodeHash, this`completeFrames, this`nodes, this`nodeList
      modifies nodes`visible, nodes`next, nodes`prev
      ensures Shape() && FramesOk() && visibleNodes == old(visibleNodes) - 1 && !node.visible
      ensures Visible() == old(Visible()) - {node} && completeFrames == old(completeFrames) - 1
      ensures nodeHash == old(nodeHash) - {node.packet.seqNo}
      ensures forall n :: n in nodes <==> n in old(nodes)
    {
      hide *;
      CountIs();
      FramesAudio();
      InVisible(node);
      if unique { IndexedAt(node); }
      completeFrames := completeFrames - 1;
      HideNode(node, true);
      if unique { StillIndexed(node, old(nodeHash)); }
      CountIs();
      FramesAudio();
    }

    lemma FramesAudio()
      requires !kind.Video?
      ensures FramesOk() <==> (unique ==> FullyIndexed() && tally.stale == 0) && completeFrames == visibleNodes
    {
    }

    lemma IndexedAt(node: Node)
      requires FullyIndexed()
      ensures forall n :: n in nodes && n.visible ==> n.packet.seqNo in nodeHash && nodeHash[n.packet.seqNo] == n
    {
    }

    lemma StillIndexed(node: Node, before: map<U16, Node>)
      requires nodeHash == before - {node.packet.seqNo} && node.packet.seqNo in before
      requires before[node.packet.seqNo] == node
      requires forall n :: n in nodes && n.visible ==>
        n != node && n.packet.seqNo in before && before[n.packet.seqNo] == n
      ensures FullyIndexed()
    {
    }

    /** The frame counter as the source holds it. */
    function Frames(): U32
      reads this`completeFrames
    {
      completeFrames % 0x1_0000_0000
    }

    /** A counter that has gone below zero shows as a huge number of frames. */
    lemma FramesWrap()
      ensures 0 <= completeFrames < 0x1_0000_0000 ==> Frames() == completeFrames
      ensures -0x1_0000_0000 <= completeFrames < 0 ==> Frames() == completeFrames + 0x1_0000_0000
    {
    }

    /** Text only: after ten polls of a short buffer, let what there is be read. */
    method Poll() returns (ready: bool)
      modifies this`bufferLag, this`flush
      ensures (bufferLag, flush) == Polled(kind, Frames() < frameLen, Frames() > 0, old(bufferLag), old(flush))
      ensures ready == (Frames() >= frameLen || flush)
    {
      if kind.Text? {
        if Frames() < frameLen {
          if Frames() > 0 && bufferLag == 0 {
            bufferLag := 10;
          }
          if bufferLag > 0 {
            bufferLag := bufferLag - 1;
            if bufferLag == 0 {
              flush := true;
            }
          }
        }
      }
      ready := Frames() >= frameLen || flush;
    }

    /** Success if there is enough buffered to read from. */
    method ReadReady() returns (status: Status)
      modifies this`bufferLag, this`flush
      ensures status ==
        if Frames() == 0 then Break else if Frames() < frameLen && !flush then MoreData else Success
      ensures (bufferLag, flush) ==
        if Frames() == 0 then (old(bufferLag), false)
        else if Frames() < frameLen then Polled(kind, true, Frames() > 0, old(bufferLag), old(flush))
        else (old(bufferLag), old(flush))
    {
      if Frames() == 0 {
        flush := false;
        return Break;
      }
      if Frames() < frameLen {
        var _ := Poll();
        if !flush {
          return MoreData;
        }
      }
      return Success;
    }

    method CountRead()
      modifies this`period, this`frameLen, this`highestFrameLen
      ensures period == CountedRead(old(period)) && (old(Valid()) ==> Valid())
      ensures period.count == if old(period).count >= 249 then 1 else old(period).count + 1
      ensures frameLen ==
        if old(period).count >= 249 && old(period).consecGood >= 245
        then FrameIncLen(old(frameLen), -1, minFrameLen, maxFrameLen) else old(frameLen)
    {
      hide Core, PlayoutOk;
      period := period.(count := period.count + 1);
      if period.count >= PERIOD_LEN {
        if period.consecGood >= PERIOD_LEN - 5 {
          FrameInc(-1);
        }
        period := NEW_PERIOD.(count := 1);
      }
    }

    method NoteRead(p: Packet)
      modifies this`read
      ensures read == NextRead(old(read), p, kind)
    {
      var seqNo := if !read.init || CheckSeq(p.seqNo, read.seqNo) then p.seqNo else read.seqNo;
      var ts := read.ts;
      if !kind.Video? || (read.init && CheckSeq(p.seqNo, seqNo) && CheckTs(p.ts, read.ts)) {
        ts := p.ts;
      } else if !read.init {
        ts := p.ts;
      }
      read := Highest(true, seqNo, ts);
    }

    /** There is enough buffered to read from, or what there is is to be flushed. */
    predicate Reads()
      reads this`completeFrames, this`frameLen, this`bufferLag, this`flush
    {
      Frames() > 0 && (Frames() >= frameLen || Polled(kind, true, true, bufferLag, flush).1)
    }

    /** A read that found enough buffered gets what the target calls for, if that is
        there: was is what was visible before, and index what was indexed. */
    ghost predicate Chosen(node: Node?, was: set<Node>, index: map<U16, Node>, target: U16, start: bool, readTs: U32)
      reads this`highestDroppedTs, was`packet, index.Values`packet
    {
      if start then Lowest(node, was, index)
      else if kind.Video? then NextVideo(node, was, index, target, readTs, highestDroppedTs)
      else if target in index then node == index[target] else node == null
    }

    /** There is no target to read from. */
    predicate Starts()
      reads this`targetSeq, this`dropped
    {
      targetSeq == 0 || (kind.Video? && dropped > 0)
    }

    /** Read one packet. What comes back besides Success and Timeout leaves buf's
        contents, but for the number and timestamp of a packet to conceal. */
    method GetPacket(buf: Packet) returns (status: Status, packet: Packet, ghost played: Node?)
      requires Valid()
      modifies this, nodes`visible, nodes`next, nodes`prev
      ensures Valid() && (forall n :: n in nodes ==> n in old(nodes)) && Takes(old(Held()), Held(), played)
      ensures old(Frames()) == 0 <==> status == Break
      ensures status == Timeout <==> !kind.Video? && played != null && visibleNodes > maxFrameLen * 3 / 2
      ensures status == MoreData && !kind.Video? ==> old(Frames() < frameLen)
      ensures kind.Video? ==> Frames() <= maxFrameLen * 2
      ensures status == Success || status == Timeout <==> played != null
      ensures played != null ==>
        played in old(Held()) && packet == old(Held())[played]
      ensures ledger.delivered == old(ledger).delivered + if played != null then 1 else 0
      ensures old(Starts()) ==> highestDroppedTs == old(highestDroppedTs)
      ensures old(kind.Video? && !Starts() && Reads()) ==>
        BrokenGone(Visible(), old(nodeHash), old(targetSeq), old(read.ts))
      ensures if old(Reads())
        then Chosen(played, old(Visible()), old(nodeHash), old(targetSeq), old(Starts()), old(read.ts))
        else played == null
      ensures old(kind.Video? && !Starts() && targetSeq !in nodeHash) && played != null ==>
        forall k: nat :: FirstAhead(old(nodeHash), old(targetSeq), k)
                         && played == old(nodeHash)[Following(old(targetSeq), k)] ==>
          !packet.marker && packet.ts != old(read.ts)
      ensures !kind.Video? || old(tally.missed == 0 && completeFrames <= maxFrameLen * 2) ==>
        && unchanged(this`missing, this`nextSeq, this`wrote, this`unique) && tally.missed == old(tally.missed)
        && (played != null ==> targetSeq == (packet.seqNo + 1) % 0x1_0000)
      ensures !kind.Video? ==> Played(old(past), old(targetSeq), old(ledger), old(Stored()), status, packet)
      ensures status == NotFound ==> packet == buf.(seqNo := old(targetSeq), ts := 0)
    {
      hide *;
      IndexInList();
      HeldIs();
      status, packet, played := ReadBuffered(buf);
      FramesCount();
      HeldIs();
      assert forall i :: 0 <= i < |nodes| ==> nodes[i] in old(nodes);
      ghost var left := Visible();
      Trim();
      if !kind.Video? && visibleNodes > maxFrameLen * 3 / 2 && status == Success {
        status := Timeout;
        TimeoutPlays(old(past), old(targetSeq), old(ledger), old(Stored()), packet);
      }
      TakesSome(old(Held()), Held(), played);
      if old(kind.Video? && !Starts() && Reads()) {
        HeldIs();
        BrokenGoneLess(left, Visible(), old(nodeHash), old(targetSeq), old(read.ts));
        if played != null {
          NotBroken(played, packet, old(Visible()), old(nodeHash), old(targetSeq), old(read.ts));
        }
      }
    }

    /** Empty a video buffer that holds too many frames. */
    method Trim()
      requires Valid()
      modifies this`visibleNodes, this`nodeHash, this`completeFrames, this`nodes, this`nodeList
      modifies nodes`visible, nodes`next, nodes`prev
      modifies this`missing, this`lastTargetSeq, this`targetSeq, this`nextSeq, this`wrote, this`read, this`period
      modifies this`unique, this`tally, this`past, this`ledger
      ensures Valid() && nodes == old(nodes) && (kind.Video? ==> Frames() <= maxFrameLen * 2)
      ensures ledger.delivered == old(ledger).delivered
      ensures if old(kind.Video? && Frames() > maxFrameLen * 2) then Held() == map[]
              else unchanged(this) && Held() == old(Held())
    {
      hide *;
      if kind.Video? && Frames() > maxFrameLen * 2 {
        ResetBuffer();
      }
    }

    static lemma TakesSome(h: map<Node, Packet>, h': map<Node, Packet>, played: Node?)
      requires forall n :: n in h' ==> n != played && n in h && h'[n] == h[n]
      ensures Takes(h, h', played)
    {
    }

    lemma FramesCount()
      requires Valid()
      ensures kind.Video? && tally.missed == 0 ==>
        completeFrames >= 0 && (completeFrames <= maxFrameLen * 2 ==> Frames() <= maxFrameLen * 2)
    {
      hide DoublyLinked, LedgerOk, PoolOk, LossOk, Within, SlotsOk, Shape;
    }

    /** A read, but for what is done about a buffer that is too full. */
    method ReadBuffered(buf: Packet) returns (status: Status, packet: Packet, ghost played: Node?)
      requires Valid()
      modifies this`visibleNodes, this`nodeHash, this`completeFrames, this`nodes, this`nodeList, this`ledger, this`past
      modifies this`tally, this`dropped, this`targetSeq, this`lastTargetSeq, this`period, this`frameLen
      modifies this`highestFrameLen, this`highestDroppedTs, this`read, this`bufferLag, this`flush
      modifies nodes`visible, nodes`next, nodes`prev
      ensures Valid() && forall n :: n in nodes ==> n in old(nodes)
      ensures old(Frames()) == 0 <==> status == Break
      ensures status != Timeout && (status == Success <==> played != null)
      ensures status == MoreData && !kind.Video? ==> old(Frames() < frameLen)
      ensures played != null ==>
        && played in old(Visible()) && packet == Restored(old(played.packet))
        && targetSeq == (packet.seqNo + 1) % 0x1_0000
      ensures ledger.delivered == old(ledger).delivered + if played != null then 1 else 0
      ensures old(Starts()) ==> highestDroppedTs == old(highestDroppedTs)
      ensures old(kind.Video? && !Starts() && Reads()) ==>
        BrokenGone(Visible(), old(nodeHash), old(targetSeq), old(read.ts))
      ensures Visible() <= old(Visible()) && played !in Visible()
      ensures if old(Reads())
        then Chosen(played, old(Visible()), old(nodeHash), old(targetSeq), old(Starts()), old(read.ts))
        else played == null
      ensures completeFrames <= old(completeFrames) && tally.missed == old(tally.missed)
      ensures !kind.Video? ==> Played(old(past), old(targetSeq), old(ledger), old(Stored()), status, packet)
      ensures status == NotFound ==> packet == buf.(seqNo := old(targetSeq), ts := 0)
    {
      hide *;
      IndexInList();
      ReadsIs();
      packet, played := buf, null;
      status := ReadReady();
      if status == Success {
        CountRead();
        status, packet, played := ReadOne(buf);
      } else {
        NothingPlayed(old(past), old(targetSeq), old(ledger), old(Stored()), status, packet);
      }
    }

    lemma ReadsIs()
      ensures Reads() <==> Frames() > 0 && (Frames() >= frameLen || Polled(kind, true, true, bufferLag, flush).1)
      ensures flush ==> Polled(kind, true, true, bufferLag, flush).1
    {
    }

    /** What an audio or text read did to the playout: before it, the history was
        was, the target target, and stored could be looked up. */
    ghost predicate Played(was: History, target: U16, books: Ledger, stored: map<U16, Packet>, status: Status,
                           packet: Packet)
      reads this`past, this`ledger, this`targetSeq
    {
      match status
      case Break => past == was && ledger == books && targetSeq == target
      case MoreData => past == was && ledger == books && targetSeq == target
      case NotFound =>
        && target != 0 && target !in stored && ledger == books && packet.seqNo == target
        && past == Tapped(was).(slots := was.slots + [Concealed(target)])
      case Restart =>
        && target != 0 && target !in stored && ledger == books
        && past == Tapped(was).(slots := was.slots + [Restarted(target)])
      case _ =>
        && (target != 0 ==> target in stored && packet == stored[target])
        && ledger == books.(delivered := books.delivered + 1)
        && past == Tapped(was).(slots := Before(was.slots, target) + [Delivered(packet.seqNo, packet)])
    }

    /** Note that packets may be taken out. */
    ghost method Tap()
      requires Valid()
      modifies this`past
      ensures Valid() && MayRead() && past == Tapped(old(past))
    {
      hide DoublyLinked, FramesOk, LedgerOk, PoolOk, SlotsOk, TrackRun, Within;
      if queueOnly { WithinTapped(Stored(), past.log, past.tapped); }
      past := Tapped(past);
    }

    lemma IndexInList()
      requires Valid()
      ensures forall k :: k in nodeHash ==> nodeHash[k] in nodes
      ensures forall n :: n in Visible() ==> n in nodes
    {
    }

    lemma NothingPlayed(was: History, target: U16, books: Ledger, stored: map<U16, Packet>, status: Status,
                        packet: Packet)
      requires past == was && ledger == books && targetSeq == target && (status == Break || status == MoreData)
      ensures Played(was, target, books, stored, status, packet)
    {
    }

    static lemma SameNumber(p: Packet)
      ensures Restored(p).seqNo == p.seqNo && Restored(p).marker == p.marker && Restored(p).ts == p.ts
    {
    }

    lemma HitPlayed(was: History, target: U16, books: Ledger, stored: map<U16, Packet>, packet: Packet)
      requires target != 0 ==> target in stored && packet == stored[target]
      requires ledger == books.(delivered := books.delivered + 1)
      requires past == Tapped(was).(slots := Before(was.slots, target) + [Delivered(packet.seqNo, packet)])
      ensures Played(was, target, books, stored, Success, packet)
    {
    }

    lemma MissPlayed(was: History, target: U16, books: Ledger, stored: map<U16, Packet>, status: Status, packet: Packet)
      requires target != 0 && target !in stored && ledger == books && (status == NotFound || status == Restart)
      requires status == NotFound ==> packet.seqNo == target
      requires past == Tapped(was).(slots := was.slots + [if status == NotFound then Concealed(target)
        else Restarted(target)])
      ensures Played(was, target, books, stored, status, packet)
    {
    }

    lemma StartsIs()
      ensures Starts() <==> targetSeq == 0 || (kind.Video? && dropped > 0)
    {
    }

    lemma ChosenIs(node: Node?, was: set<Node>, index: map<U16, Node>, target: U16, start: bool, readTs: U32)
      ensures Chosen(node, was, index, target, start, readTs) <==>
        if start then Lowest(node, was, index)
        else if kind.Video? then NextVideo(node, was, index, target, readTs, highestDroppedTs)
        else if target in index then node == index[target] else node == null
    {
    }

    lemma AlreadyTapped()
      requires MayRead()
      ensures Tapped(past) == past
    {
    }

    lemma PlayedSince(was: History, target: U16, books: Ledger, stored: map<U16, Packet>, status: Status,
                      packet: Packet)
      requires Played(Tapped(was), target, books, stored, status, packet) && status != Break && status != MoreData
      ensures Played(was, target, books, stored, status, packet)
    {
    }

    lemma TimeoutPlays(was: History, target: U16, books: Ledger, stored: map<U16, Packet>, packet: Packet)
      requires Played(was, target, books, stored, Success, packet)
      ensures Played(was, target, books, stored, Timeout, packet)
    {
    }

    /** The part of a read after the buffering checks. */
    method ReadOne(buf: Packet) returns (status: Status, packet: Packet, ghost played: Node?)
      requires Valid() && Frames() != 0
      modifies this`visibleNodes, this`nodeHash, this`completeFrames, this`nodes, this`nodeList, this`ledger, this`past
      modifies this`tally, this`dropped, this`targetSeq, this`lastTargetSeq, this`period, this`frameLen
      modifies this`highestFrameLen, this`highestDroppedTs, this`read
      modifies nodes`visible, nodes`next, nodes`prev
      ensures Valid() && forall n :: n in nodes ==> n in old(nodes)
      ensures status == Success || status == MoreData || status == NotFound || status == Restart
      ensures status == Success <==> played != null
      ensures played != null ==>
        && played in old(Visible()) && packet == Restored(old(played.packet))
        && targetSeq == (packet.seqNo + 1) % 0x1_0000
      ensures ledger.delivered == old(ledger).delivered + if played != null then 1 else 0
      ensures old(Starts()) ==> highestDroppedTs == old(highestDroppedTs)
      ensures kind.Video? && !old(Starts()) ==> BrokenGone(Visible(), old(nodeHash), old(targetSeq), old(read.ts))
      ensures Visible() <= old(Visible()) && played !in Visible()
      ensures Chosen(played, old(Visible()), old(nodeHash), old(targetSeq), old(Starts()), old(read.ts))
      ensures completeFrames <= old(completeFrames) && tally.missed == old(tally.missed)
      ensures !kind.Video? ==>
        status != MoreData && Played(old(past), old(targetSeq), old(ledger), old(Stored()), status, packet)
      ensures status == NotFound ==> packet == buf.(seqNo := old(targetSeq), ts := 0)
    {
      hide *;
      IndexInList();
      Tap();
      status, packet, played := ReadNext(buf);
      if !kind.Video? {
        PlayedSince(old(past), old(targetSeq), old(ledger), old(Stored()), status, packet);
      }
    }

    /** The same, once it is noted that packets may be taken out. */
    method ReadNext(buf: Packet) returns (status: Status, packet: Packet, ghost played: Node?)
      requires Valid() && MayRead() && Frames() != 0
      modifies this`visibleNodes, this`nodeHash, this`completeFrames, this`nodes, this`nodeList, this`ledger, this`past
      modifies this`tally, this`dropped, this`targetSeq, this`lastTargetSeq, this`period, this`frameLen
      modifies this`highestFrameLen, this`highestDroppedTs, this`read
      modifies nodes`visible, nodes`next, nodes`prev
      ensures Valid() && forall n :: n in nodes ==> n in old(nodes)
      ensures status == Success || status == MoreData || status == NotFound || status == Restart
      ensures status == Success <==> played != null
      ensures played != null ==>
        && played in old(Visible()) && packet == Restored(old(played.packet))
        && targetSeq == (packet.seqNo + 1) % 0x1_0000
      ensures ledger.delivered == old(ledger).delivered + if played != null then 1 else 0
      ensures old(Starts()) ==> highestDroppedTs == old(highestDroppedTs)
      ensures kind.Video? && !old(Starts()) ==> BrokenGone(Visible(), old(nodeHash), old(targetSeq), old(read.ts))
      ensures Visible() <= old(Visible()) && played !in Visible()
      ensures Chosen(played, old(Visible()), old(nodeHash), old(targetSeq), old(Starts()), old(read.ts))
      ensures completeFrames <= old(completeFrames) && tally.missed == old(tally.missed)
      ensures !kind.Video? ==>
        status != MoreData && Played(old(past), old(targetSeq), old(ledger), old(Stored()), status, packet)
      ensures status == NotFound ==> packet == buf.(seqNo := old(targetSeq), ts := 0)
    {
      hide *;
      Opening();
      StartsIs();
      var node := NextPacketBySeq();
      played := node;
      ChosenIs(node, old(Visible()), old(nodeHash), old(targetSeq), old(Starts()), old(read.ts));
      assert forall i :: 0 <= i < |nodes| ==> nodes[i] in old(nodes);
      if node != null { SameNumber(node.packet); }
      ghost var left := Visible();
      status, packet := Finish(node, buf, old(targetSeq), old(Stored()));
      if kind.Video? && !old(Starts()) {
        BrokenGoneLess(left, Visible(), old(nodeHash), old(targetSeq), old(read.ts));
      }
    }

    /** The rest of a read from target, for which node was found or none was. */
    method Finish(node: Node?, buf: Packet, ghost target: U16, ghost stored: map<U16, Packet>)
      returns (status: Status, packet: Packet)
      requires Core() && MayRead() && LenOk()
      requires node != null ==> node in nodes && node.visible && targetSeq == (node.packet.seqNo + 1) % 0x1_0000
      requires if kind.Video? then past.slots == [] else SlotsOk(past.slots, target)
      requires !kind.Video? && node == null ==>
        target != 0 && target !in stored && lastTargetSeq == target && targetSeq == (target + 1) % 0x1_0000
      requires !kind.Video? && node != null && target != 0 ==>
        node.packet.seqNo == target && target in stored && Restored(node.packet) == stored[target]
      modifies this`read, this`frameLen, this`highestFrameLen
      modifies this`visibleNodes, this`nodeHash, this`completeFrames, this`nodes, this`nodeList, this`ledger, this`past
      modifies this`tally
      modifies nodes`visible, nodes`next, nodes`prev
      ensures Valid() && forall n :: n in nodes <==> n in old(nodes)
      ensures if node != null then status == Success && packet == Restored(node.packet)
              else if kind.Video? then status == MoreData else status == NotFound || status == Restart
      ensures Visible() <= old(Visible()) && node !in Visible()
      ensures completeFrames <= old(completeFrames) && tally.missed == old(tally.missed)
      ensures ledger.delivered == old(ledger).delivered + if node != null then 1 else 0
      ensures !kind.Video? ==> Played(old(past), target, old(ledger), stored, status, packet)
      ensures status == NotFound ==> packet == buf.(seqNo := target, ts := 0)
    {
      hide *;
      AlreadyTapped();
      packet := buf;
      if node != null {
        status := Success;
        NoteRead(node.packet);
        packet := Restored(node.packet);
        Deliver(node, packet, target);
        if !kind.Video? {
          HitPlayed(old(past), target, old(ledger), stored, packet);
        }
      } else if kind.Video? {
        status := MoreData;
        Closing();
      } else {
        status, packet := NoPacket(buf, target);
        MissPlayed(old(past), target, old(ledger), stored, status, packet);
      }
    }

    /** Take the node out whose packet is handed to the reader. */
    method Deliver(node: Node, packet: Packet, ghost target: U16)
      requires Core() && MayRead() && LenOk() && node in nodes && node.visible && packet == Restored(node.packet)
      requires targetSeq == (node.packet.seqNo + 1) % 0x1_0000
      requires if kind.Video? then past.slots == []
               else SlotsOk(past.slots, target) && (target != 0 ==> node.packet.seqNo == target)
      modifies this`visibleNodes, this`nodeHash, this`completeFrames, this`nodes, this`nodeList, this`ledger, this`past
      modifies this`tally
      modifies nodes`visible, nodes`next, nodes`prev
      ensures Valid() && Visible() <= old(Visible()) - {node} && forall n :: n in nodes <==> n in old(nodes)
      ensures completeFrames <= old(completeFrames) && tally.missed == old(tally.missed)
      ensures ledger == old(ledger).(delivered := old(ledger).delivered + 1)
      ensures !kind.Video? ==>
        past == old(past).(slots := Before(old(past).slots, target) + [Delivered(packet.seqNo, packet)])
    {
      hide *;
      TakeOut(node);
      if kind.Video? {
        Closing();
      } else {
        SameNumber(node.packet);
        RecordSlot(target, Delivered(packet.seqNo, packet));
      }
      InVisible(node);
    }

    lemma InVisible(node: Node)
      ensures node in Visible() <==> node in nodes && node.visible
    {
    }

    /** The outcome of an audio or text read that found nothing under target. */
    method NoPacket(buf: Packet, ghost target: U16) returns (status: Status, packet: Packet)
      requires Core() && LenOk() && !kind.Video? && SlotsOk(past.slots, target) && target != 0
      requires lastTargetSeq == target && targetSeq == (target + 1) % 0x1_0000
      modifies this`past, this`frameLen, this`highestFrameLen
      ensures Valid() && past == old(past).(slots := old(past).slots +
        [if status == NotFound then Concealed(target) else Restarted(target)])
      ensures status == if period.consecMiss > old(frameLen) then Restart else NotFound
      ensures frameLen == if status == Restart then FrameIncLen(old(frameLen), 1, minFrameLen, maxFrameLen)
        else old(frameLen)
      ensures status == NotFound ==> packet == buf.(seqNo := target, ts := 0)
    {
      hide DoublyLinked, Shape, FramesOk, LedgerOk, PoolOk, LossOk;
      packet := buf;
      if period.consecMiss > frameLen {
        FrameInc(1);
        status := Restart;
        RecordSlot(target, Restarted(lastTargetSeq));
      } else {
        status := NotFound;
        packet := packet.(seqNo := lastTargetSeq, ts := 0);
        RecordSlot(target, Concealed(lastTargetSeq));
      }
    }

    lemma Opening()
      requires Valid()
      ensures Core() && LenOk() && (forall k :: k in nodeHash ==> nodeHash[k] in nodes)
      ensures forall n :: n in Visible() ==> n in nodes
      ensures if kind.Video? then past.slots == [] else SlotsOk(past.slots, targetSeq) && completeFrames == visibleNodes
      ensures Frames() != 0 ==> completeFrames != 0
      ensures forall k :: k in Stored() <==> k in nodeHash
      ensures forall k :: k in nodeHash ==> Stored()[k] == Restored(nodeHash[k].packet)
    {
    }

    lemma Closing()
      requires Core() && LenOk() && kind.Video? && past.slots == []
      ensures Valid()
    {
    }

    /** Note in the history that a read from target ended as slot. */
    ghost method RecordSlot(target: U16, slot: Slot)
      requires Core() && LenOk() && !kind.Video? && SlotsOk(past.slots, target)
      requires (target != 0 ==> slot.number == target)
      requires slot.Delivered? ==> slot.packet.seqNo == slot.number
      requires targetSeq == (slot.number + 1) % 0x1_0000
      modifies this`past
      ensures Valid() && past == old(past).(slots := Before(old(past).slots, target) + [slot])
    {
      hide DoublyLinked, Shape, FramesOk, LedgerOk, PoolOk;
      NextSlot(past.slots, target, slot);
      past := past.(slots := Before(past.slots, target) + [slot]);
    }

    constructor (kind: Kind, queueOnly: bool, minFrameLen: U32, maxFrameLen: U32)
      ensures Valid() && fresh(nodes) && nodes == [] && Stored() == map[] && past == NO_HISTORY && missing == map[]
      ensures this.kind == kind && this.queueOnly == queueOnly
      ensures wrote == UNSET && nextSeq == targetSeq == 0 && highestDroppedTs == 0 && unique && tally == NO_TALLY
      ensures allocatedNodes == visibleNodes == completeFrames == 0
      ensures this.minFrameLen == minFrameLen && this.maxFrameLen == maxFrameLen && frameLen == minFrameLen
      ensures ledger == Ledger(0, 0, 0, 0)
    {
      this.kind, this.queueOnly, this.minFrameLen, this.maxFrameLen := kind, queueOnly, minFrameLen, maxFrameLen;
      nodeList, visibleNodes, allocatedNodes, completeFrames, nodeHash, missing := null, 0, 0, 0, map[], map[];
      frameLen, highestFrameLen, maxPacketLen, packetCount := minFrameLen, minFrameLen, 0, 0;
      targetSeq, lastTargetSeq, nextSeq, wrote, read, highestDroppedTs, dropped := 0, 0, 0, UNSET, UNSET, 0, 0;
      period, bufferLag, flush := NEW_PERIOD, 0, false;
      nodes, unique, tally, ledger, past := [], true, NO_TALLY, Ledger(0, 0, 0, 0), NO_HISTORY;
      new;
      assert Visible() == {} && Marked() == {};
      assert missing.Keys == {};
    }

    /** Look a packet up by its number, as it is to be sent again. */
    method GetPacketBySeq(seqNo: U16) returns (found: bool, packet: Packet)
      requires Valid()
      ensures found == (seqNo in Stored()) && (found ==> packet == Stored()[seqNo])
      ensures queueOnly && !past.tapped ==>
        found == (seqNo in Latest(past.log)) && (found ==> packet == Latest(past.log)[seqNo])
      ensures queueOnly && found ==> seqNo in Latest(past.log) && packet == Latest(past.log)[seqNo]
    {
      hide DoublyLinked, FramesOk, LedgerOk, PoolOk, LossOk, Latest;
      if seqNo in nodeHash {
        found, packet := true, Restored(nodeHash[seqNo].packet);
      } else {
        found, packet := false, Packet(0, false, 0, 0, []);
      }
    }

    /** What can be looked up in a retransmission buffer is what its log says. */
    lemma StoredIsLatest()
      requires Valid()
      ensures forall k :: k in nodeHash ==> nodeHash[k] in nodes
      ensures queueOnly && !past.tapped ==> Stored() == Latest(past.log)
      ensures forall k :: k in Stored() ==> Stored()[k].seqNo == k && Stored()[k].version == 2
    {
      hide DoublyLinked, FramesOk, LedgerOk, PoolOk, LossOk, Latest;
      if queueOnly && !past.tapped { WithinIsLatest(Stored(), past.log); }
    }

    /** Give up the due numbers that are too old, and find the first of the others. The
        clock is read for each number that was requested before, from reading from on. */
    method ScanMissing(clock: nat -> int, from: nat) returns (least: U16, next: nat, ghost seen: Times)
      requires 0 !in missing
      modifies this`missing
      ensures Taken(seen, clock, from, next) && from <= next
      ensures missing == Live(old(missing), seen, targetSeq, frameLen)
      ensures least == 0 ==> forall k :: k in missing ==> !Due(missing, k, seen.Of(k))
      ensures least != 0 ==> least in missing && Due(missing, least, seen.Of(least))
      ensures least != 0 ==> forall k :: k in missing && Due(missing, k, seen.Of(k)) ==> least <= k
    {
      hide *;
      least, next, seen := 0, from, Times(clock(from), map[]);
      var todo := missing.Keys;
      ghost var m := missing;
      ScanStarts(m, seen, targetSeq, frameLen);
      NoneTaken(clock, from);
      while todo != {}
        invariant Scanned(m, missing, todo, least, seen, targetSeq, frameLen) && todo <= missing.Keys
        invariant Taken(seen, clock, from, next) && from <= next
        decreases |missing|, |todo|
      {
        var k :| k in todo;
        var now := clock(next);
        ghost var was := seen;
        if missing[k] != 1 {
          LookedAt(seen, clock, from, next, k);
          if k != least {
            seen := seen.(at := seen.at[k := now]);
          }
          next := next + 1;
        }
        ScanStep(m, missing, todo, least, was, seen, targetSeq, frameLen, k, now);
        if !Due(missing, k, now) {
          todo := todo - {k};
        } else if TooOld(k, targetSeq, frameLen) {
          missing := missing - {k};
          todo := missing.Keys;
        } else {
          todo := todo - {k};
          if least == 0 || k < least {
            least := k;
          }
        }
      }
      ScanEnds(m, missing, least, seen, targetSeq, frameLen);
    }

    /** The scan of m so far: left is what has not been given up, todo is yet to be looked
        at, and least the least number found. */
    static ghost predicate Scanned(m: Pending, left: Pending, todo: set<U16>, least: U16, seen: Times, target: U16,
                                   frameLen: U32) {
      && left.Keys <= m.Keys && 0 !in m && (forall k :: k in left ==> left[k] == m[k])
      && (forall k :: k in m && k !in left ==> Due(m, k, seen.Of(k)) && TooOld(k, target, frameLen))
      && (forall k :: k in left && k !in todo && Due(left, k, seen.Of(k)) ==>
           !TooOld(k, target, frameLen) && least != 0 && least <= k)
      && (least != 0 ==> least in left && Due(left, least, seen.Of(least)) && !TooOld(least, target, frameLen))
    }

    static lemma ScanStarts(m: Pending, seen: Times, target: U16, frameLen: U32)
      requires 0 !in m
      ensures Scanned(m, m, m.Keys, 0, seen, target, frameLen)
    {
    }

    static lemma ScanEnds(m: Pending, left: Pending, least: U16, seen: Times, target: U16, frameLen: U32)
      requires Scanned(m, left, {}, least, seen, target, frameLen)
      ensures left == Live(m, seen, target, frameLen)
      ensures least == 0 ==> forall k :: k in left ==> !Due(left, k, seen.Of(k))
      ensures least != 0 ==> least in left && Due(left, least, seen.Of(least))
      ensures least != 0 ==> forall k :: k in left && Due(left, k, seen.Of(k)) ==> least <= k
    {
      hide TooOld;
      SameDue(left, m);
    }

    /** Noting the next reading for k, or for none. */
    static lemma LookedAt(seen: Times, clock: nat -> int, from: nat, next: nat, k: U16)
      requires Taken(seen, clock, from, next)
      ensures
        var more := seen.(at := seen.at[k := clock(next)]);
        && Taken(more, clock, from, next + 1) && Taken(seen, clock, from, next + 1)
        && more.Of(k) == clock(next) && forall x :: x != k ==> more.Of(x) == seen.Of(x)
    {
    }

    /** Looking at k at a time: it is not due, or given up, or may be the least. */
    static lemma ScanStep(m: Pending, left: Pending, todo: set<U16>, least: U16, was: Times, seen: Times, target: U16,
                          frameLen: U32, k: U16, now: int)
      requires Scanned(m, left, todo, least, was, target, frameLen) && k in todo && k in left
      requires (forall x :: x != k ==> seen.Of(x) == was.Of(x)) && (k == least ==> seen == was)
      requires k != least && left[k] != 1 ==> seen.Of(k) == now
      ensures !Due(left, k, now) ==> Scanned(m, left, todo - {k}, least, seen, target, frameLen)
      ensures Due(left, k, now) && TooOld(k, target, frameLen) ==>
        Scanned(m, left - {k}, (left - {k}).Keys, least, seen, target, frameLen)
      ensures Due(left, k, now) && !TooOld(k, target, frameLen) ==>
        Scanned(m, left, todo - {k}, if least == 0 || k < least then k else least, seen, target, frameLen)
    {
      AlwaysDue(left, k, now, seen.Of(k));
      hide Due, TooOld;
      SameDue(left, m);
      SameDue(left - {k}, left);
    }

    /** A number that was never requested is due at any time. */
    static lemma AlwaysDue(m: Pending, k: U16, t: int, t': int)
      requires k in m
      ensures m[k] == 1 ==> Due(m, k, t) && Due(m, k, t')
    {
    }

    static lemma SameDue(m: Pending, m': Pending)
      requires m.Keys <= m'.Keys && forall k :: k in m ==> m[k] == m'[k]
      ensures forall k, t :: k in m ==> (Due(m, k, t) <==> Due(m', k, t))
    {
    }

    /** Stamp those of the sixteen numbers after least that are missing, and
        collect them in a bitmap. stamped says what has been stamped before. */
    method StampFollowing(least: U16, clock: nat -> int, ghost first: nat, from: nat, ghost was: Times)
      returns (blp: nat, next: nat, ghost stamped: Times)
      requires Taken(was, clock, first, from) && least in was.at
      modifies this`missing
      ensures blp == FromBits(LostBits(old(missing).Keys, least, 16))
      ensures Taken(stamped, clock, first, next) && from <= next && stamped.Of(least) == was.Of(least)
      ensures missing == Stamped(old(missing), AskedAfter(least, blp, 16), stamped)
    {
      hide FromBits, LostBits, SetBit, Pow2, Taken;
      ghost var keys, m := missing.Keys, missing;
      ghost var all := FromBits(LostBits(keys, least, 16));
      blp, next, stamped := 0, from, was;
      NoBits(keys, least);
      var i := 0;
      while i < 16
        invariant 0 <= i <= 16 && Taken(stamped, clock, first, next) && stamped.Of(least) == was.Of(least)
        invariant from <= next
        invariant blp == FromBits(LostBits(keys, least, i))
        invariant missing == Stamped(m, AskedAfter(least, all, i), stamped)
      {
        NextLostBit(keys, least, i);
        var k := Following(least, i);
        if k in missing {
          missing := missing - {k};
          missing := missing[k := clock(next)];
          LookedAt(stamped, clock, first, next, k);
          stamped := stamped.(at := stamped.at[k := clock(next)]);
          next := next + 1;
          blp := SetBit(blp, i);
        }
        i := i + 1;
      }
    }

    static lemma NoBits(keys: set<U16>, least: U16)
      ensures FromBits(LostBits(keys, least, 0)) == 0
    {
    }

    static lemma NextLostBit(keys: set<U16>, least: U16, i: nat)
      requires i < 16
      ensures
        var bits := LostBits(keys, least, i);
        FromBits(LostBits(keys, least, i + 1)) ==
          if Following(least, i) in keys then SetBit(FromBits(bits), i) else FromBits(bits)
      ensures BitAt(FromBits(LostBits(keys, least, 16)), i) <==> Following(least, i) in keys
    {
      var bits := LostBits(keys, least, i);
      SetNextBit(bits);
      BitsOf(LostBits(keys, least, 16), i);
      assert LostBits(keys, least, i + 1) == bits + [Following(least, i) in keys];
    }

    /** The next NACK word to send, or 0. The clock is read as often as need be, from
        reading from on; r says which reading went with which number. */
    method PopNack(clock: nat -> int, from: nat) returns (nack: nat, next: nat, ghost r: Readings)
      requires Valid()
      modifies this`missing, this`past
      ensures Valid() && Taken(r.seen, clock, from, next) && Taken(r.stamped, clock, from, next)
      ensures !kind.Video? || queueOnly ==> nack == 0 && missing == old(missing) && past == old(past)
      ensures kind.Video? && !queueOnly ==> Pops(old(missing), missing, r, targetSeq, frameLen, nack)
      ensures past == old(past).(expired := past.expired) && (old(past).expired ==> past.expired)
      ensures !past.expired ==> missing.Keys == old(missing).Keys
    {
      hide *;
      nack, next, r := 0, from, Readings(Times(clock(from), map[]), Times(clock(from), map[]));
      NoneTaken(clock, from);
      if !kind.Video? {
        return;
      }
      Parts();
      CoreIs();
      LogIs();
      LossIs();
      NothingPending(missing);
      ghost var before := missing;
      nack, next, r := PopPending(clock, from);
      if queueOnly { NothingPopped(before, missing, r, targetSeq, frameLen, nack); }
      past := past.(expired := past.expired || missing.Keys != before.Keys);
      CoreIs();
      LogIs();
      LossIs();
      Parts();
    }

    /** The same of the pending numbers. */
    method PopPending(clock: nat -> int, from: nat) returns (nack: nat, next: nat, ghost r: Readings)
      requires 0 !in missing
      modifies this`missing
      ensures Taken(r.seen, clock, from, next) && Taken(r.stamped, clock, from, next)
      ensures Pops(old(missing), missing, r, targetSeq, frameLen, nack) && missing.Keys <= old(missing).Keys
    {
      hide *;
      ghost var before := missing;
      nack := 0;
      NoneTaken(clock, from);
      ghost var seen, stamped;
      stamped := Times(clock(from), map[]);
      var least;
      least, next, seen := ScanMissing(clock, from);
      LiveKeys(before, seen, targetSeq, frameLen);
      ghost var live := missing;
      if least != 0 {
        nack, next, stamped := RequestFrom(least, clock, from, next);
      }
      r := Readings(seen, stamped);
      Popped(before, live, missing, r, least, nack, targetSeq, frameLen);
      TakenLonger(seen, stamped, clock, from, next);
    }

    static lemma FirstTaken(clock: nat -> int, first: nat, from: nat, k: U16)
      requires first <= from
      ensures Taken(Times(clock(first), map[k := clock(from)]), clock, first, from + 1)
    {
    }

    static lemma NoneTaken(clock: nat -> int, from: nat)
      ensures Taken(Times(clock(from), map[]), clock, from, from)
    {
    }

    /** Where nothing is pending nothing is requested. */
    static lemma NothingPending(m: Pending)
      ensures m == map[] ==> 0 !in m
    {
    }

    static lemma NothingPopped(m: Pending, m': Pending, r: Readings, target: U16, frameLen: U32, word: nat)
      requires m == map[] && Pops(m, m', r, target, frameLen, word)
      ensures word == 0 && m' == map[]
    {
      hide Word, Asked, Pid;
    }

    static lemma LiveKeys(m: Pending, seen: Times, target: U16, frameLen: U32)
      ensures Live(m, seen, target, frameLen).Keys <= m.Keys
    {
    }

    static lemma TakenLonger(seen: Times, stamped: Times, clock: nat -> int, from: nat, next: nat)
      ensures forall n: nat :: Taken(seen, clock, from, n) && n <= next ==> Taken(seen, clock, from, next)
      ensures forall n: nat :: Taken(stamped, clock, from, n) && n <= next ==> Taken(stamped, clock, from, next)
    {
    }

    /** The scan and the request make a pop. */
    static lemma Popped(before: Pending, live: Pending, after: Pending, r: Readings, least: U16, word: nat, target: U16,
                        frameLen: U32)
      requires live == Live(before, r.seen, target, frameLen)
      requires least == 0 ==> word == 0 && after == live && forall k :: k in live ==> !Due(live, k, r.seen.Of(k))
      requires least != 0 ==>
        && least in live && Due(live, least, r.seen.Of(least))
        && (forall k :: k in live && Due(live, k, r.seen.Of(k)) ==> least <= k)
        && word == Word(live.Keys, least) && word != 0 && Pid(word) == least
        && after == Stamped(live, Asked(word), r.stamped) && after.Keys == live.Keys
      ensures Pops(before, after, r, target, frameLen, word) && after.Keys == live.Keys
    {
      hide Live, Due, Word, Pid, Asked, Stamped;
    }

    /** Request least and what is missing of the sixteen numbers after it. */
    method RequestFrom(least: U16, clock: nat -> int, ghost first: nat, from: nat)
      returns (nack: nat, next: nat, ghost stamped: Times)
      requires least != 0 && least in missing && first <= from
      modifies this`missing
      ensures nack == Word(missing.Keys, least) && nack != 0 && Pid(nack) == least
      ensures Taken(stamped, clock, first, next) && from <= next
      ensures missing == Stamped(old(missing), Asked(nack), stamped) && missing.Keys == old(missing).Keys
    {
      hide FromBits, LostBits, Swap16, Taken;
      ghost var live := missing;
      nack := Swap16(least);
      missing := missing - {least};
      missing := missing[least := clock(from)];
      stamped := Times(clock(first), map[least := clock(from)]);
      FirstTaken(clock, first, from, least);
      assert missing.Keys == live.Keys;
      BlpBound(live.Keys, least);
      var blp;
      blp, next, stamped := StampFollowing(least, clock, first, from + 1, stamped);
      nack := nack + 0x1_0000 * Swap16(blp);
      PoppedWord(live, least, blp, nack);
      assert missing.Keys == live.Keys;
      assert missing == Stamped(live, Asked(nack), stamped);
    }

    static lemma PoppedWord(live: Pending, least: U16, blp: U16, word: nat)
      requires least != 0 && blp == FromBits(LostBits(live.Keys, least, 16))
      requires word == Swap16(least) + 0x1_0000 * Swap16(blp)
      ensures word == Word(live.Keys, least) && word != 0 && Pid(word) == least
      ensures Asked(word) == {least} + AskedAfter(least, blp, 16)
    {
      WordParts(live.Keys, least);
    }

    /** In every reachable state of a receiving video buffer the missing set is
        exact, if the arrivals since the last reset were tame. */
    lemma MissingIsExactHere()
      requires Valid() && kind.Video? && !queueOnly && !past.expired
      requires past.gots != [] && Tame(past.gots, maxFrameLen)
      ensures Exact(Track(nextSeq, missing.Keys), past.gots)
    {
      MissingIsExact(past.gots, maxFrameLen);
    }

    /** The frame counter counts the visible packets of audio and text. For video it is the
        visible ends of frames exactly if as many marked packets went missing as went stale;
        none goes stale unless a number is put while buffered, and then the counter is right,
        or not too low, exactly if no packet was put with the mark on that ended no frame. */
    lemma FramesExactHere()
      requires Valid()
      ensures !kind.Video? ==> completeFrames == visibleNodes
      ensures kind.Video? ==>
                && completeFrames == |Marked()| + tally.stale - tally.missed
                && (completeFrames == |Marked()| <==> tally.missed == tally.stale)
                && (completeFrames >= |Marked()| <==> tally.missed <= tally.stale)
      ensures kind.Video? && unique ==>
                && (completeFrames == |Marked()| <==> tally.missed == 0)
                && (completeFrames >= |Marked()| <==> tally.missed == 0)
    {
      hide DoublyLinked, LedgerOk, PoolOk, LossOk, Within, SlotsOk;
    }

    /** The first packet put into a video buffer is simply stored. */
    lemma FirstPut(p: Packet)
      requires kind.Video? && nextSeq == 0 && highestDroppedTs == 0 && wrote == UNSET && allocatedNodes == 0
      ensures !Ignores(p) && !Empties(p) && !GapReset(p) && Kept(wrote, p) == p && !Ends(wrote, p)
      ensures tally == NO_TALLY ==> Missed(tally, Uncounted(wrote, p)) == Tally(if p.version == 1 then 1 else 0, 0)
    {
    }

    /** If no number was put while buffered, the index is exactly the visible nodes. */
    lemma IndexIsExactHere()
      requires Valid() && unique
      ensures nodeHash.Values == Visible() && |nodeHash| == visibleNodes
    {
      hide DoublyLinked;
      forall n | n in Visible() ensures n in nodeHash.Values {
        assert nodeHash[n.packet.seqNo] == n;
      }
      var number := map n | n in Visible() :: n.packet.seqNo;
      assert number.Keys == Visible();
      assert number.Values == nodeHash.Keys by {
        forall k | k in nodeHash.Keys ensures k in number.Values {
          assert nodeHash[k] in number && number[nodeHash[k]] == k;
        }
      }
      InjectiveSize(number);
    }

    static lemma {:induction false} InjectiveSize(m: map<Node, U16>)
      requires forall a, b :: a in m && b in m && m[a] == m[b] ==> a == b
      ensures |m.Keys| == |m.Values|
      decreases |m|
    {
      if m != map[] {
        var n :| n in m;
        var rest := m - {n};
        InjectiveSize(rest);
        assert rest.Keys == m.Keys - {n};
        assert m.Values == rest.Values + {m[n]} by {
          forall v | v in m.Values ensures v in rest.Values + {m[n]} {
            var k :| k in m && m[k] == v;
            assert k == n || (k in rest && rest[k] == v);
          }
        }
        assert m[n] !in rest.Values;
      } else {
        assert m.Values == {};
      }
    }

    /** A late packet of an audio or text playout is not delivered any more. */
    lemma LateIsLost(earlier: seq<Slot>, late: Packet)
      requires Valid() && !kind.Video? && earlier <= past.slots
      requires exists i :: 0 <= i < |earlier| && earlier[i].number == late.seqNo
      ensures forall k :: |earlier| <= k < |past.slots| ==> past.slots[k].number != late.seqNo
      ensures forall k :: |earlier| <= k < |past.slots| && past.slots[k].Delivered? ==> past.slots[k].packet != late
    {
      var more := past.slots[|earlier|..];
      assert past.slots == earlier + more;
      LateArrivalNeverPlayed(earlier, more, targetSeq, late);
      assert forall k :: |earlier| <= k < |past.slots| ==> past.slots[k] == more[k - |earlier|];
    }
  }

  /** A marked packet put first into a video buffer ends no frame: the counter falls
      short of the marks in the list. */
  method MiscountMarked(p: Packet) returns (b: JitterBuffer)
    requires p.version == 1
    ensures b.Valid() && b.kind.Video? && b.completeFrames == 0 && |b.Marked()| == b.tally.missed == 1
  {
    hide *;
    b := new JitterBuffer(Video, false, 1, 10);
    b.FirstPut(p);
    var _ := b.PutPacket(p);
    b.FramesExactHere();
  }
}
