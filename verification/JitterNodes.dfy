/** The packet nodes of the jitter buffer and their doubly linked list. */
module JitterNodes {
  import opened Basics

  /** An RTP packet. Header fields are in host order: the byte swap the source
      applies to them is a bijection that fixes the sentinel 0. */
  datatype Packet = Packet(version: nat, marker: bool, seqNo: U16, ts: U32, body: seq<int>)

  class Node {
    var packet: Packet
    var len: nat
    var visible: bool
    var prev: Node?
    var next: Node?

    constructor ()
      ensures !visible && prev == null && next == null
    {
      packet, len, visible, prev, next := Packet(0, false, 0, 0, []), 0, false, null, null;
    }
  }

  /** The comparison callback of the list sort. */
  function NodeCmp(a: Node, b: Node): int
    reads a`visible, a`packet, b`visible, b`packet
  {
    if !a.visible then 0
    else if !b.visible then 1
    else a.packet.seqNo - b.packet.seqNo
  }

  /** Free nodes come first, then visible ones by sequence number. */
  function SortKey(n: Node): int
    reads n`visible, n`packet
  {
    if n.visible then n.packet.seqNo else -1
  }

  /** Though NodeCmp alone is no ordering (it is 0 for any free left operand),
      its `<= 0` test is a total preorder. */
  lemma NodeCmpIsPreorder(a: Node, b: Node)
    ensures NodeCmp(a, b) <= 0 <==> SortKey(a) <= SortKey(b)
  {
  }

  ghost predicate Distinct<T>(s: seq<T>) {
    forall i, j :: 0 <= i < j < |s| ==> s[i] != s[j]
  }

  function First(s: seq<Node>): Node? { if s == [] then null else s[0] }

  ghost predicate NextLinks(s: seq<Node>)
    reads s`next
  {
    forall i :: 0 <= i < |s| - 1 ==> s[i].next == s[i + 1]
  }

  ghost predicate PrevLinks(s: seq<Node>)
    reads s`prev
  {
    && (s != [] ==> s[0].prev == null)
    && forall i :: 1 <= i < |s| ==> s[i].prev == s[i - 1]
  }

  /** The forward chain from h to null runs through exactly s. */
  ghost predicate Chain(h: Node?, s: seq<Node>)
    reads s`next
  {
    h == First(s) && NextLinks(s) && (s != [] ==> s[|s| - 1].next == null)
  }

  /** s is a well-formed doubly linked list starting at h. */
  ghost predicate DoublyLinked(h: Node?, s: seq<Node>)
    reads s`next, s`prev
  {
    Distinct(s) && Chain(h, s) && PrevLinks(s)
  }
}
