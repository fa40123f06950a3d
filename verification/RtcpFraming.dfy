/** Compound RTCP packets on the wire (section 6.1 of RFC 3550) and the walker that
    takes them apart again. */
module RtcpFraming {
  import opened Basics
  import opened ReportFields

  type Five = x: int | 0 <= x < 32

  /** A sub-packet: its five-bit count or format, its type, and what follows the
      four-byte header. */
  datatype Sub = Sub(count: Five, pt: Byte, body: seq<Byte>)

  const RTCP_FIR: Byte := 192
  const RTCP_SR: Byte := 200
  const RTCP_RR: Byte := 201
  const RTCP_SDES: Byte := 202
  const RTCP_RTPFB: Byte := 205
  const RTCP_PSFB: Byte := 206

  const RTPFB_NACK: Five := 1
  const PSFB_PLI: Five := 1
  const PSFB_FIR: Five := 4

  /** The size of an extended header, and of the whole receive buffer. */
  const EXT_HEADER := 12
  const RTCP_MSG := 4 + 16384

  predicate Aligned(n: int) { n % 4 == 0 }

  /** Sub-packets that have a wire form the walker accepts. */
  predicate Fits(p: Sub) { Aligned(|p.body|) && |p.body| / 4 < 0x1_0000 && 191 < p.pt < 210 }

  predicate AllFit(ps: seq<Sub>) { forall i :: 0 <= i < |ps| ==> Fits(ps[i]) }

  /** A header of version 2 without padding; length counts the 32-bit words after it. */
  function Header(count: Five, pt: Byte, length: nat): (r: seq<Byte>)
    requires length < 0x1_0000
    ensures |r| == 4
  {
    [0x80 + count, pt, length / 256, length % 256]
  }

  function Encoded(p: Sub): (r: seq<Byte>)
    requires |p.body| / 4 < 0x1_0000
    ensures |r| == 4 + |p.body|
  {
    Header(p.count, p.pt, |p.body| / 4) + p.body
  }

  function Wire(ps: seq<Sub>): seq<Byte>
    requires AllFit(ps)
  {
    if ps == [] then [] else Encoded(ps[0]) + Wire(ps[1..])
  }

  lemma {:induction false} WireAppend(ps: seq<Sub>, p: Sub)
    requires AllFit(ps) && Fits(p)
    ensures AllFit(ps + [p]) && Wire(ps + [p]) == Wire(ps) + Encoded(p)
  {
    if ps == [] {
      assert Wire([p]) == Encoded(p) + Wire([p][1..]);
    } else {
      WireAppend(ps[1..], p);
      assert (ps + [p])[1..] == ps[1..] + [p];
      assert Wire(ps + [p]) == Encoded(ps[0]) + (Wire(ps[1..]) + Encoded(p));
    }
  }

  // ---- the walker ----

  /** Where a visited sub-packet starts, and its size. */
  datatype Slice = Slice(start: nat, len: nat)

  /** Network order, and little-endian memory order. */
  function Short(hi: int, lo: int): int { hi * 256 + lo }

  function Long(b0: int, b1: int, b2: int, b3: int): int { b0 + b1 * 256 + b2 * 0x1_0000 + b3 * 0x100_0000 }

  /** The size the header at a start claims. */
  function Claimed(s: seq<Byte>, start: nat): (r: nat)
    requires start + 4 <= |s|
    ensures r >= 4
  {
    Short(s[start + 2], s[start + 3]) * 4 + 4
  }

  /** Version 2, and a type that RTCP may have. */
  predicate Acceptable(first: Byte, pt: Byte) { first / 64 == 2 && 191 < pt < 210 }

  predicate HeaderOk(s: seq<Byte>, start: nat)
    requires start + 4 <= |s|
  {
    Acceptable(s[start], s[start + 1])
  }

  function SliceAt(s: seq<Byte>, start: nat): (r: Slice)
    requires start + 4 <= |s|
    ensures r.start == start && r.len >= 4 && r.start + r.len <= |s|
  {
    Slice(start, Min(Claimed(s, start), |s| - start))
  }

  /** The slices visited from a start on. */
  function Walk(s: seq<Byte>, start: nat): seq<Slice>
    requires start <= |s|
    decreases |s| - start
  {
    if start + 4 <= |s| && HeaderOk(s, start) then
      [SliceAt(s, start)] + Walk(s, start + SliceAt(s, start).len)
    else []
  }

  /** Where the walk ends. */
  function WalkEnd(s: seq<Byte>, start: nat): nat
    requires start <= |s|
    decreases |s| - start
  {
    if start + 4 <= |s| && HeaderOk(s, start) then WalkEnd(s, start + SliceAt(s, start).len) else start
  }

  lemma SliceAligned(s: seq<Byte>, start: nat)
    requires start + 4 <= |s| && Aligned(|s| - start)
    ensures Aligned(SliceAt(s, start).len) && Aligned(|s| - (start + SliceAt(s, start).len))
  {
    var k := Short(s[start + 2], s[start + 3]) + 1;
    assert Claimed(s, start) == 4 * k;
    hide Claimed, Short;
    AlignedLess(|s| - start, k);
  }

  lemma AlignedLess(n: int, k: int)
    requires Aligned(n)
    ensures Aligned(4 * k) && Aligned(n - 4 * k) && Aligned(n - n)
  {
    DivUnique(4 * k, 4, k, 0);
    DivUnique(n - 4 * k, 4, n / 4 - k, 0);
  }

  predicate Inside(s: seq<Byte>, slice: Slice) { slice.len >= 4 && slice.start + slice.len <= |s| }

  /** On any input the slices are inside the datagram, consecutive and so disjoint;
      the walk ends at a bad header or with less than a header left. */
  lemma {:induction false} WalkTiles(s: seq<Byte>, start: nat)
    requires start <= |s|
    ensures
      var w, end := Walk(s, start), WalkEnd(s, start);
      && start <= end <= |s| && (end + 4 <= |s| ==> !HeaderOk(s, end))
      && (forall i :: 0 <= i < |w| ==> Inside(s, w[i]) && HeaderOk(s, w[i].start))
      && (forall i :: 0 <= i < |w| ==>
           w[i].start == (if i == 0 then start else w[i - 1].start + w[i - 1].len))
      && end == (if w == [] then start else w[|w| - 1].start + w[|w| - 1].len)
    decreases |s| - start
  {
    if start + 4 <= |s| && HeaderOk(s, start) {
      var next := start + SliceAt(s, start).len;
      WalkTiles(s, next);
      var w, rest := Walk(s, start), Walk(s, next);
      assert forall i :: 1 <= i < |w| ==> w[i] == rest[i - 1];
    }
  }

  lemma {:induction false} SlicesDisjoint(s: seq<Byte>, i: nat, j: nat)
    requires i < j < |Walk(s, 0)|
    ensures Walk(s, 0)[i].start + Walk(s, 0)[i].len <= Walk(s, 0)[j].start
  {
    WalkTiles(s, 0);
    if i + 1 < j { SlicesDisjoint(s, i, j - 1); }
  }

  /** What a slice holds. */
  function SubOf(s: seq<Byte>, slice: Slice): Sub
    requires Inside(s, slice)
  {
    Sub(s[slice.start] % 32, s[slice.start + 1], s[slice.start + 4..slice.start + slice.len])
  }

  /** The sub-packets the walk visits from a start on. */
  function Unpacked(s: seq<Byte>, start: nat): seq<Sub>
    requires start <= |s|
    decreases |s| - start
  {
    if start + 4 <= |s| && HeaderOk(s, start) then
      [SubOf(s, SliceAt(s, start))] + Unpacked(s, start + SliceAt(s, start).len)
    else []
  }

  /** One step of the walk. */
  lemma WalkStep(s: seq<Byte>, start: nat)
    requires start + 4 <= |s| && HeaderOk(s, start)
    ensures
      var slice := SliceAt(s, start);
      var next := start + slice.len;
      && Walk(s, start) == [slice] + Walk(s, next)
      && WalkEnd(s, start) == WalkEnd(s, next)
      && Unpacked(s, start) == [SubOf(s, slice)] + Unpacked(s, next)
  {
  }

  lemma WalkStops(s: seq<Byte>, start: nat)
    requires start <= |s| && (start + 4 <= |s| ==> !HeaderOk(s, start))
    ensures Walk(s, start) == [] && WalkEnd(s, start) == start && Unpacked(s, start) == []
  {
  }

  ghost function SubsOf(s: seq<Byte>, w: seq<Slice>): seq<Sub>
    requires forall i :: 0 <= i < |w| ==> Inside(s, w[i])
  {
    seq(|w|, i requires 0 <= i < |w| => SubOf(s, w[i]))
  }

  /** The sub-packets are what the visited slices hold. */
  lemma {:induction false} UnpackedIsWalk(s: seq<Byte>, start: nat)
    requires start <= |s|
    ensures forall i :: 0 <= i < |Walk(s, start)| ==> Inside(s, Walk(s, start)[i])
    ensures Unpacked(s, start) == SubsOf(s, Walk(s, start))
    decreases |s| - start
  {
    hide Walk, WalkEnd, Unpacked, SubOf, HeaderOk;
    if start + 4 <= |s| && HeaderOk(s, start) {
      var next := start + SliceAt(s, start).len;
      WalkStep(s, start);
      UnpackedIsWalk(s, next);
      var w := Walk(s, start);
      assert forall i :: 1 <= i < |w| ==> w[i] == Walk(s, next)[i - 1];
      assert SubsOf(s, w) == [SubOf(s, w[0])] + SubsOf(s, Walk(s, next));
    } else {
      WalkStops(s, start);
    }
  }

  /** What encoding put at a start is found there. */
  lemma EncodedFound(s: seq<Byte>, start: nat, p: Sub)
    requires Fits(p) && start + |Encoded(p)| <= |s| && s[start..start + |Encoded(p)|] == Encoded(p)
    ensures HeaderOk(s, start) && SliceAt(s, start) == Slice(start, |Encoded(p)|)
    ensures SubOf(s, Slice(start, |Encoded(p)|)) == p
  {
    var e := Encoded(p);
    assert forall i :: 0 <= i < |e| ==> e[i] == s[start + i];
    assert s[start] == e[0] && s[start + 1] == e[1] && s[start + 2] == e[2] && s[start + 3] == e[3];
    assert s[start + 4..start + |e|] == e[4..];
    Base256(|p.body| / 4);
  }

  lemma Base256(x: nat)
    ensures x / 256 * 256 + x % 256 == x
  {
  }

  /** The walker undoes the builder's framing: it visits exactly the sub-packets that
      were put together, in order, and nothing remains. */
  lemma {:induction false} WalkUndoesWire(s: seq<Byte>, start: nat, ps: seq<Sub>)
    requires AllFit(ps) && start <= |s| && s[start..] == Wire(ps)
    ensures Unpacked(s, start) == ps && WalkEnd(s, start) == |s|
    decreases |ps|
  {
    hide Walk, WalkEnd, Unpacked, SubOf, HeaderOk, Encoded;
    if ps == [] {
      WalkStops(s, start);
    } else {
      var e := Encoded(ps[0]);
      WireCons(ps);
      Parted(s[start..], e, Wire(ps[1..]));
      assert s[start..start + |e|] == s[start..][..|e|];
      assert s[start + |e|..] == s[start..][|e|..];
      EncodedFound(s, start, ps[0]);
      WalkStep(s, start);
      WalkUndoesWire(s, start + |e|, ps[1..]);
    }
  }

  lemma WireCons(ps: seq<Sub>)
    requires AllFit(ps) && ps != []
    ensures Wire(ps) == Encoded(ps[0]) + Wire(ps[1..])
  {
  }

  lemma Parted(s: seq<Byte>, a: seq<Byte>, b: seq<Byte>)
    requires s == a + b
    ensures s[..|a|] == a && s[|a|..] == b
  {
  }

  /** From a start on there are only whole sub-packets without padding bit. */
  ghost predicate Clean(s: seq<Byte>, start: nat)
    requires start <= |s|
    decreases |s| - start
  {
    start == |s|
    || (start + 4 <= |s| && HeaderOk(s, start) && s[start] % 64 < 32
        && start + Claimed(s, start) <= |s| && Clean(s, start + Claimed(s, start)))
  }

  lemma {:induction false} UnpackedFits(s: seq<Byte>, start: nat)
    requires start <= |s| && Aligned(|s| - start)
    ensures AllFit(Unpacked(s, start))
    decreases |s| - start
  {
    hide Unpacked, SubOf, Fits, Walk, WalkEnd, Aligned, Claimed, SliceAt;
    if start + 4 <= |s| && HeaderOk(s, start) {
      EncodedSameIff(s, start);
      SliceAligned(s, start);
      WalkStep(s, start);
      UnpackedFits(s, start + SliceAt(s, start).len);
    } else {
      WalkStops(s, start);
    }
  }

  /** Going the other way, a datagram is what its sub-packets encode to exactly if it
      holds nothing but whole sub-packets without padding bit. */
  lemma {:induction false} WireUndoesWalkIff(s: seq<Byte>, start: nat)
    requires start <= |s| && Aligned(|s| - start)
    ensures AllFit(Unpacked(s, start))
    ensures Wire(Unpacked(s, start)) == s[start..] <==> Clean(s, start)
    decreases |s| - start
  {
    hide *;
    UnpackedFits(s, start);
    if start + 4 <= |s| && HeaderOk(s, start) {
      EncodedSameIff(s, start);
      var slice := SliceAt(s, start);
      var next, e := start + slice.len, Encoded(SubOf(s, slice));
      SliceAligned(s, start);
      WireUndoesWalkIff(s, next);
      WalkStep(s, start);
      WireCons(Unpacked(s, start));
      assert Unpacked(s, start)[1..] == Unpacked(s, next);
      assert s[start..] == s[start..next] + s[next..];
      SameParts(e, Wire(Unpacked(s, next)), s[start..next], s[next..]);
      CleanStep(s, start);
    } else {
      WalkStops(s, start);
      WireNone();
      CleanStops(s, start);
    }
  }

  lemma CleanStops(s: seq<Byte>, start: nat)
    requires start <= |s| && (start + 4 <= |s| ==> !HeaderOk(s, start))
    ensures Clean(s, start) <==> start == |s|
  {
  }

  lemma WireNone()
    ensures Wire([]) == []
  {
  }

  lemma SameParts(a: seq<Byte>, b: seq<Byte>, c: seq<Byte>, d: seq<Byte>)
    requires |a| == |c|
    ensures a + b == c + d <==> a == c && b == d
  {
    if a + b == c + d {
      Parted(a + b, a, b);
      Parted(c + d, c, d);
    }
  }

  lemma CleanStep(s: seq<Byte>, start: nat)
    requires start + 4 <= |s| && HeaderOk(s, start)
    ensures Clean(s, start) <==>
              s[start] % 64 < 32 && start + Claimed(s, start) <= |s| && Clean(s, start + SliceAt(s, start).len)
  {
  }

  lemma EncodedSameIff(s: seq<Byte>, start: nat)
    requires start + 4 <= |s| && HeaderOk(s, start) && Aligned(|s| - start)
    ensures
      var slice := SliceAt(s, start);
      && Inside(s, slice) && Fits(SubOf(s, slice)) && |SubOf(s, slice).body| / 4 < 0x1_0000
      && |Encoded(SubOf(s, slice))| == slice.len
      && (Encoded(SubOf(s, slice)) == s[start..start + slice.len] <==>
          s[start] % 64 < 32 && start + Claimed(s, start) <= |s|)
  {
    var slice := SliceAt(s, start);
    var p := SubOf(s, slice);
    var e, here := Encoded(p), s[start..start + slice.len];
    SliceAligned(s, start);
    assert e[4..] == p.body == here[4..];
    assert here[0] == s[start] && here[1] == s[start + 1] && here[2] == s[start + 2] && here[3] == s[start + 3];
    Base256(|p.body| / 4);
    if e[0] == here[0] && e[2] == here[2] && e[3] == here[3] {
      assert e == e[..4] + e[4..] && here == here[..4] + here[4..];
    }
  }

  // ---- the 32-bit words inside ----

  /** A word in network order, and as a little-endian machine keeps it in memory. */
  function BigEndian(x: U32): (r: seq<Byte>)
    ensures |r| == 4
  {
    [x / 0x100_0000, x / 0x1_0000 % 256, x / 256 % 256, x % 256]
  }

  function LittleEndian(x: U32): (r: seq<Byte>)
    ensures |r| == 4
  {
    [x % 256, x / 256 % 256, x / 0x1_0000 % 256, x / 0x100_0000]
  }

  function WordAt(s: seq<Byte>, i: nat): U32
    requires i + 4 <= |s|
  {
    Long(s[i], s[i + 1], s[i + 2], s[i + 3])
  }

  lemma LongOf(x: U32)
    ensures Long(x % 256, x / 256 % 256, x / 0x1_0000 % 256, x / 0x100_0000) == x
  {
    Base256(x);
    Base256(x / 256);
    Base256(x / 0x1_0000);
    assert x / 256 / 256 == x / 0x1_0000;
    assert x / 0x1_0000 / 256 == x / 0x100_0000;
  }

  lemma WordFound(s: seq<Byte>, i: nat, x: U32)
    requires i + 4 <= |s| && s[i..i + 4] == LittleEndian(x)
    ensures WordAt(s, i) == x
  {
    var t := s[i..i + 4];
    assert t[0] == s[i] && t[1] == s[i + 1] && t[2] == s[i + 2] && t[3] == s[i + 3];
    LongOf(x);
  }

  /** The words from i on. */
  function Words(s: seq<Byte>, i: nat): seq<U32>
    decreases |s| - i
  {
    if i + 4 <= |s| then [WordAt(s, i)] + Words(s, i + 4) else []
  }

  /** The words of a NACK, after the two SSRCs; none for other sub-packets. */
  function NacksOf(p: Sub): seq<U32> {
    if p.pt == RTCP_RTPFB && p.count == RTPFB_NACK then Words(p.body, 8) else []
  }

  /** What feedback makes its receiver do: start over with a key frame, or resend what
      a word asks for. */
  datatype Call = Refresh | Resend(word: U32)

  function Resends(words: seq<U32>): (r: seq<Call>)
    ensures |r| == |words|
  {
    seq(|words|, i requires 0 <= i < |words| => Resend(words[i]))
  }

  /** A FIR, in its old form or as feedback, or a PLI. */
  predicate AsksRefresh(pt: int, fmt: int) {
    pt == RTCP_FIR || (pt == RTCP_PSFB && (fmt == PSFB_FIR || fmt == PSFB_PLI))
  }

  function CallsOf(p: Sub): seq<Call> {
    if AsksRefresh(p.pt, p.count) then [Refresh] else Resends(NacksOf(p))
  }

  /** What calls for what: types 192 and 206, the latter with format 1 or 4, for a refresh;
      type 205 with format 1 for its words; nothing else for anything. */
  lemma CallsOfType(p: Sub)
    ensures Refresh in CallsOf(p) <==> p.pt == 192 || (p.pt == 206 && (p.count == 1 || p.count == 4))
    ensures forall w :: Resend(w) in CallsOf(p) <==> p.pt == 205 && p.count == 1 && w in Words(p.body, 8)
    ensures p.pt == 206 && p.count != 1 && p.count != 4 ==> CallsOf(p) == []
  {
    ResendsAre(NacksOf(p));
  }

  lemma ResendsAre(words: seq<U32>)
    ensures Refresh !in Resends(words) && forall w :: Resend(w) in Resends(words) <==> w in words
  {
    forall w | w in words ensures Resend(w) in Resends(words) {
      var i :| 0 <= i < |words| && words[i] == w;
      assert Resends(words)[i] == Resend(w);
    }
  }

  function AllCalls(ps: seq<Sub>): seq<Call> {
    if ps == [] then [] else CallsOf(ps[0]) + AllCalls(ps[1..])
  }

  lemma NoCalls()
    ensures AllCalls([]) == []
  {
  }

  lemma AllCallsCons(ps: seq<Sub>)
    requires ps != []
    ensures AllCalls(ps) == CallsOf(ps[0]) + AllCalls(ps[1..])
  {
  }

  lemma {:induction false} AllCallsAppend(ps: seq<Sub>, qs: seq<Sub>)
    ensures AllCalls(ps + qs) == AllCalls(ps) + AllCalls(qs)
  {
    hide CallsOf, AllCalls;
    if ps == [] {
      assert ps + qs == qs;
      NoCalls();
    } else {
      AllCallsAppend(ps[1..], qs);
      assert (ps + qs)[1..] == ps[1..] + qs;
      AllCallsCons(ps);
      AllCallsCons(ps + qs);
    }
  }

  /** How processing a datagram ends: it is no RTCP, one for ICE, of an unsupported
      version, broken off at a bad header, or done. */
  datatype Outcome = Ignored | Ice | Unsupported | BrokenOff | Done

  /** At most n words from i on, as far as the buffer goes. */
  function WordRun(b: seq<Byte>, i: nat, n: int): seq<U32>
    decreases if n > 0 then n else 0
  {
    if n > 0 && i + 4 <= |b| then [WordAt(b, i)] + WordRun(b, i + 4, n - 1) else []
  }

  /** The words that the feedback handler reads for a sub-packet, if it is a NACK: as
      many as its header claims, even behind the datagram. */
  function NackAt(b: seq<Byte>, start: nat): seq<U32>
    requires start + 4 <= |b|
  {
    if b[start + 1] == RTCP_RTPFB && b[start] % 32 == RTPFB_NACK
    then WordRun(b, start + 12, Short(b[start + 2], b[start + 3]) - 2) else []
  }

  /** What the sub-packet at a start calls for. */
  function CallsAt(b: seq<Byte>, start: nat): seq<Call>
    requires start + 4 <= |b|
  {
    if AsksRefresh(b[start + 1], b[start] % 32) then [Refresh] else Resends(NackAt(b, start))
  }

  /** All that is called for on the walk through datagram s, at the front of buffer b. */
  function CallsAlong(b: seq<Byte>, s: seq<Byte>, start: nat): seq<Call>
    requires start <= |s| <= |b|
    decreases |s| - start
  {
    if start + 4 <= |s| && HeaderOk(s, start)
    then CallsAt(b, start) + CallsAlong(b, s, start + SliceAt(s, start).len) else []
  }

  /** The sub-packet at a start is a PLI or a FIR, the old form of FIR included. */
  ghost predicate RefreshAt(b: seq<Byte>, start: nat)
    requires start + 4 <= |b|
  {
    b[start + 1] == 192 || (b[start + 1] == 206 && (b[start] % 32 == 1 || b[start] % 32 == 4))
  }

  /** The length in words that the header at a start claims for what follows it. */
  ghost function Length(b: seq<Byte>, start: nat): int
    requires start + 4 <= |b|
  {
    var hi: int, lo: int := b[start + 2], b[start + 3];
    hi * 256 + lo
  }

  /** The sub-packet at a start is a NACK that asks for word w, in memory order, within
      what its header claims. */
  ghost predicate ResendAt(b: seq<Byte>, start: nat, w: U32)
    requires start + 4 <= |b|
  {
    && b[start + 1] == 205 && b[start] % 32 == 1
    && exists j: nat :: j < Length(b, start) - 2 && NackWord(b, start, j, w)
  }

  /** Word j of the NACK at a start is w. */
  ghost predicate NackWord(b: seq<Byte>, start: nat, j: nat, w: U32) { WordHere(b, start + 12 + 4 * j, w) }

  /** The four bytes at a position are those of w, the lowest first. */
  ghost predicate WordHere(b: seq<Byte>, at: nat, w: U32) {
    && at + 4 <= |b|
    && var b0: int, b1: int, b2: int, b3: int := b[at], b[at + 1], b[at + 2], b[at + 3];
       w == b0 + 0x100 * b1 + 0x1_0000 * b2 + 0x100_0000 * b3
  }

  lemma HereIsAt(b: seq<Byte>, at: nat, w: U32)
    ensures WordHere(b, at, w) <==> at + 4 <= |b| && WordAt(b, at) == w
  {
  }

  lemma {:induction false} RunHas(b: seq<Byte>, i: nat, n: int, w: U32, j: nat)
    requires j < n && WordHere(b, i + 4 * j, w)
    ensures w in WordRun(b, i, n)
    decreases j
  {
    hide WordHere, WordAt;
    HereIsAt(b, i + 4 * j, w);
    if j > 0 { RunHas(b, i + 4, n - 1, w, j - 1); }
  }

  lemma {:induction false} InRun(b: seq<Byte>, i: nat, n: int, w: U32) returns (j: nat)
    requires w in WordRun(b, i, n)
    ensures j < n && WordHere(b, i + 4 * j, w)
    decreases if n > 0 then n else 0
  {
    hide WordHere, WordAt;
    HereIsAt(b, i, w);
    if WordAt(b, i) == w {
      j := 0;
    } else {
      j := InRun(b, i + 4, n - 1, w);
      j := j + 1;
    }
  }

  lemma WordsAtIff(b: seq<Byte>, start: nat, w: U32)
    requires start + 4 <= |b|
    ensures ResendAt(b, start, w) <==>
            b[start + 1] == 205 && b[start] % 32 == 1 && w in WordRun(b, start + 12, Length(b, start) - 2)
  {
    hide WordHere, Length, WordRun;
    var n := Length(b, start) - 2;
    if w in WordRun(b, start + 12, n) {
      var j := InRun(b, start + 12, n, w);
      assert NackWord(b, start, j, w);
    }
    if ResendAt(b, start, w) {
      var j: nat :| j < n && NackWord(b, start, j, w);
      RunHas(b, start + 12, n, w, j);
    }
  }

  lemma CallsAtIff(b: seq<Byte>, start: nat)
    requires start + 4 <= |b|
    ensures Refresh in CallsAt(b, start) <==> RefreshAt(b, start)
    ensures forall w :: Resend(w) in CallsAt(b, start) <==> ResendAt(b, start, w)
  {
    ResendsAre(NackAt(b, start));
    hide WordRun, ResendAt;
    forall w ensures Resend(w) in CallsAt(b, start) <==> ResendAt(b, start, w) {
      WordsAtIff(b, start, w);
    }
  }

  /** What a datagram calls for is what the sub-packets visited call for. */
  lemma {:induction false} CallsAlongIff(b: seq<Byte>, s: seq<Byte>, start: nat, call: Call)
    requires start <= |s| <= |b|
    ensures forall i :: 0 <= i < |Walk(s, start)| ==> Walk(s, start)[i].start + 4 <= |b|
    ensures call in CallsAlong(b, s, start) <==>
            exists i :: 0 <= i < |Walk(s, start)| && call in CallsAt(b, Walk(s, start)[i].start)
    decreases |s| - start
  {
    hide CallsAt, Walk, HeaderOk, CallsAlong;
    if start + 4 <= |s| && HeaderOk(s, start) {
      var next := start + SliceAt(s, start).len;
      WalkStep(s, start);
      AlongStep(b, s, start);
      CallsAlongIff(b, s, next, call);
      HereOrLater(b, SliceAt(s, start), Walk(s, next), call);
    } else {
      WalkStops(s, start);
      AlongStops(b, s, start);
    }
  }

  lemma HereOrLater(b: seq<Byte>, here: Slice, rest: seq<Slice>, call: Call)
    requires here.start + 4 <= |b| && forall i :: 0 <= i < |rest| ==> rest[i].start + 4 <= |b|
    ensures
      var w := [here] + rest;
      && (forall i :: 0 <= i < |w| ==> w[i].start + 4 <= |b|)
      && ((exists i :: 0 <= i < |w| && call in CallsAt(b, w[i].start)) <==>
          call in CallsAt(b, here.start) || exists i :: 0 <= i < |rest| && call in CallsAt(b, rest[i].start))
  {
    hide *;
    var w := [here] + rest;
    assert w[0] == here && forall i :: 0 <= i < |rest| ==> w[i + 1] == rest[i];
    assert forall i :: 1 <= i < |w| ==> w[i] == rest[i - 1];
  }

  lemma AlongStops(b: seq<Byte>, s: seq<Byte>, start: nat)
    requires start <= |s| <= |b| && (start + 4 <= |s| ==> !HeaderOk(s, start))
    ensures CallsAlong(b, s, start) == []
  {
  }

  /** No sub-packet on the walk claims to be longer than what is left. */
  ghost predicate NoneOverruns(s: seq<Byte>, start: nat)
    requires start <= |s|
    decreases |s| - start
  {
    start + 4 <= |s| && HeaderOk(s, start) ==>
      start + Claimed(s, start) <= |s| && NoneOverruns(s, start + Claimed(s, start))
  }

  lemma {:induction false} CleanFits(s: seq<Byte>, start: nat)
    requires start <= |s| && Clean(s, start)
    ensures NoneOverruns(s, start)
    decreases |s| - start
  {
    if start + 4 <= |s| && HeaderOk(s, start) { CleanFits(s, start + Claimed(s, start)); }
  }

  lemma {:induction false} RunInBody(b: seq<Byte>, at: nat, body: seq<Byte>, i: nat, n: int)
    requires at + |body| <= |b| && body == b[at..at + |body|] && i + 4 * n == |body| && n >= 0
    ensures WordRun(b, at + i, n) == Words(body, i)
    decreases n
  {
    if n > 0 {
      assert WordAt(b, at + i) == WordAt(body, i);
      RunInBody(b, at, body, i + 4, n - 1);
    }
  }

  lemma NackInSlice(b: seq<Byte>, s: seq<Byte>, start: nat)
    requires |s| <= |b| && s == b[..|s|] && start + 4 <= |s| && start + Claimed(s, start) <= |s|
    ensures NackAt(b, start) == NacksOf(SubOf(s, SliceAt(s, start)))
    ensures CallsAt(b, start) == CallsOf(SubOf(s, SliceAt(s, start)))
  {
    var p := SubOf(s, SliceAt(s, start));
    var length := Short(s[start + 2], s[start + 3]);
    assert p.body == b[start + 4..start + 4 + |p.body|];
    if length >= 2 { RunInBody(b, start + 4, p.body, 8, length - 2); }
  }

  /** If no sub-packet overruns, what is called for is what the sub-packets visited say. */
  lemma {:induction false} CallsOfWhole(b: seq<Byte>, s: seq<Byte>, start: nat)
    requires start <= |s| <= |b| && s == b[..|s|] && NoneOverruns(s, start)
    ensures CallsAlong(b, s, start) == AllCalls(Unpacked(s, start))
    decreases |s| - start
  {
    hide CallsAt, CallsOf, NackAt, NacksOf, SubOf, AllCalls, Walk, WalkEnd, Unpacked;
    if start + 4 <= |s| && HeaderOk(s, start) {
      var next := start + SliceAt(s, start).len;
      NackInSlice(b, s, start);
      CallsOfWhole(b, s, next);
      WalkStep(s, start);
      AllCallsCons(Unpacked(s, start));
      assert Unpacked(s, start)[1..] == Unpacked(s, next);
    } else {
      WalkStops(s, start);
      NoCalls();
    }
  }

  /** What is read off the wire form of sub-packets, whatever the buffer holds behind it. */
  lemma WireRead(s: seq<Byte>, ps: seq<Sub>)
    requires AllFit(ps) && s == Wire(ps) && Aligned(|s|)
    ensures Unpacked(s, 0) == ps && WalkEnd(s, 0) == |s|
    ensures forall b :: s <= b ==> CallsAlong(b, s, 0) == AllCalls(ps)
  {
    hide *;
    assert s[0..] == s && |s| - 0 == |s|;
    WalkUndoesWire(s, 0, ps);
    WireUndoesWalkIff(s, 0);
    CleanFits(s, 0);
    forall b | s <= b ensures CallsAlong(b, s, 0) == AllCalls(ps) {
      CallsOfWhole(b, s, 0);
    }
  }

  /** Read the words of the sub-packet at a start. */
  method ReadNacks(msg: array<Byte>, start: nat) returns (words: seq<U32>)
    requires start + 4 <= msg.Length
    ensures words == NackAt(msg[..], start)
  {
    words := [];
    if msg[start + 1] == RTCP_RTPFB && msg[start] % 32 == RTPFB_NACK {
      words := ReadWords(msg, start + 12, Short(msg[start + 2], msg[start + 3]) - 2);
    }
  }

  /** What the sub-packet at a start calls for. */
  method ReadCalls(msg: array<Byte>, start: nat) returns (calls: seq<Call>)
    requires start + 4 <= msg.Length
    ensures calls == CallsAt(msg[..], start)
  {
    if AsksRefresh(msg[start + 1], msg[start] % 32) {
      calls := [Refresh];
    } else {
      var words := ReadNacks(msg, start);
      calls := Resends(words);
    }
  }

  method ReadWords(msg: array<Byte>, at: nat, n: int) returns (words: seq<U32>)
    ensures words == WordRun(msg[..], at, n)
  {
    hide *;
    words := [];
    ghost var b := msg[..];
    var i := 0;
    while i < n && at + 4 * i + 4 <= msg.Length
      invariant 0 <= i && (i > 0 ==> i <= n)
      invariant words + WordRun(b, at + 4 * i, n - i) == WordRun(b, at, n)
    {
      var k := at + 4 * i;
      RunStep(b, k, n - i);
      LongRead(msg, k);
      words := words + [Long(msg[k], msg[k + 1], msg[k + 2], msg[k + 3])];
      assert at + 4 * (i + 1) == k + 4;
      i := i + 1;
    }
    RunStops(b, at + 4 * i, n - i);
  }

  lemma RunStep(b: seq<Byte>, i: nat, n: int)
    requires n > 0 && i + 4 <= |b|
    ensures WordRun(b, i, n) == [WordAt(b, i)] + WordRun(b, i + 4, n - 1)
  {
  }

  lemma RunStops(b: seq<Byte>, i: nat, n: int)
    requires n <= 0 || i + 4 > |b|
    ensures WordRun(b, i, n) == []
  {
  }

  lemma LongRead(msg: array<Byte>, i: nat)
    requires i + 4 <= msg.Length
    ensures WordAt(msg[..], i) == Long(msg[i], msg[i + 1], msg[i + 2], msg[i + 3])
  {
  }

  lemma WordsStep(b: seq<Byte>, i: nat)
    requires i + 4 <= |b|
    ensures Words(b, i) == [WordAt(b, i)] + Words(b, i + 4)
  {
  }

  lemma NoWords(b: seq<Byte>, i: nat)
    requires i + 4 > |b|
    ensures Words(b, i) == []
  {
  }

  /** What comes of a datagram: how it ended, the slices visited, the bytes remaining,
      and what was called for. */
  datatype Visit = Visit(outcome: Outcome, visited: seq<Slice>, remain: int, calls: seq<Call>)

  /** A datagram at the front of buffer b. Too short or too long, or of another version, it
      is refused; otherwise its walk ends with less than a header left or at a bad header. */
  function Processed(b: seq<Byte>, bytes: nat): Visit
    requires bytes <= |b|
  {
    if bytes < EXT_HEADER || bytes > RTCP_MSG then Visit(Ignored, [], bytes, [])
    else if b[0] / 64 != 2 then Visit(if b[0] / 64 == 0 then Ice else Unsupported, [], bytes, [])
    else Visited(b, b[..bytes])
  }

  /** The same of a datagram that is not refused. */
  function Visited(b: seq<Byte>, s: seq<Byte>): Visit
    requires |s| <= |b|
  {
    var remain := |s| - WalkEnd(s, 0);
    Visit(if remain >= 4 then BrokenOff else Done, Walk(s, 0), remain, CallsAlong(b, s, 0))
  }

  /** Process one datagram of a video session, at the front of the receive buffer:
      visit its sub-packets and collect what they call for. */
  method ProcessPacket(msg: array<Byte>, bytes: nat)
    returns (outcome: Outcome, visited: seq<Slice>, remain: nat, calls: seq<Call>)
    requires bytes <= msg.Length
    ensures Visit(outcome, visited, remain, calls) == Processed(msg[..], bytes)
    ensures forall i :: 0 <= i < |visited| ==> visited[i].start + 4 <= msg.Length
    ensures Refresh in calls <==> exists i :: 0 <= i < |visited| && RefreshAt(msg[..], visited[i].start)
    ensures forall w :: Resend(w) in calls <==>
              exists i :: 0 <= i < |visited| && ResendAt(msg[..], visited[i].start, w)
  {
    visited, calls, remain := [], [], bytes;
    if remain < EXT_HEADER || remain > RTCP_MSG {
      return Ignored, visited, remain, calls;
    }
    if msg[0] / 64 != 2 {
      outcome := if msg[0] / 64 == 0 then Ice else Unsupported;
      return;
    }
    outcome, visited, remain, calls := VisitAll(msg, bytes, msg[..bytes]);
    VisitedCalls(msg[..], msg[..bytes]);
  }

  method VisitAll(msg: array<Byte>, bytes: nat, ghost s: seq<Byte>)
    returns (outcome: Outcome, visited: seq<Slice>, remain: nat, calls: seq<Call>)
    requires Prefix(msg, s) && |s| == bytes
    ensures |s| <= msg.Length && Visit(outcome, visited, remain, calls) == Visited(msg[..], s)
  {
    hide *;
    visited, calls, remain, outcome := [], [], bytes, Done;
    PrefixFits(msg, s);
    ghost var b := msg[..];
    Unstarted(b, s);
    var at := 0;
    while remain >= 4
      invariant at + remain == bytes
      invariant Progress(b, s, at, visited, calls)
      invariant outcome == Done
    {
      HeaderRead(msg, s, at);
      if !Acceptable(msg[at], msg[at + 1]) {
        outcome := BrokenOff;
        break;
      }
      SizeRead(msg, s, at);
      var len := Short(msg[at + 2], msg[at + 3]) * 4 + 4;
      if len > remain {
        len := remain;
      }
      var more := ReadCalls(msg, at);
      ProgressStep(b, s, at, visited, calls);
      visited, calls := visited + [Slice(at, len)], calls + more;
      at, remain := at + len, remain - len;
    }
    Finished(b, s, at, visited, calls);
    VisitedIs(b, s);
  }

  /** What the calls of a datagram come from. */
  lemma VisitedCalls(b: seq<Byte>, s: seq<Byte>)
    requires |s| <= |b|
    ensures
      var v := Visited(b, s);
      && (forall i :: 0 <= i < |v.visited| ==> v.visited[i].start + 4 <= |b|)
      && (Refresh in v.calls <==> exists i :: 0 <= i < |v.visited| && RefreshAt(b, v.visited[i].start))
      && forall w :: Resend(w) in v.calls <==>
           exists i :: 0 <= i < |v.visited| && ResendAt(b, v.visited[i].start, w)
  {
    hide *;
    VisitedIs(b, s);
    var w := Walk(s, 0);
    CallsAlongIff(b, s, 0, Refresh);
    forall i | 0 <= i < |w| ensures Refresh in CallsAt(b, w[i].start) <==> RefreshAt(b, w[i].start) {
      CallsAtIff(b, w[i].start);
    }
    forall word
      ensures Resend(word) in CallsAlong(b, s, 0) <==> exists i :: 0 <= i < |w| && ResendAt(b, w[i].start, word)
    {
      CallsAlongIff(b, s, 0, Resend(word));
      forall i | 0 <= i < |w| ensures Resend(word) in CallsAt(b, w[i].start) <==> ResendAt(b, w[i].start, word) {
        CallsAtIff(b, w[i].start);
      }
    }
  }

  lemma VisitedIs(b: seq<Byte>, s: seq<Byte>)
    requires |s| <= |b|
    ensures Visited(b, s) ==
            Visit(if |s| - WalkEnd(s, 0) >= 4 then BrokenOff else Done, Walk(s, 0), |s| - WalkEnd(s, 0),
                  CallsAlong(b, s, 0))
  {
  }

  ghost predicate Prefix(m: array<Byte>, s: seq<Byte>)
    reads m
  {
    |s| <= m.Length && s == m[..|s|]
  }

  lemma PrefixFits(m: array<Byte>, s: seq<Byte>)
    requires Prefix(m, s)
    ensures |s| <= m.Length
  {
  }

  lemma HeaderRead(m: array<Byte>, s: seq<Byte>, at: nat)
    requires at + 4 <= |s| && Prefix(m, s)
    ensures HeaderOk(s, at) <==> Acceptable(m[at], m[at + 1])
  {
  }

  lemma SizeRead(m: array<Byte>, s: seq<Byte>, at: nat)
    requires at + 4 <= |s| && Prefix(m, s)
    ensures at + 4 <= m.Length && Inside(s, SliceAt(s, at))
    ensures
      var len := Short(m[at + 2], m[at + 3]) * 4 + 4;
      len >= 4 && SliceAt(s, at) == Slice(at, if len > |s| - at then |s| - at else len)
  {
  }

  /** What has been visited up to at, and what is called for there. */
  ghost predicate Progress(b: seq<Byte>, s: seq<Byte>, at: nat, visited: seq<Slice>, calls: seq<Call>)
    requires at <= |s| <= |b|
  {
    && visited + Walk(s, at) == Walk(s, 0) && WalkEnd(s, at) == WalkEnd(s, 0)
    && calls + CallsAlong(b, s, at) == CallsAlong(b, s, 0)
  }

  lemma Unstarted(b: seq<Byte>, s: seq<Byte>)
    requires |s| <= |b|
    ensures Progress(b, s, 0, [], [])
  {
  }

  lemma ProgressStep(b: seq<Byte>, s: seq<Byte>, at: nat, visited: seq<Slice>, calls: seq<Call>)
    requires at + 4 <= |s| <= |b| && HeaderOk(s, at)
    ensures Progress(b, s, at, visited, calls) ==>
              Progress(b, s, at + SliceAt(s, at).len, visited + [SliceAt(s, at)], calls + CallsAt(b, at))
  {
    hide Walk, WalkEnd, Unpacked, SubOf, CallsAt, CallsAlong, SliceAt, HeaderOk;
    WalkStep(s, at);
    var next := at + SliceAt(s, at).len;
    AlongStep(b, s, at);
    Regroup(visited, [SliceAt(s, at)], Walk(s, next));
    Regroup(calls, CallsAt(b, at), CallsAlong(b, s, next));
  }

  lemma AlongStep(b: seq<Byte>, s: seq<Byte>, at: nat)
    requires at + 4 <= |s| <= |b| && HeaderOk(s, at)
    ensures CallsAlong(b, s, at) == CallsAt(b, at) + CallsAlong(b, s, at + SliceAt(s, at).len)
  {
  }

  lemma Finished(b: seq<Byte>, s: seq<Byte>, at: nat, visited: seq<Slice>, calls: seq<Call>)
    requires at <= |s| <= |b| && (at + 4 <= |s| ==> !HeaderOk(s, at))
    ensures Progress(b, s, at, visited, calls) ==>
              visited == Walk(s, 0) && at == WalkEnd(s, 0) && calls == CallsAlong(b, s, 0)
  {
    WalkStops(s, at);
  }
}
