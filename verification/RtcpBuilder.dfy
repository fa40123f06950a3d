/** Building a compound RTCP packet in the send buffer: a report, the video feedback
    that is due, and a source description. */
module RtcpBuilder {
  import opened Basics
  import opened ReportFields
  import opened RtcpFraming

  const RTPFB_TMMBR: Five := 3
  const RTPFB_TMMBN: Five := 4
  const SDES_CNAME: Byte := 1
  const SDES_NOTE: Byte := 7

  const MAX_NACK := 10

  /** The note, in ASCII. */
  const NOTE: seq<Byte> := Ascii("FreeSWITCH.org -- Come to ClueCon.com")

  function Ascii(s: string): (r: seq<Byte>)
    ensures |r| == |s|
  {
    seq(|s|, i requires 0 <= i < |s| => s[i] as int % 256)
  }

  function Digit(n: nat): Byte
    requires n < 16
  {
    if n < 10 then 48 + n else 87 + n
  }

  /** A number in lower-case hexadecimal. */
  function Hex(n: nat): (r: seq<Byte>)
    ensures |r| >= 1
  {
    (if n < 16 then [] else Hex(n / 16)) + [Digit(n % 16)]
  }

  lemma HexShort(n: U32)
    ensures |Hex(n)| <= 8
  {
    HexLength(n, 8);
  }

  lemma {:induction false} HexLength(n: nat, k: nat)
    requires k >= 1 && n < Power16(k)
    ensures |Hex(n)| <= k
  {
    if n >= 16 { HexLength(n / 16, k - 1); }
  }

  function Power16(k: nat): nat { if k == 0 then 1 else 16 * Power16(k - 1) }

  /** What is fixed about a session's reports, and what one round is to send: whether
      it is a receiver report, the sender information and the report block. */
  datatype Round = Round(receiver: bool, feedbackOnly: bool, info: seq<Byte>, block: seq<Byte>,
                         video: bool, nack: bool, words: seq<U32>)

  ghost predicate RoundOk(r: Round) { |r.info| == 20 && |r.block| == 24 && |r.words| <= MAX_NACK }

  /** The feedback that has been asked for. */
  datatype Asks = Asks(pli: nat, fir: nat, firSeq: Byte, tmmbr: U32, tmmbn: U32)

  function ReportSub(ssrc: U32, r: Round): Sub {
    if r.receiver then Sub(1, RTCP_RR, BigEndian(ssrc) + r.block)
    else if r.feedbackOnly then Sub(0, RTCP_SR, BigEndian(ssrc) + r.info)
    else Sub(1, RTCP_SR, BigEndian(ssrc) + r.info + r.block)
  }

  function FeedbackSub(pt: Byte, fmt: Five, sender: U32, media: U32, item: seq<Byte>): Sub {
    Sub(fmt, pt, BigEndian(sender) + BigEndian(media) + item)
  }

  function NackSub(ssrc: U32, remote: U32, word: U32): Sub {
    FeedbackSub(RTCP_RTPFB, RTPFB_NACK, ssrc, remote, LittleEndian(word))
  }

  function NackSubs(ssrc: U32, remote: U32, words: seq<U32>): (r: seq<Sub>)
    ensures |r| == |words|
  {
    seq(|words|, i requires 0 <= i < |words| => NackSub(ssrc, remote, words[i]))
  }

  function NacksDue(ssrc: U32, remote: U32, r: Round): seq<Sub> {
    if r.nack then NackSubs(ssrc, remote, r.words) else []
  }

  function PliSubs(ssrc: U32, remote: U32, asks: Asks): seq<Sub> {
    if asks.pli == 0 then [] else [FeedbackSub(RTCP_PSFB, PSFB_PLI, ssrc, remote, [])]
  }

  function FirSubs(ssrc: U32, remote: U32, asks: Asks): seq<Sub> {
    if asks.fir == 0 then []
    else [FeedbackSub(RTCP_PSFB, PSFB_FIR, ssrc, remote, BigEndian(remote) + [asks.firSeq, 0, 0, 0])]
  }

  function RateSub(fmt: Five, ssrc: U32, remote: U32, bps: U32): Sub {
    var q := ItemOf(bps);
    FeedbackSub(RTCP_RTPFB, fmt, ssrc, 0, BigEndian(remote) + [q.p0, q.p1, q.p2, q.p3])
  }

  function RateSubs(ssrc: U32, remote: U32, asks: Asks): seq<Sub> {
    (if asks.tmmbr == 0 then [] else [RateSub(RTPFB_TMMBR, ssrc, remote, asks.tmmbr)])
    + if asks.tmmbn == 0 then [] else [RateSub(RTPFB_TMMBN, ssrc, remote, asks.tmmbn)]
  }

  /** The CNAME and the note of a source, up to and including the END octet. */
  function Description(ssrc: U32): seq<Byte> {
    HexShort(ssrc);
    BigEndian(ssrc) + [SDES_CNAME, |Hex(ssrc)|] + Hex(ssrc) + [SDES_NOTE, |NOTE|] + NOTE + [0]
  }

  /** Padding to the next word; a whole word if there is nothing to pad. */
  function PadLength(n: nat): (r: nat)
    ensures 1 <= r <= 4 && Aligned(n + r)
  {
    4 - n % 4
  }

  function SdesSub(ssrc: U32, pad: seq<Byte>): Sub { Sub(1, RTCP_SDES, Description(ssrc) + pad) }

  function VideoSubs(ssrc: U32, remote: U32, asks: Asks, r: Round): seq<Sub> {
    if !r.video then []
    else
      PliSubs(ssrc, remote, asks)
      + NacksDue(ssrc, remote, r)
      + FirSubs(ssrc, remote, asks) + RateSubs(ssrc, remote, asks)
  }

  /** The whole compound packet. */
  function Compound(ssrc: U32, remote: U32, asks: Asks, r: Round, pad: seq<Byte>): seq<Sub> {
    [ReportSub(ssrc, r)] + VideoSubs(ssrc, remote, asks, r) + [SdesSub(ssrc, pad)]
  }

  /** A session's send buffer and the feedback it still owes. */
  class RtcpSender {
    const ssrc: U32
    const remote: U32
    const buf: array<Byte>
    var asks: Asks
    var nacksInflight: nat

    ghost predicate Valid() { buf.Length == RTCP_MSG }

    lemma Room(r: Round)
      requires Valid() && RoundOk(r)
      ensures buf.Length >= 500 && |r.words| <= 10
    {
    }

    constructor (ssrc: U32, remote: U32, asks: Asks)
      ensures Valid() && fresh(buf) && this.asks == asks && nacksInflight == 0
      ensures this.ssrc == ssrc && this.remote == remote
    {
      this.ssrc, this.remote, this.asks, nacksInflight := ssrc, remote, asks, 0;
      buf := new Byte[RTCP_MSG](_ => 0);
    }

    /** Write bytes at a position. */
    method Put(at: nat, bytes: seq<Byte>)
      requires at + |bytes| <= buf.Length
      modifies buf
      ensures buf[..at + |bytes|] == old(buf[..at]) + bytes
      ensures buf[at + |bytes|..] == old(buf[at + |bytes|..])
    {
      var i := 0;
      while i < |bytes|
        invariant 0 <= i <= |bytes|
        invariant buf[..at + i] == old(buf[..at]) + bytes[..i]
        invariant buf[at + i..] == old(buf[at + i..])
      {
        buf[at + i] := bytes[i];
        i := i + 1;
      }
    }

    /** Write a sub-packet behind those already there. */
    method Add(n: nat, p: Sub, ghost ps: seq<Sub>) returns (m: nat)
      requires AllFit(ps) && Fits(p) && n + 4 + |p.body| <= buf.Length && buf[..n] == Wire(ps)
      modifies buf
      ensures AllFit(ps + [p]) && m == n + 4 + |p.body| && buf[..m] == Wire(ps + [p])
    {
      WireAppend(ps, p);
      var header := Header(p.count, p.pt, |p.body| / 4);
      Put(n, header);
      Put(n + 4, p.body);
      m := n + 4 + |p.body|;
      assert buf[..m] == Wire(ps) + header + p.body;
    }

    /** Write feedback of one kind, with both SSRCs and an item of at most two words. */
    method AddFeedback(n: nat, pt: Byte, fmt: Five, media: U32, item: seq<Byte>, ghost ps: seq<Sub>) returns (m: nat)
      requires AllFit(ps) && 191 < pt < 210 && n + 20 <= buf.Length && buf[..n] == Wire(ps)
      requires Aligned(|item|) && |item| <= 8
      modifies buf
      ensures m == n + 12 + |item|
      ensures
        var p := FeedbackSub(pt, fmt, ssrc, media, item);
        AllFit(ps + [p]) && buf[..m] == Wire(ps + [p])
    {
      m := Add(n, FeedbackSub(pt, fmt, ssrc, media, item), ps);
    }

    method AddReport(r: Round) returns (m: nat)
      requires Valid() && RoundOk(r)
      modifies buf
      ensures m <= 52 && AllFit([ReportSub(ssrc, r)]) && buf[..m] == Wire([ReportSub(ssrc, r)])
    {
      var count, pt, body := 1, RTCP_SR, BigEndian(ssrc);
      if r.receiver {
        pt, body := RTCP_RR, body + r.block;
      } else {
        body := body + r.info;
        if r.feedbackOnly {
          count := 0;
        } else {
          body := body + r.block;
        }
      }
      assert [] + [ReportSub(ssrc, r)] == [ReportSub(ssrc, r)];
      m := Add(0, Sub(count, pt, body), []);
    }

    method AddPli(n: nat, ghost ps: seq<Sub>) returns (m: nat)
      requires Valid() && AllFit(ps) && n + 20 <= buf.Length && buf[..n] == Wire(ps)
      modifies buf, this`asks
      ensures asks == old(asks).(pli := 0) && m <= n + 20
      ensures AllFit(ps + PliSubs(ssrc, remote, old(asks))) && buf[..m] == Wire(ps + PliSubs(ssrc, remote, old(asks)))
    {
      m := n;
      if asks.pli != 0 {
        m := AddFeedback(n, RTCP_PSFB, PSFB_PLI, remote, [], ps);
        asks := asks.(pli := 0);
      } else {
        assert ps + [] == ps;
      }
    }

    method AddNacks(n: nat, words: seq<U32>, ghost ps: seq<Sub>) returns (m: nat)
      requires Valid() && AllFit(ps) && n + 20 * |words| <= buf.Length && buf[..n] == Wire(ps)
      modifies buf, this`nacksInflight
      ensures nacksInflight == |words| && m <= n + 20 * |words|
      ensures AllFit(ps + NackSubs(ssrc, remote, words)) && buf[..m] == Wire(ps + NackSubs(ssrc, remote, words))
    {
      hide *;
      NacksAre(ssrc, remote, words);
      m := n;
      ghost var subs := NackSubs(ssrc, remote, words);
      assert ps + subs[..0] == ps;
      var i := 0;
      while i < |words|
        invariant 0 <= i <= |words| && m <= n + 20 * i
        invariant AllFit(ps + subs[..i]) && buf[..m] == Wire(ps + subs[..i])
      {
        m := AddFeedback(m, RTCP_RTPFB, RTPFB_NACK, remote, LittleEndian(words[i]), ps + subs[..i]);
        assert ps + subs[..i] + [subs[i]] == ps + subs[..i + 1];
        i := i + 1;
      }
      assert subs[..i] == subs;
      nacksInflight := i;
    }

    method AddFir(n: nat, ghost ps: seq<Sub>) returns (m: nat)
      requires Valid() && AllFit(ps) && n + 20 <= buf.Length && buf[..n] == Wire(ps)
      modifies buf, this`asks
      ensures asks == if old(asks).fir == 0 then old(asks)
        else old(asks).(fir := 0, firSeq := (old(asks).firSeq + 1) % 256)
      ensures m <= n + 20
      ensures AllFit(ps + FirSubs(ssrc, remote, old(asks))) && buf[..m] == Wire(ps + FirSubs(ssrc, remote, old(asks)))
    {
      m := n;
      if asks.fir != 0 {
        m := AddFeedback(n, RTCP_PSFB, PSFB_FIR, remote, BigEndian(remote) + [asks.firSeq, 0, 0, 0], ps);
        asks := asks.(firSeq := (asks.firSeq + 1) % 256, fir := 0);
      } else {
        assert ps + [] == ps;
      }
    }

    method AddRate(n: nat, fmt: Five, bps: U32, ghost ps: seq<Sub>) returns (m: nat)
      requires AllFit(ps) && n + 20 <= buf.Length && buf[..n] == Wire(ps)
      modifies buf
      ensures m == n + 20 && AllFit(ps + [RateSub(fmt, ssrc, remote, bps)])
      ensures buf[..m] == Wire(ps + [RateSub(fmt, ssrc, remote, bps)])
    {
      var q, _, _ := CalcBwExp(bps);
      m := AddFeedback(n, RTCP_RTPFB, fmt, 0, BigEndian(remote) + [q.p0, q.p1, q.p2, q.p3], ps);
    }

    method AddRates(n: nat, ghost ps: seq<Sub>) returns (m: nat)
      requires Valid() && AllFit(ps) && n + 40 <= buf.Length && buf[..n] == Wire(ps)
      modifies buf, this`asks
      ensures asks == old(asks).(tmmbr := 0, tmmbn := 0) && m <= n + 40
      ensures AllFit(ps + RateSubs(ssrc, remote, old(asks))) && buf[..m] == Wire(ps + RateSubs(ssrc, remote, old(asks)))
    {
      hide *;
      m := n;
      ghost var done := [];
      assert ps + done == ps;
      FewRates(ssrc, remote, asks);
      while asks.tmmbr != 0 || asks.tmmbn != 0
        invariant done + RateSubs(ssrc, remote, asks) == RateSubs(ssrc, remote, old(asks))
        invariant |done| <= 2 && m == n + 20 * |done|
        invariant AllFit(ps + done) && buf[..m] == Wire(ps + done)
        invariant asks.(tmmbr := 0, tmmbn := 0) == old(asks).(tmmbr := 0, tmmbn := 0)
        decreases asks.tmmbr != 0, asks.tmmbn != 0
      {
        FirstRate(ssrc, remote, asks);
        var fmt, bps := RTPFB_TMMBN, asks.tmmbn;
        if asks.tmmbr != 0 {
          fmt, bps := RTPFB_TMMBR, asks.tmmbr;
          asks := asks.(tmmbr := 0);
        } else {
          asks := asks.(tmmbn := 0);
        }
        m := AddRate(m, fmt, bps, ps + done);
        ghost var p := RateSub(fmt, ssrc, remote, bps);
        Regroup(ps, done, [p]);
        Regroup(done, [p], RateSubs(ssrc, remote, asks));
        done := done + [p];
      }
      FewRates(ssrc, remote, asks);
      assert done + [] == done;
    }

    /** Write an SDES item and the NUL after its text. */
    method PutText(at: nat, kind: Byte, text: seq<Byte>)
      requires at + 3 + |text| <= buf.Length && |text| < 256
      modifies buf
      ensures buf[..at + 2 + |text|] == old(buf[..at]) + ([kind, |text|] + text)
      ensures buf[at + 2 + |text|] == 0
    {
      var item := [kind, |text|] + text;
      Put(at, item + [0]);
      assert buf[..at + |item| + 1] == old(buf[..at]) + item + [0];
    }

    /** Write what follows the SDES header. The second text overwrites the NUL of the
        first; its own serves as the END octet. */
    method AddDescription(at: nat) returns (end: nat)
      requires at + 56 <= buf.Length
      modifies buf
      ensures end == at + |Description(ssrc)| <= at + 56 && end <= buf.Length
      ensures buf[..end] == old(buf[..at]) + Description(ssrc)
    {
      HexShort(ssrc);
      DescriptionIs(ssrc);
      hide *;
      var name := Hex(ssrc);
      Put(at, BigEndian(ssrc));
      end := at + 4;
      PutText(end, SDES_CNAME, name);
      end := end + 2 + |name|;
      PutText(end, SDES_NOTE, NOTE);
      end := end + 2 + |NOTE|;
      end := end + 1;
      assert buf[..end] == buf[..end - 1] + [0];
    }

    /** Write the source description. The padding is whatever the buffer held. */
    method AddSdes(n: nat, ghost ps: seq<Sub>) returns (m: nat, ghost pad: seq<Byte>)
      requires Valid() && AllFit(ps) && n + 64 <= buf.Length && buf[..n] == Wire(ps)
      modifies buf
      ensures |pad| == PadLength(4 + |Description(ssrc)|) && m <= buf.Length
      ensures AllFit(ps + [SdesSub(ssrc, pad)]) && buf[..m] == Wire(ps + [SdesSub(ssrc, pad)])
    {
      hide *;
      SdesRoom(ssrc);
      var end := AddDescription(n + 4);
      var sdesBytes := end - n;
      sdesBytes := sdesBytes + PadLength(sdesBytes);
      m := n + sdesBytes;
      pad := buf[end..m];
      Between(buf[..], old(buf[..n + 4]), Description(ssrc), m);
      FrontKept(buf[..], old(buf[..]), n, end, Description(ssrc));
      SdesEncoded(ssrc, pad, sdesBytes);
      Seal(n, sdesBytes / 4 - 1, SdesSub(ssrc, pad), ps);
    }

    /** Write the header of a sub-packet of type SDES in front of its body. */
    method Seal(n: nat, length: nat, ghost p: Sub, ghost ps: seq<Sub>)
      requires AllFit(ps) && Fits(p) && length < 0x1_0000 && n + 4 + |p.body| <= buf.Length && buf[..n] == Wire(ps)
      requires Encoded(p) == Header(1, RTCP_SDES, length) + p.body && buf[n + 4..n + 4 + |p.body|] == p.body
      modifies buf
      ensures AllFit(ps + [p]) && buf[..n + 4 + |p.body|] == Wire(ps + [p])
    {
      hide *;
      var header := Header(1, RTCP_SDES, length);
      ghost var before, k := buf[n + 4..], |p.body|;
      assert before[..k] == buf[n + 4..n + 4 + k];
      Put(n, header);
      Spliced(buf[..], Wire(ps) + header, before, k);
      WireAppend(ps, p);
    }

    method AddVideo(n: nat, r: Round, ghost ps: seq<Sub>) returns (m: nat)
      requires Valid() && RoundOk(r) && AllFit(ps) && n <= 52 && buf[..n] == Wire(ps)
      modifies buf, this`asks, this`nacksInflight
      ensures m <= n + 280 && asks == Answered(old(asks), r.video)
      ensures nacksInflight == if r.video && r.nack && r.words != [] then |r.words| else old(nacksInflight)
      ensures AllFit(ps + VideoSubs(ssrc, remote, old(asks), r))
      ensures buf[..m] == Wire(ps + VideoSubs(ssrc, remote, old(asks), r))
    {
      hide *;
      VideoSubsAre(ssrc, remote, asks, r, ps);
      AnsweredIs(asks, r.video);
      SameFirRates(ssrc, remote, asks);
      Room(r);
      m := n;
      ghost var qs := ps;
      if r.video {
        m := AddPli(m, qs);
        qs := qs + PliSubs(ssrc, remote, old(asks));
        if r.nack && r.words != [] {
          m := AddNacks(m, r.words, qs);
        }
        assert qs + [] == qs;
        qs := qs + NacksDue(ssrc, remote, r);
        m := AddFir(m, qs);
        qs := qs + FirSubs(ssrc, remote, old(asks));
        m := AddRates(m, qs);
        qs := qs + RateSubs(ssrc, remote, old(asks));
      }
    }

    /** Build the packet of one round and say how long it is. Feedback that went out
        is no longer owed. */
    method Build(r: Round) returns (n: nat, ghost pad: seq<Byte>)
      requires Valid() && RoundOk(r)
      modifies buf, this`asks, this`nacksInflight
      ensures |pad| == PadLength(4 + |Description(ssrc)|) && n <= buf.Length
      ensures asks == Answered(old(asks), r.video)
      ensures nacksInflight == if r.video && r.nack && r.words != [] then |r.words| else old(nacksInflight)
      ensures AllFit(Compound(ssrc, remote, old(asks), r, pad))
      ensures buf[..n] == Wire(Compound(ssrc, remote, old(asks), r, pad))
    {
      hide *;
      Room(r);
      n := AddReport(r);
      ghost var ps := [ReportSub(ssrc, r)];
      n := AddVideo(n, r, ps);
      ps := ps + VideoSubs(ssrc, remote, old(asks), r);
      n, pad := AddSdes(n, ps);
      CompoundIs(ssrc, remote, old(asks), r, pad);
    }
  }

  /** The kinds of feedback, in the order they are written. */
  lemma VideoSubsAre(ssrc: U32, remote: U32, asks: Asks, r: Round, ps: seq<Sub>)
    ensures ps + VideoSubs(ssrc, remote, asks, r) ==
            if !r.video then ps
            else ps + PliSubs(ssrc, remote, asks) + NacksDue(ssrc, remote, r)
                 + FirSubs(ssrc, remote, asks) + RateSubs(ssrc, remote, asks)
    ensures NacksDue(ssrc, remote, r) ==
            if r.nack && r.words != [] then NackSubs(ssrc, remote, r.words) else []
  {
  }

  lemma CompoundIs(ssrc: U32, remote: U32, asks: Asks, r: Round, pad: seq<Byte>)
    ensures Compound(ssrc, remote, asks, r, pad) ==
            [ReportSub(ssrc, r)] + VideoSubs(ssrc, remote, asks, r) + [SdesSub(ssrc, pad)]
  {
  }

  lemma SameFirRates(ssrc: U32, remote: U32, asks: Asks)
    ensures FirSubs(ssrc, remote, asks.(pli := 0)) == FirSubs(ssrc, remote, asks)
    ensures forall f, k ::
              RateSubs(ssrc, remote, asks.(pli := 0, fir := f, firSeq := k)) == RateSubs(ssrc, remote, asks)
  {
  }

  lemma AnsweredIs(asks: Asks, video: bool)
    ensures
      Answered(asks, video) ==
      if !video then asks
      else (if asks.fir == 0 then asks
        else asks.(fir := 0, firSeq := (asks.firSeq + 1) % 256)).(pli := 0, tmmbr := 0, tmmbn := 0)
  {
  }

  /** What is still asked for after a round. */
  function Answered(asks: Asks, video: bool): Asks {
    if !video then asks else Asks(0, 0, if asks.fir == 0 then asks.firSeq else (asks.firSeq + 1) % 256, 0, 0)
  }

  lemma SdesRoom(ssrc: U32)
    ensures |Description(ssrc)| <= 56
  {
    DescriptionIs(ssrc);
  }

  /** A NACK is feedback whose item is its word, as it is in memory. */
  lemma NacksAre(ssrc: U32, remote: U32, words: seq<U32>)
    ensures 191 < RTCP_RTPFB < 210 && forall w :: Aligned(|LittleEndian(w)|)
    ensures forall i :: 0 <= i < |words| ==>
              NackSubs(ssrc, remote, words)[i] ==
              FeedbackSub(RTCP_RTPFB, RTPFB_NACK, ssrc, remote, LittleEndian(words[i]))
  {
  }

  lemma Between(b: seq<Byte>, front: seq<Byte>, body: seq<Byte>, m: nat)
    requires |front| + |body| <= m <= |b| && b[..|front| + |body|] == front + body
    ensures b[|front|..m] == body + b[|front| + |body|..m]
  {
    assert b[..|front| + |body|][|front|..] == body;
  }

  lemma FrontKept(b: seq<Byte>, was: seq<Byte>, n: nat, end: nat, text: seq<Byte>)
    requires n + 4 <= end <= |b| && n + 4 <= |was| && b[..end] == was[..n + 4] + text
    ensures b[..n] == was[..n]
  {
    assert b[..n] == b[..end][..n];
  }

  lemma Spliced(b: seq<Byte>, front: seq<Byte>, back: seq<Byte>, k: nat)
    requires |front| <= |b| && b[..|front|] == front && b[|front|..] == back && k <= |back|
    ensures b[..|front| + k] == front + back[..k]
  {
  }

  lemma FewRates(ssrc: U32, remote: U32, asks: Asks)
    ensures |RateSubs(ssrc, remote, asks)| <= 2
    ensures asks.tmmbr == 0 && asks.tmmbn == 0 ==> RateSubs(ssrc, remote, asks) == []
  {
  }

  /** The request goes before the notification. */
  lemma FirstRate(ssrc: U32, remote: U32, asks: Asks)
    requires asks.tmmbr != 0 || asks.tmmbn != 0
    ensures
      RateSubs(ssrc, remote, asks) ==
      if asks.tmmbr != 0
      then [RateSub(RTPFB_TMMBR, ssrc, remote, asks.tmmbr)] + RateSubs(ssrc, remote, asks.(tmmbr := 0))
      else [RateSub(RTPFB_TMMBN, ssrc, remote, asks.tmmbn)] + RateSubs(ssrc, remote, asks.(tmmbn := 0))
  {
  }

  lemma DescriptionIs(ssrc: U32)
    ensures |Hex(ssrc)| <= 8 && |NOTE| == 37 && |BigEndian(ssrc)| == 4
    ensures Description(ssrc) ==
            BigEndian(ssrc) + ([SDES_CNAME, |Hex(ssrc)|] + Hex(ssrc)) + ([SDES_NOTE, |NOTE|] + NOTE) + [0]
  {
    HexShort(ssrc);
  }

  lemma SdesFits(ssrc: U32, pad: seq<Byte>)
    requires |pad| == PadLength(4 + |Description(ssrc)|)
    ensures Fits(SdesSub(ssrc, pad))
  {
    HexShort(ssrc);
  }

  lemma SdesEncoded(ssrc: U32, pad: seq<Byte>, sdesBytes: nat)
    requires |pad| == PadLength(4 + |Description(ssrc)|) && sdesBytes == 4 + |Description(ssrc)| + |pad|
    ensures 0 < sdesBytes / 4 <= 0x1_0000 && Fits(SdesSub(ssrc, pad))
    ensures SdesSub(ssrc, pad).body == Description(ssrc) + pad
    ensures Encoded(SdesSub(ssrc, pad)) == Header(1, RTCP_SDES, sdesBytes / 4 - 1) + (Description(ssrc) + pad)
  {
    SdesFits(ssrc, pad);
  }

  /** What a text in lower-case hexadecimal stands for. */
  ghost function HexValue(text: seq<Byte>): int {
    if text == [] then 0
    else
      var c: int := text[|text| - 1];
      16 * HexValue(text[..|text| - 1]) + if 48 <= c <= 57 then c - 48 else c - 87
  }

  lemma HexEnd(front: seq<Byte>, d: nat)
    requires d < 16
    ensures 48 <= Digit(d) <= 57 || 97 <= Digit(d) <= 102
    ensures HexValue(front + [Digit(d)]) == 16 * HexValue(front) + d
  {
    assert (front + [Digit(d)])[..|front|] == front;
  }

  lemma HexEmpty()
    ensures HexValue([]) == 0
  {
  }

  lemma HexIs(n: nat)
    ensures Hex(n) == (if n < 16 then [] else Hex(n / 16)) + [Digit(n % 16)]
  {
  }

  lemma {:induction false} HexReads(n: nat)
    ensures HexValue(Hex(n)) == n
    ensures forall c :: c in Hex(n) ==> 48 <= c <= 57 || 97 <= c <= 102
  {
    hide *;
    HexIs(n);
    HexEnd(if n < 16 then [] else Hex(n / 16), n % 16);
    if n < 16 { HexEmpty(); } else { HexReads(n / 16); }
  }

  /** An SDES item at a position: its type, the length of its text, and the text. */
  ghost predicate ItemAt(b: seq<Byte>, at: nat, kind: int, text: seq<Byte>) {
    && at + 2 + |text| <= |b| && b[at] == kind && b[at + 1] == |text| && b[at + 2..at + 2 + |text|] == text
  }

  /** A source description gives the SSRC in hexadecimal as the CNAME, then the note, and
      closes with one to four bytes, of which the first is zero. */
  lemma SdesSays(ssrc: U32, pad: seq<Byte>)
    requires |pad| == PadLength(4 + |Description(ssrc)|)
    ensures
      var b, name := SdesSub(ssrc, pad).body, Hex(ssrc);
      && HexValue(name) == ssrc && ItemAt(b, 4, 1, name) && ItemAt(b, 6 + |name|, 7, NOTE)
      && |b| == 8 + |name| + |NOTE| + 1 + |pad| && b[8 + |name| + |NOTE|] == 0 && Aligned(|b|)
  {
    HexReads(ssrc);
    DescriptionIs(ssrc);
    var name, head := Hex(ssrc), BigEndian(ssrc);
    var b := SdesSub(ssrc, pad).body;
    hide *;
    SdesBody(ssrc, pad);
    Laid(b, head, name, NOTE, pad);
  }

  lemma SdesBody(ssrc: U32, pad: seq<Byte>)
    requires |pad| == PadLength(4 + |Description(ssrc)|)
    ensures
      var b := SdesSub(ssrc, pad).body;
      b == Description(ssrc) + pad && Aligned(|b|) && SDES_CNAME == 1 && SDES_NOTE == 7
  {
  }

  lemma Laid(b: seq<Byte>, head: seq<Byte>, name: seq<Byte>, note: seq<Byte>, pad: seq<Byte>)
    requires |head| == 4 && |name| < 256 && |note| < 256
    requires b == head + ([1, |name|] + name) + ([7, |note|] + note) + [0] + pad
    ensures ItemAt(b, 4, 1, name) && ItemAt(b, 6 + |name|, 7, note)
    ensures |b| == 8 + |name| + |note| + 1 + |pad| && b[8 + |name| + |note|] == 0
  {
    hide ItemAt;
    var one, two := [1, |name|] + name, [7, |note|] + note;
    assert b == head + one + (two + [0] + pad);
    ItemFound(b, head, name, two + [0] + pad, 1);
    assert b == (head + one) + two + ([0] + pad);
    ItemFound(b, head + one, note, [0] + pad, 7);
    assert b == (head + one + two) + ([0] + pad);
    assert b[|head + one + two|] == ([0] + pad)[0];
  }

  lemma ItemFound(b: seq<Byte>, front: seq<Byte>, text: seq<Byte>, back: seq<Byte>, kind: Byte)
    requires |text| < 256 && b == front + ([kind, |text|] + text) + back
    ensures ItemAt(b, |front|, kind, text)
  {
  }

  // ---- the other end ----

  /** A NACK's word comes back as it was in the sender's memory. */
  lemma NackCarried(p: Sub, word: U32)
    requires p.pt == RTCP_RTPFB && p.count == RTPFB_NACK && |p.body| == 12 && WordAt(p.body, 8) == word
    ensures CallsOf(p) == [Resend(word)]
  {
    hide WordAt;
    WordsStep(p.body, 8);
    NoWords(p.body, 12);
    assert Resends([word]) == [Resend(word)];
  }

  /** Sub-packets that each call for a word call for all of them. */
  lemma {:induction false} WordsCarried(subs: seq<Sub>, words: seq<U32>)
    requires |subs| == |words| && forall i :: 0 <= i < |subs| ==> CallsOf(subs[i]) == [Resend(words[i])]
    ensures AllCalls(subs) == Resends(words)
  {
    hide AllCalls, CallsOf;
    if words == [] {
      NoCalls();
    } else {
      AllCallsCons(subs);
      WordsCarried(subs[1..], words[1..]);
      assert Resends(words) == [Resend(words[0])] + Resends(words[1..]);
    }
  }

  lemma NacksCarried(ssrc: U32, remote: U32, words: seq<U32>)
    ensures AllCalls(NackSubs(ssrc, remote, words)) == Resends(words)
  {
    hide AllCalls, CallsOf, LittleEndian, BigEndian;
    var subs, front := NackSubs(ssrc, remote, words), BigEndian(ssrc) + BigEndian(remote);
    forall i | 0 <= i < |words| ensures CallsOf(subs[i]) == [Resend(words[i])] {
      assert subs[i].body == front + LittleEndian(words[i]);
      WordFound(subs[i].body, 8, words[i]);
      NackCarried(subs[i], words[i]);
    }
    WordsCarried(subs, words);
  }

  /** Nothing else in the packet calls for anything. */
  lemma {:induction false} OthersCallNone(ps: seq<Sub>)
    requires forall i :: 0 <= i < |ps| ==>
      (ps[i].pt != RTCP_RTPFB || ps[i].count != RTPFB_NACK) && !AsksRefresh(ps[i].pt, ps[i].count)
    ensures AllCalls(ps) == []
  {
    if ps != [] { OthersCallNone(ps[1..]); }
  }

  function Refreshes(asked: nat): seq<Call> { if asked == 0 then [] else [Refresh] }

  /** What a round's packet calls for, in order: a PLI goes before the NACKs, a FIR after. */
  function CallsDue(asks: Asks, r: Round): seq<Call> {
    if !r.video then []
    else Refreshes(asks.pli) + Resends(if r.nack then r.words else []) + Refreshes(asks.fir)
  }

  lemma CompoundCarries(ssrc: U32, remote: U32, asks: Asks, r: Round, pad: seq<Byte>)
    ensures AllCalls(Compound(ssrc, remote, asks, r, pad)) == CallsDue(asks, r)
  {
    var front, back := [ReportSub(ssrc, r)], [SdesSub(ssrc, pad)];
    OthersCallNone(front);
    OthersCallNone(back);
    AllCallsAppend(front + VideoSubs(ssrc, remote, asks, r), back);
    AllCallsAppend(front, VideoSubs(ssrc, remote, asks, r));
    if r.video { VideoCarries(ssrc, remote, asks, r); } else { NoCalls(); }
  }

  lemma VideoCarries(ssrc: U32, remote: U32, asks: Asks, r: Round)
    requires r.video
    ensures AllCalls(VideoSubs(ssrc, remote, asks, r)) == CallsDue(asks, r)
  {
    var pli, nacks := PliSubs(ssrc, remote, asks), NacksDue(ssrc, remote, r);
    var fir, rates := FirSubs(ssrc, remote, asks), RateSubs(ssrc, remote, asks);
    RefreshCarried(ssrc, remote, asks);
    RatesCallNone(ssrc, remote, asks);
    hide AllCalls, CallsOf, PliSubs, FirSubs, RateSubs, NackSubs, Refreshes, Resends;
    var words := Resends(if r.nack then r.words else []);
    assert Refreshes(asks.pli) + words + Refreshes(asks.fir) + [] == CallsDue(asks, r);
    AllCallsAppend(pli + nacks + fir, rates);
    AllCallsAppend(pli + nacks, fir);
    AllCallsAppend(pli, nacks);
    if r.nack { NacksCarried(ssrc, remote, r.words); } else { NoCalls(); }
  }

  lemma RatesCallNone(ssrc: U32, remote: U32, asks: Asks)
    ensures AllCalls(RateSubs(ssrc, remote, asks)) == []
  {
    OthersCallNone(RateSubs(ssrc, remote, asks));
  }

  lemma RefreshCarried(ssrc: U32, remote: U32, asks: Asks)
    ensures AllCalls(PliSubs(ssrc, remote, asks)) == Refreshes(asks.pli)
    ensures AllCalls(FirSubs(ssrc, remote, asks)) == Refreshes(asks.fir)
  {
  }

  // ---- who says what about whom ----

  /** The 32-bit number at a position, the highest byte first. */
  ghost function Number(b: seq<Byte>, at: nat): int
    requires at + 4 <= |b|
  {
    var b0: int, b1: int, b2: int, b3: int := b[at], b[at + 1], b[at + 2], b[at + 3];
    b0 * 0x100_0000 + b1 * 0x1_0000 + b2 * 0x100 + b3
  }

  /** A sub-packet names its sender first. Feedback, types 205 and 206, then names the
      source it is about, or none if it is about bit rates: then, and in a FIR, the item does. */
  ghost predicate Speaks(p: Sub, ssrc: U32, remote: U32, asks: Asks, r: Round) {
    && |p.body| >= 4 && Number(p.body, 0) == ssrc
    && (p.pt == 200 ==> p.body[4..] == if p.count == 0 then r.info else r.info + r.block)
    && (p.pt == 201 ==> p.body[4..] == r.block)
    && (p.pt == 205 && p.count == 1 ==> |p.body| == 12 && Number(p.body, 4) == remote)
    && (p.pt == 205 && p.count != 1 ==>
         && p.count in {3, 4} && |p.body| == 16 && Number(p.body, 4) == 0 && Number(p.body, 8) == remote
         && Rates(p, if p.count == 3 then asks.tmmbr else asks.tmmbn))
    && (p.pt == 206 && p.count == 1 ==> |p.body| == 8 && Number(p.body, 4) == remote)
    && (p.pt == 206 && p.count != 1 ==>
         && p.count == 4 && |p.body| == 16 && Number(p.body, 4) == remote && Number(p.body, 8) == remote
         && p.body[12] == asks.firSeq && p.body[13] == p.body[14] == p.body[15] == 0)
  }

  /** The last four bytes of the item of a TMMBR or TMMBN are those of the bit rate, in order. */
  ghost predicate Rates(p: Sub, bps: U32) {
    |p.body| == 16 && Parts(p.body[12], p.body[13], p.body[14], p.body[15]) == ItemOf(bps)
  }

  lemma BigEndianNumber(x: U32)
    ensures Number(BigEndian(x), 0) == x
  {
    Base256(x);
    Base256(x / 256);
    Base256(x / 0x1_0000);
    assert x / 256 / 256 == x / 0x1_0000;
    assert x / 0x1_0000 / 256 == x / 0x100_0000;
  }

  lemma NumberIn(b: seq<Byte>, at: nat, part: seq<Byte>)
    requires |part| == 4 && at + 4 <= |b| && b[at..at + 4] == part
    ensures Number(b, at) == Number(part, 0)
  {
    assert part[0] == b[at] && part[1] == b[at + 1] && part[2] == b[at + 2] && part[3] == b[at + 3];
  }

  lemma FeedbackSpeaks(pt: Byte, fmt: Five, sender: U32, media: U32, item: seq<Byte>)
    ensures
      var p := FeedbackSub(pt, fmt, sender, media, item);
      && p.pt == pt && p.count == fmt && |p.body| == 8 + |item|
      && Number(p.body, 0) == sender && Number(p.body, 4) == media && p.body[8..] == item
  {
    var p := FeedbackSub(pt, fmt, sender, media, item);
    BigEndianNumber(sender);
    BigEndianNumber(media);
    hide BigEndian, Number;
    NumberIn(p.body, 0, BigEndian(sender));
    NumberIn(p.body, 4, BigEndian(media));
  }

  lemma ItemNumber(p: Sub, x: U32, rest: seq<Byte>)
    requires |p.body| >= 12 && p.body[8..] == BigEndian(x) + rest
    ensures Number(p.body, 8) == x
  {
    BigEndianNumber(x);
    hide BigEndian, Number;
    assert p.body[8..12] == p.body[8..][..4] == BigEndian(x);
    NumberIn(p.body, 8, BigEndian(x));
  }

  /** Everything in a compound packet says who it is from and about. */
  lemma CompoundSpeaks(ssrc: U32, remote: U32, asks: Asks, r: Round, pad: seq<Byte>)
    ensures forall p :: p in Compound(ssrc, remote, asks, r, pad) ==> Speaks(p, ssrc, remote, asks, r)
  {
    ReportSpeaks(ssrc, remote, asks, r);
    SdesSpeaks(ssrc, remote, asks, r, pad);
    hide Speaks, ReportSub, SdesSub, PliSubs, NacksDue, FirSubs, RateSubs;
    forall p | p in Compound(ssrc, remote, asks, r, pad) ensures Speaks(p, ssrc, remote, asks, r) {
      if r.video {
        if p in PliSubs(ssrc, remote, asks) { PliSpeaks(ssrc, remote, asks, r, p); }
        if p in NacksDue(ssrc, remote, r) { NackSpeaks(ssrc, remote, asks, r, p); }
        if p in FirSubs(ssrc, remote, asks) { FirSpeaks(ssrc, remote, asks, r, p); }
        if p in RateSubs(ssrc, remote, asks) { RateSpeaks(ssrc, remote, asks, r, p); }
      }
    }
  }

  lemma ReportSpeaks(ssrc: U32, remote: U32, asks: Asks, r: Round)
    ensures Speaks(ReportSub(ssrc, r), ssrc, remote, asks, r)
  {
    BigEndianNumber(ssrc);
    hide BigEndian, Number;
    NumberIn(ReportSub(ssrc, r).body, 0, BigEndian(ssrc));
  }

  lemma SdesSpeaks(ssrc: U32, remote: U32, asks: Asks, r: Round, pad: seq<Byte>)
    ensures Speaks(SdesSub(ssrc, pad), ssrc, remote, asks, r)
  {
    BigEndianNumber(ssrc);
    DescriptionIs(ssrc);
    hide BigEndian, Number, Description;
    var b := SdesSub(ssrc, pad).body;
    assert b[0..4] == Description(ssrc)[..4] == BigEndian(ssrc);
    NumberIn(b, 0, BigEndian(ssrc));
  }

  lemma PliSpeaks(ssrc: U32, remote: U32, asks: Asks, r: Round, p: Sub)
    requires p in PliSubs(ssrc, remote, asks)
    ensures Speaks(p, ssrc, remote, asks, r)
  {
    FeedbackSpeaks(206, 1, ssrc, remote, []);
    hide FeedbackSub, Number;
  }

  lemma NackSpeaks(ssrc: U32, remote: U32, asks: Asks, r: Round, p: Sub)
    requires p in NacksDue(ssrc, remote, r)
    ensures Speaks(p, ssrc, remote, asks, r)
  {
    hide FeedbackSub, Number, LittleEndian;
    var i :| 0 <= i < |r.words| && p == NackSub(ssrc, remote, r.words[i]);
    FeedbackSpeaks(205, 1, ssrc, remote, LittleEndian(r.words[i]));
  }

  lemma LastFour(b: seq<Byte>, front: seq<Byte>, rest: seq<Byte>)
    requires |b| == 16 && |front| == |rest| == 4 && b[8..] == front + rest
    ensures b[12] == rest[0] && b[13] == rest[1] && b[14] == rest[2] && b[15] == rest[3]
  {
    assert forall i :: 0 <= i < 8 ==> b[8 + i] == b[8..][i];
  }

  lemma FirSpeaks(ssrc: U32, remote: U32, asks: Asks, r: Round, p: Sub)
    requires p in FirSubs(ssrc, remote, asks)
    ensures Speaks(p, ssrc, remote, asks, r)
  {
    hide FeedbackSub, Number, BigEndian;
    var rest := [asks.firSeq, 0, 0, 0];
    FeedbackSpeaks(206, 4, ssrc, remote, BigEndian(remote) + rest);
    ItemNumber(p, remote, rest);
    LastFour(p.body, BigEndian(remote), rest);
  }

  lemma RateSpeaks(ssrc: U32, remote: U32, asks: Asks, r: Round, p: Sub)
    requires p in RateSubs(ssrc, remote, asks)
    ensures Speaks(p, ssrc, remote, asks, r)
  {
    hide RateSub, Number, Rates;
    RateSubSpeaks(3, ssrc, remote, asks.tmmbr);
    RateSubSpeaks(4, ssrc, remote, asks.tmmbn);
  }

  lemma RateSubSpeaks(fmt: Five, ssrc: U32, remote: U32, bps: U32)
    ensures
      var p := RateSub(fmt, ssrc, remote, bps);
      && p.pt == 205 && p.count == fmt && |p.body| == 16 && Number(p.body, 0) == ssrc
      && Number(p.body, 4) == 0 && Number(p.body, 8) == remote && Rates(p, bps)
  {
    hide FeedbackSub, Number, BigEndian, ItemOf;
    var p, q := RateSub(fmt, ssrc, remote, bps), ItemOf(bps);
    var rest := [q.p0, q.p1, q.p2, q.p3];
    FeedbackSpeaks(205, fmt, ssrc, 0, BigEndian(remote) + rest);
    ItemNumber(p, remote, rest);
    LastFour(p.body, BigEndian(remote), rest);
  }

  /** Which sub-packets there are, by type and by count or format: a sender or receiver
      report, a PLI, the NACKs, a FIR, a TMMBR and a TMMBN, and a source description. */
  ghost function Kinds(asks: Asks, r: Round): seq<(int, int)> {
    [if r.receiver then (201, 1) else (200, if r.feedbackOnly then 0 else 1)]
    + (if !r.video then [] else
         (if asks.pli != 0 then [(206, 1)] else [])
         + seq(if r.nack then |r.words| else 0, _ => (205, 1))
         + (if asks.fir != 0 then [(206, 4)] else [])
         + (if asks.tmmbr != 0 then [(205, 3)] else [])
         + (if asks.tmmbn != 0 then [(205, 4)] else []))
    + [(202, 1)]
  }

  ghost function KindsOf(ps: seq<Sub>): (r: seq<(int, int)>)
    ensures |r| == |ps|
  {
    seq(|ps|, i requires 0 <= i < |ps| => (ps[i].pt, ps[i].count))
  }

  lemma KindsConcat(a: seq<Sub>, b: seq<Sub>)
    ensures KindsOf(a + b) == KindsOf(a) + KindsOf(b)
  {
  }

  lemma CompoundKinds(ssrc: U32, remote: U32, asks: Asks, r: Round, pad: seq<Byte>)
    ensures KindsOf(Compound(ssrc, remote, asks, r, pad)) == Kinds(asks, r)
  {
    var front, video, back := [ReportSub(ssrc, r)], VideoSubs(ssrc, remote, asks, r), [SdesSub(ssrc, pad)];
    KindsConcat(front + video, back);
    KindsConcat(front, video);
    VideoKinds(ssrc, remote, asks, r);
    EndKinds(ssrc, r, pad);
    hide KindsOf, VideoSubs, ReportSub, SdesSub;
  }

  lemma EndKinds(ssrc: U32, r: Round, pad: seq<Byte>)
    ensures KindsOf([ReportSub(ssrc, r)]) == [if r.receiver then (201, 1) else (200, if r.feedbackOnly then 0 else 1)]
    ensures KindsOf([SdesSub(ssrc, pad)]) == [(202, 1)]
  {
    hide Description, BigEndian;
  }

  lemma VideoKinds(ssrc: U32, remote: U32, asks: Asks, r: Round)
    ensures KindsOf(VideoSubs(ssrc, remote, asks, r)) ==
            if !r.video then [] else
              (if asks.pli != 0 then [(206, 1)] else [])
              + seq(if r.nack then |r.words| else 0, _ => (205, 1))
              + (if asks.fir != 0 then [(206, 4)] else [])
              + (if asks.tmmbr != 0 then [(205, 3)] else [])
              + (if asks.tmmbn != 0 then [(205, 4)] else [])
  {
    var pli, nacks := PliSubs(ssrc, remote, asks), NacksDue(ssrc, remote, r);
    var fir, rates := FirSubs(ssrc, remote, asks), RateSubs(ssrc, remote, asks);
    PartKinds(ssrc, remote, asks, r);
    KindsConcat(pli + nacks + fir, rates);
    KindsConcat(pli + nacks, fir);
    KindsConcat(pli, nacks);
    hide KindsOf, PliSubs, NacksDue, FirSubs, RateSubs;
  }

  lemma PartKinds(ssrc: U32, remote: U32, asks: Asks, r: Round)
    ensures KindsOf(PliSubs(ssrc, remote, asks)) == if asks.pli != 0 then [(206, 1)] else []
    ensures KindsOf(NacksDue(ssrc, remote, r)) == seq(if r.nack then |r.words| else 0, _ => (205, 1))
    ensures KindsOf(FirSubs(ssrc, remote, asks)) == if asks.fir != 0 then [(206, 4)] else []
    ensures KindsOf(RateSubs(ssrc, remote, asks)) ==
            (if asks.tmmbr != 0 then [(205, 3)] else []) + (if asks.tmmbn != 0 then [(205, 4)] else [])
  {
    hide BigEndian, LittleEndian, ItemOf;
  }

  /** Whatever a round sends, the receiver's walker visits exactly the sub-packets that
      were built, in order, nothing remains, and what it is called on to do is what was due. */
  lemma BuiltIsUndone(s: seq<Byte>, ssrc: U32, remote: U32, asks: Asks, r: Round, pad: seq<Byte>)
    requires RoundOk(r) && AllFit(Compound(ssrc, remote, asks, r, pad))
    requires s == Wire(Compound(ssrc, remote, asks, r, pad))
    ensures |s| >= EXT_HEADER && s[0] / 64 == 2 && Aligned(|s|)
    ensures Unpacked(s, 0) == Compound(ssrc, remote, asks, r, pad) && WalkEnd(s, 0) == |s|
    ensures forall b :: s <= b ==> CallsAlong(b, s, 0) == CallsDue(asks, r)
    ensures KindsOf(Unpacked(s, 0)) == Kinds(asks, r)
    ensures forall p :: p in Unpacked(s, 0) ==> Speaks(p, ssrc, remote, asks, r)
  {
    hide *;
    var ps := Compound(ssrc, remote, asks, r, pad);
    ReportFirst(s, ssrc, remote, asks, r, pad);
    WireAligned(ps);
    CompoundCarries(ssrc, remote, asks, r, pad);
    CompoundKinds(ssrc, remote, asks, r, pad);
    CompoundSpeaks(ssrc, remote, asks, r, pad);
    WireRead(s, ps);
  }

  lemma ReportFirst(s: seq<Byte>, ssrc: U32, remote: U32, asks: Asks, r: Round, pad: seq<Byte>)
    requires RoundOk(r) && AllFit(Compound(ssrc, remote, asks, r, pad))
    requires s == Wire(Compound(ssrc, remote, asks, r, pad))
    ensures |s| >= EXT_HEADER && s[0] / 64 == 2
  {
    var ps := Compound(ssrc, remote, asks, r, pad);
    WireCons(ps);
    assert ps[0] == ReportSub(ssrc, r);
    hide Compound, Wire, VideoSubs;
  }

  lemma {:induction false} WireAligned(ps: seq<Sub>)
    requires AllFit(ps)
    ensures Aligned(|Wire(ps)|)
  {
    if ps != [] {
      WireCons(ps);
      WireAligned(ps[1..]);
      assert Aligned(|Encoded(ps[0])|);
    }
  }

  /** One round from the sender's buffer to the receiver's handler. */
  method SendRound(sender: RtcpSender, r: Round)
    returns (n: nat, outcome: Outcome, visited: seq<Slice>, remain: nat, calls: seq<Call>, ghost pad: seq<Byte>)
    requires sender.Valid() && RoundOk(r)
    modifies sender.buf, sender`asks, sender`nacksInflight
    ensures outcome == Done && remain == 0 && n <= sender.buf.Length
    ensures visited == Walk(sender.buf[..n], 0)
    ensures Unpacked(sender.buf[..n], 0) == Compound(sender.ssrc, sender.remote, old(sender.asks), r, pad)
    ensures calls == CallsDue(old(sender.asks), r)
    ensures KindsOf(Unpacked(sender.buf[..n], 0)) == Kinds(old(sender.asks), r)
    ensures forall p :: p in Unpacked(sender.buf[..n], 0) ==>
              Speaks(p, sender.ssrc, sender.remote, old(sender.asks), r)
    ensures sender.asks == Answered(old(sender.asks), r.video)
  {
    assert sender.buf.Length == RTCP_MSG;
    hide *;
    n, pad := sender.Build(r);
    BuiltIsUndone(sender.buf[..n], sender.ssrc, sender.remote, old(sender.asks), r, pad);
    assert sender.buf[..n] <= sender.buf[..];
    outcome, visited, remain, calls := ProcessPacket(sender.buf, n);
  }
}
