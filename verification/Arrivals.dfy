/**
  Nothing that arrives is wasted: which positions the receiver has after an arrival,
  and that rcv_nxt passes everything that arrived without a gap before it. Together
  with the stream theorem this says what the application gets, not only that what it
  gets is right.
 */
module Arrivals {

  import opened Common
  import opened Reassembly
  import opened Receiver

  /** Position `p` was handed up or is queued. */
  predicate Has(r: Rcv, p: int) {
    p < r.nxt || Holds(r.ooseq, p)
  }

  /** rcv_nxt is the first position the receiver does not have. */
  lemma FirstMissing(stream: seq<Byte>, r: Rcv)
    requires RcvOk(stream, r)
    ensures !Has(r, r.nxt) && forall p :: p < r.nxt ==> Has(r, p)
  {
    HoldsBelow(stream, r.ooseq, r.nxt + 1, r.nxt);
  }

  /** Handing up the queue keeps every position. */
  lemma {:induction false} DrainHas(stream: seq<Byte>, r: Rcv, up: Up, p: int)
    requires Ordered(stream, r.ooseq, r.nxt)
    ensures Has(Drain(r, up).0, p) <==> Has(r, p)
    decreases |r.ooseq|
  {
    if r.ooseq != [] && r.ooseq[0].pos == r.nxt {
      DrainHas(stream, Advance(r, r.ooseq[0], r.ooseq[1..]), Append(up, r.ooseq[0]), p);
    }
  }

  lemma AcceptHas(stream: seq<Byte>, r: Rcv, s: Seg, p: int)
    requires RcvOk(stream, r) && CutFrom(stream, s) && s.pos == r.nxt && s.Len() > 0
    ensures Has(Accept(r, s).0, p) <==> Has(r, p) || Covers(s, p)
  {
    OrderedWeaken(stream, r.ooseq, r.nxt + 1, r.nxt);
    SwallowKeeps(stream, s, r.ooseq, 0);
    SwallowHolds(stream, s, r.ooseq, p);
    var m := Swallow(s, r.ooseq);
    DrainHas(stream, Advance(r, m[0], m[1..]), Append(Up([], false), m[0]), p);
  }

  /** The segment starts left of the window edge, and if it comes too early there is memory for a copy. */
  predicate Takes(r: Rcv, s: Seg, alloc: bool) {
    s.pos < r.nxt + r.wnd && (s.pos <= r.nxt || alloc)
  }

  /** The segment comes too early and is queued. */
  predicate Queued(r: Rcv, s: Seg, alloc: bool) {
    alloc && s.Len() > 0 && r.nxt < s.pos < r.nxt + r.wnd
  }

  /**
    After an arrival the receiver has, inside the window, exactly what it had before and
    what arrived, but for what queueing loses.
   */
  lemma ReceiveHasIff(stream: seq<Byte>, r: Rcv, s: Seg, alloc: bool, p: int)
    requires RcvOk(stream, r) && CutFrom(stream, s) && p < r.nxt + r.wnd
    ensures Has(Receive(r, s, alloc).0, p) <==>
      (Has(r, p) || (Takes(r, s, alloc) && Covers(s, p))) && !(Queued(r, s, alloc) && Loses(r.ooseq, s, p))
  {
    var t, edge := TrimFront(s, r.nxt), r.nxt + r.wnd;
    if s.Len() > 0 && r.nxt <= t.pos < edge {
      TrimKeeps(stream, s, r.nxt);
      if t.pos == r.nxt {
        ClipKeeps(stream, t, edge);
        AcceptHas(stream, r, ClipToWindow(t, edge), p);
      } else if alloc {
        QueueLosesIff(stream, r.ooseq, t, r.nxt + 1, edge, p);
        LossIsBehind(r.ooseq, t, p);
      }
    } else {
      assert Receive(r, s, alloc).0 == r;
    }
  }

  /**
    Two arrivals: a segment ahead of a gap, then one that fills the gap. If queueing the
    first loses none of it, rcv_nxt passes its end or the window edge.
   */
  lemma GapFilled(stream: seq<Byte>, r: Rcv, early: Seg, filler: Seg, alloc: bool)
    requires RcvOk(stream, r) && CutFrom(stream, early) && CutFrom(stream, filler)
    requires Queued(r, early, true) && (forall p :: Covers(early, p) ==> !Loses(r.ooseq, early, p))
    requires filler.pos <= r.nxt && early.pos <= filler.End()
    ensures var r2 := Receive(Receive(r, early, true).0, filler, alloc).0;
      r2.nxt >= if early.End() <= r.nxt + r.wnd then early.End() else r.nxt + r.wnd
  {
    var r1 := Receive(r, early, true).0;
    ReceiveKeeps(stream, r, early, true);
    ReceiveKeeps(stream, r1, filler, alloc);
    var r2 := Receive(r1, filler, alloc).0;
    assert r1.nxt == r.nxt && r1.wnd == r.wnd;
    FirstMissing(stream, r2);
    var p := r2.nxt;
    if p < early.End() && p < r.nxt + r.wnd {
      ReceiveHasIff(stream, r1, filler, alloc, p);
      ReceiveHasIff(stream, r, early, true, p);
    }
  }

  // ---------------------------------------------------------------------------
  // Runs
  // ---------------------------------------------------------------------------

  /** The segment of the event gets to tcp_receive: the connection takes data and has none refused. */
  predicate Reads(c: Conn, e: Event) {
    e.Segment? && TakesData(c.state) && (c.refused.None? || e.takeOld)
  }

  predicate Arrives(c: Conn, e: Event, p: int) {
    Reads(c, e) && Takes(c.rcv, e.seg, e.alloc) && Covers(e.seg, p)
  }

  /** The event throws position `p` away: queueing loses it, or it is in the part of the queue that is dropped. */
  predicate Drops(c: Conn, e: Event, p: int) {
    || (Reads(c, e) && Queued(c.rcv, e.seg, e.alloc) && Loses(c.rcv.ooseq, e.seg, p))
    || (e.DropQueue? && e.keep < |c.rcv.ooseq| && Holds(c.rcv.ooseq[e.keep..], p))
  }

  lemma {:induction false} HoldsPrefix(stream: seq<Byte>, q: seq<Seg>, lo: int, k: nat, p: int)
    requires Ordered(stream, q, lo) && k <= |q|
    ensures Holds(q[..k], p) <==> Holds(q, p) && !Holds(q[k..], p)
  {
    if k == 0 {
      assert q[0..] == q;
    } else {
      HoldsPrefix(stream, q[1..], q[0].End(), k - 1, p);
      HoldsSuffix(stream, q[1..], q[0].End(), k - 1, p);
      assert q[..k][1..] == q[1..][..k-1] && q[k..] == q[1..][k-1..];
    }
  }

  /** After the FIN nothing is queued. */
  lemma NothingBehindFin(stream: seq<Byte>, r: Rcv)
    requires RcvOk(stream, r) && r.nxt > |stream|
    ensures r.ooseq == []
  {
  }

  lemma InputHasIff(cfg: Config, stream: seq<Byte>, c: Conn, e: Event, p: int)
    requires cfg.Valid() && ConnOk(stream, c) && FromPeer(stream, e) && e.Segment? && p < Edge(c)
    ensures Has(Step(cfg, c, e).rcv, p) <==> (Has(c.rcv, p) || Arrives(c, e, p)) && !Drops(c, e, p)
  {
    var r' := if Reads(c, e) then Receive(c.rcv, e.seg, e.alloc).0 else c.rcv;
    InputRcv(cfg, stream, c, e);
    assert Has(Step(cfg, c, e).rcv, p) <==> Has(r', p);
    if Reads(c, e) && e.seg.Len() > 0 { ReceiveHasIff(stream, c.rcv, e.seg, e.alloc, p); }
  }

  /** tcp_process does to rcv_nxt and the queue what tcp_receive does: where it purges, nothing was queued. */
  lemma ProcessRcv(cfg: Config, stream: seq<Byte>, c: Conn, s: Seg, alloc: bool, finAcked: bool)
    requires cfg.Valid() && ConnOk(stream, c) && PeerSeg(stream, s) && !Over(c.state)
    ensures var r, r' := Process(cfg, c, s, alloc, finAcked).0.rcv, if TakesData(c.state) then Receive(c.rcv, s, alloc).0 else c.rcv;
      r.nxt == r'.nxt && r.ooseq == r'.ooseq
  {
    if TakesData(c.state) && s.Len() > 0 {
      ReceiveKeeps(stream, c.rcv, s, alloc);
      var r := Receive(c.rcv, s, alloc).0;
      if r.nxt > |stream| { NothingBehindFin(stream, r); }
    }
    if c.rcv.nxt > |stream| { NothingBehindFin(stream, c.rcv); }
  }

  lemma HandUpRcv(cfg: Config, c: Conn, up: Up, take: bool)
    ensures var r := HandUp(cfg, c, up, take).rcv; r.nxt == c.rcv.nxt && r.ooseq == c.rcv.ooseq
  {
  }

  /** What a segment does to rcv_nxt and the queue. */
  lemma InputRcv(cfg: Config, stream: seq<Byte>, c: Conn, e: Event)
    requires cfg.Valid() && ConnOk(stream, c) && FromPeer(stream, e) && e.Segment?
    ensures var r' := if Reads(c, e) then Receive(c.rcv, e.seg, e.alloc).0 else c.rcv;
      Step(cfg, c, e).rcv.nxt == r'.nxt && Step(cfg, c, e).rcv.ooseq == r'.ooseq
  {
    if !Over(c.state) {
      OfferKeeps(cfg, stream, c, e.takeOld);
      var c1 := OfferRefused(cfg, c, e.takeOld);
      assert c1.rcv.nxt == c.rcv.nxt && c1.rcv.ooseq == c.rcv.ooseq && (TakesData(c.state) ==> c1.rcv == c.rcv);
      if !(c1.refused.Some? && e.seg.Len() > 0) {
        ProcessRcv(cfg, stream, c1, e.seg, e.alloc, e.finAcked);
        var (c2, up) := Process(cfg, c1, e.seg, e.alloc, e.finAcked);
        HandUpRcv(cfg, c2, up, e.takeNew);
      }
    }
  }

  /** Every step keeps what the receiver has, adds what arrives, and drops exactly what Drops says. */
  lemma StepHasIff(cfg: Config, stream: seq<Byte>, c: Conn, e: Event, p: int)
    requires cfg.Valid() && ConnOk(stream, c) && FromPeer(stream, e) && p < Edge(c)
    ensures Has(Step(cfg, c, e).rcv, p) <==> (Has(c.rcv, p) || Arrives(c, e, p)) && !Drops(c, e, p)
  {
    if e.Segment? {
      InputHasIff(cfg, stream, c, e, p);
    } else if e.DropQueue? {
      if c.rcv.nxt > |stream| { NothingBehindFin(stream, c.rcv); }
      if e.keep < |c.rcv.ooseq| {
        HoldsPrefix(stream, c.rcv.ooseq, c.rcv.nxt + 1, e.keep, p);
        HoldsPrefix(stream, c.rcv.ooseq, c.rcv.nxt + 1, 0, p);
        HoldsSuffix(stream, c.rcv.ooseq, c.rcv.nxt + 1, e.keep, p);
      }
    }
  }

  lemma {:induction false} HoldsSuffix(stream: seq<Byte>, q: seq<Seg>, lo: int, k: nat, p: int)
    requires Ordered(stream, q, lo) && k <= |q|
    ensures Holds(q[k..], p) ==> lo <= p
  {
    if k == 0 {
      assert q[0..] == q;
      HoldsBelow(stream, q, lo, p);
    } else {
      HoldsSuffix(stream, q[1..], q[0].End(), k - 1, p);
      assert q[k..] == q[1..][k-1..];
    }
  }

  function Edge(c: Conn): int {
    c.rcv.nxt + c.rcv.wnd
  }

  lemma ProcessEdge(cfg: Config, stream: seq<Byte>, c: Conn, s: Seg, alloc: bool, finAcked: bool)
    requires cfg.Valid() && RcvOk(stream, c.rcv) && WindowOk(cfg, c) && PeerSeg(stream, s)
    requires TakesData(c.state) ==> !OverrunsQueue(c.rcv, s, alloc)
    ensures Edge(Process(cfg, c, s, alloc, finAcked).0) == Edge(c)
    ensures 0 <= Process(cfg, c, s, alloc, finAcked).0.rcv.wnd <= c.rcv.wnd
  {
    if TakesData(c.state) && s.Len() > 0 { ReceiveEdgeIff(stream, c.rcv, s, alloc); }
  }

  /** Offering refused data, or handing up new data, moves the edge only for the FIN. */
  lemma HandUpEdge(cfg: Config, c: Conn, up: Up, take: bool)
    requires cfg.Valid() && 0 <= c.rcv.wnd <= cfg.wndMax
    ensures Edge(c) <= Edge(HandUp(cfg, c, up, take)) && Edge(c) <= Edge(OfferRefused(cfg, c, take))
  {
  }

  lemma InputEdge(cfg: Config, stream: seq<Byte>, c: Conn, e: Event)
    requires cfg.Valid() && RcvOk(stream, c.rcv) && (c.refused.Some? && c.refused.value.fin ==> !TakesData(c.state))
    requires e.Segment? && FromPeer(stream, e) && WindowOk(cfg, c) && RespectsWindow(c, e) && !Over(c.state)
    ensures Edge(c) <= Edge(Input(cfg, c, e.seg, e.alloc, e.finAcked, e.takeOld, e.takeNew))
  {
    HandUpEdge(cfg, c, Up([], false), e.takeOld);
    OfferKeepsWindow(cfg, c, e.takeOld);
    var c1 := OfferRefused(cfg, c, e.takeOld);
    if !(c1.refused.Some? && e.seg.Len() > 0) {
      ProcessEdge(cfg, stream, c1, e.seg, e.alloc, e.finAcked);
      var (c2, up) := Process(cfg, c1, e.seg, e.alloc, e.finAcked);
      HandUpEdge(cfg, c2, up, e.takeNew);
    }
  }

  /** rcv_nxt + rcv_wnd never moves left while the window is respected. */
  lemma EdgeGrows(cfg: Config, stream: seq<Byte>, c: Conn, e: Event)
    requires cfg.Valid() && RcvOk(stream, c.rcv) && (c.refused.Some? && c.refused.value.fin ==> !TakesData(c.state))
    requires FromPeer(stream, e) && WindowOk(cfg, c) && RespectsWindow(c, e)
    ensures Edge(c) <= Edge(Step(cfg, c, e))
  {
    match e
    case Segment(_, _, _, _, _) => if !Over(c.state) { InputEdge(cfg, stream, c, e); }
    case FastTimer(take) => HandUpEdge(cfg, c, Up([], false), take);
    case Recved(len) => if 0 < len < 0x1_0000 { GrowWindowIff(cfg, c.state, c.rcv.wnd, len); }
    case _ =>
  }

  /** At some point of the run `p` arrived inside the window, and it was not thrown away since. */
  predicate Kept(cfg: Config, evs: seq<Event>, p: int)
    requires cfg.Valid()
  {
    evs != [] &&
    var pre, e := evs[..|evs|-1], evs[|evs|-1];
    var c := Run(cfg, pre);
    !Drops(c, e, p) && ((Arrives(c, e, p) && p < Edge(c)) || Kept(cfg, pre, p))
  }

  lemma LastStepHas(cfg: Config, stream: seq<Byte>, evs: seq<Event>, e: Event, p: int)
    requires cfg.Valid() && RunRespects(cfg, stream, evs) && FromPeer(stream, e) && RespectsWindow(Run(cfg, evs), e)
    requires var c := Run(cfg, evs); (Has(c.rcv, p) || Arrives(c, e, p)) && p < Edge(c) && !Drops(c, e, p)
    ensures var c' := Step(cfg, Run(cfg, evs), e); Has(c'.rcv, p) && p < Edge(c')
  {
    RespectsFromPeer(cfg, stream, evs);
    StreamTheorem(cfg, stream, evs);
    WindowTheorem(cfg, stream, evs, 0);
    var c := Run(cfg, evs);
    EdgeGrows(cfg, stream, c, e);
    if NoneDiscarded(cfg, evs) {
      StepHasIff(cfg, stream, c, e, p);
    } else {
      assert Step(cfg, c, e).rcv.nxt == c.rcv.nxt;
      NothingBehindFin(stream, c.rcv);
    }
  }

  lemma {:induction false} KeptIsHad(cfg: Config, stream: seq<Byte>, evs: seq<Event>, p: int)
    requires cfg.Valid() && RunRespects(cfg, stream, evs) && Kept(cfg, evs, p)
    ensures Has(Run(cfg, evs).rcv, p) && p < Edge(Run(cfg, evs))
    decreases |evs|
  {
    var pre, e := evs[..|evs|-1], evs[|evs|-1];
    if !(Arrives(Run(cfg, pre), e, p) && p < Edge(Run(cfg, pre))) { KeptIsHad(cfg, stream, pre, p); }
    LastStepHas(cfg, stream, pre, e, p);
  }

  /**
    In every run: if each of the first `n` positions of stream and FIN arrived inside the
    window at some point and was not thrown away again, in whatever order and however
    cut, then rcv_nxt has passed them all.
   */
  lemma ArrivedMeansReached(cfg: Config, stream: seq<Byte>, evs: seq<Event>, n: nat)
    requires cfg.Valid() && RunRespects(cfg, stream, evs)
    requires forall p :: 0 <= p < n ==> Kept(cfg, evs, p)
    ensures Run(cfg, evs).rcv.nxt >= n
  {
    RespectsFromPeer(cfg, stream, evs);
    StreamTheorem(cfg, stream, evs);
    var r := Run(cfg, evs).rcv;
    if r.nxt < n {
      assert Kept(cfg, evs, r.nxt);
      KeptIsHad(cfg, stream, evs, r.nxt);
      FirstMissing(stream, r);
    }
  }

  /** If the whole stream and the FIN arrived so, and the application refuses nothing, it got all of it and the end. */
  lemma AllArrivedMeansDelivered(cfg: Config, stream: seq<Byte>, evs: seq<Event>)
    requires cfg.Valid() && RunRespects(cfg, stream, evs) && NoneDiscarded(cfg, evs) && Run(cfg, evs).refused.None?
    requires forall p :: 0 <= p <= |stream| ==> Kept(cfg, evs, p)
    ensures Run(cfg, evs).delivered == stream && Run(cfg, evs).closed == 1
  {
    ArrivedMeansReached(cfg, stream, evs, |stream| + 1);
    RespectsFromPeer(cfg, stream, evs);
    StreamTheorem(cfg, stream, evs);
  }
}
