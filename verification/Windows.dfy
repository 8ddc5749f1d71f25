/**
  The receive window as the application and the peer see it: rcv_wnd is TCP_WND less
  the bytes received and not yet reported by tcp_recved, and the announced window
  never holds back a full step of it.
 */
module Windows {

  import opened Common
  import opened SeqNum
  import opened Reassembly
  import opened Receiver
  import opened Arrivals

  /** What tcp_update_rcv_ann_wnd may hold back of the window: less than a step. */
  function Slack(cfg: Config): int
    requires cfg.Valid()
  {
    if cfg.Step() > 0 then cfg.Step() - 1 else 0
  }

  /** The window that is held back; the FIN, which nobody reports, may add one. */
  predicate Open(cfg: Config, c: Conn)
    requires cfg.Valid()
  {
    c.rcv.wnd - c.annWnd <= Slack(cfg) + c.closed
  }

  lemma InputOpens(cfg: Config, stream: seq<Byte>, c: Conn, e: Event)
    requires cfg.Valid() && RcvOk(stream, c.rcv) && (c.refused.Some? && c.refused.value.fin ==> !TakesData(c.state))
    requires e.Segment? && FromPeer(stream, e) && WindowOk(cfg, c) && RespectsWindow(c, e) && Open(cfg, c) && !Over(c.state)
    ensures Open(cfg, Input(cfg, c, e.seg, e.alloc, e.finAcked, e.takeOld, e.takeNew))
  {
    OfferKeepsWindow(cfg, c, e.takeOld);
    HandUpOpens(cfg, c, Up([], false), e.takeOld);
    var c1 := OfferRefused(cfg, c, e.takeOld);
    if !(c1.refused.Some? && e.seg.Len() > 0) {
      ProcessOpens(cfg, stream, c1, e.seg, e.alloc, e.finAcked);
      ProcessEdge(cfg, stream, c1, e.seg, e.alloc, e.finAcked);
      var (c2, up) := Process(cfg, c1, e.seg, e.alloc, e.finAcked);
      HandUpOpens(cfg, c2, up, e.takeNew);
    }
  }

  lemma HandUpOpens(cfg: Config, c: Conn, up: Up, take: bool)
    requires cfg.Valid() && 0 <= c.rcv.wnd <= cfg.wndMax && Open(cfg, c)
    ensures Open(cfg, HandUp(cfg, c, up, take)) && Open(cfg, OfferRefused(cfg, c, take))
  {
  }

  lemma ProcessOpens(cfg: Config, stream: seq<Byte>, c: Conn, s: Seg, alloc: bool, finAcked: bool)
    requires cfg.Valid() && RcvOk(stream, c.rcv) && WindowOk(cfg, c) && c.rcv.nxt - c.annEdge <= H32 - 0x3_0000
    requires PeerSeg(stream, s) && (TakesData(c.state) ==> !OverrunsQueue(c.rcv, s, alloc)) && Open(cfg, c)
    ensures Open(cfg, Process(cfg, c, s, alloc, finAcked).0)
  {
    if TakesData(c.state) && s.Len() > 0 {
      ReceiveEdgeIff(stream, c.rcv, s, alloc);
      ReceiveKeeps(stream, c.rcv, s, alloc);
      var r := Receive(c.rcv, s, alloc).0;
      AnnWindowOpens(cfg, r.nxt, r.wnd, c.annEdge);
    }
  }

  lemma StepOpens(cfg: Config, stream: seq<Byte>, c: Conn, e: Event)
    requires cfg.Valid() && RcvOk(stream, c.rcv) && (c.refused.Some? && c.refused.value.fin ==> !TakesData(c.state))
    requires FromPeer(stream, e) && WindowOk(cfg, c) && RespectsWindow(c, e) && Open(cfg, c)
    ensures Open(cfg, Step(cfg, c, e))
  {
    match e
    case Segment(_, _, _, _, _) => if !Over(c.state) { InputOpens(cfg, stream, c, e); }
    case Recved(len) =>
      if 0 < len < 0x1_0000 { GrowWindowIff(cfg, c.state, c.rcv.wnd, len); }
      AnnWindowOpens(cfg, c.rcv.nxt, GrowWindow(cfg, c.state, c.rcv.wnd, len), c.annEdge);
    case _ =>
  }

  /**
    The window opens again: in every state of every run the announced window is less
    than a step short of rcv_wnd, and so is the announced edge after a send.
   */
  lemma {:induction false} OpenTheorem(cfg: Config, stream: seq<Byte>, evs: seq<Event>)
    requires cfg.Valid() && RunRespects(cfg, stream, evs)
    ensures var c := Run(cfg, evs);
      && Open(cfg, c) && c.closed <= 1
      && (!c.state.Closed? ==>
            var c' := Step(cfg, c, Send);
            Edge(c') == Edge(c) && Edge(c') - Slack(cfg) - c.closed <= c'.annEdge <= Edge(c'))
  {
    RespectsFromPeer(cfg, stream, evs);
    StreamTheorem(cfg, stream, evs);
    WindowTheorem(cfg, stream, evs, 0);
    if evs != [] {
      var pre := evs[..|evs|-1];
      OpenTheorem(cfg, stream, pre);
      RespectsFromPeer(cfg, stream, pre);
      StreamTheorem(cfg, stream, pre);
      WindowTheorem(cfg, stream, pre, 0);
      StepOpens(cfg, stream, Run(cfg, pre), evs[|evs|-1]);
    }
  }

  // ---------------------------------------------------------------------------
  // Conservation
  // ---------------------------------------------------------------------------

  /** What the application reported with tcp_recved. */
  function Reported(cfg: Config, evs: seq<Event>): int
    requires cfg.Valid()
  {
    if evs == [] then 0
    else
      var pre, e := evs[..|evs|-1], evs[|evs|-1];
      Reported(cfg, pre) + if e.Recved? && !Run(cfg, pre).state.Closed? then e.len else 0
  }

  /** The application reports some bytes that it got and did not report yet; the peer is any peer of WindowTheorem. */
  predicate Honest(cfg: Config, stream: seq<Byte>, pre: seq<Event>, e: Event)
    requires cfg.Valid()
  {
    && FromPeer(stream, e)
    && if e.Recved? then 0 < e.len <= |Run(cfg, pre).delivered| - Reported(cfg, pre) else RespectsWindow(Run(cfg, pre), e)
  }

  predicate RunHonest(cfg: Config, stream: seq<Byte>, evs: seq<Event>)
    requires cfg.Valid()
  {
    evs != [] ==> RunHonest(cfg, stream, evs[..|evs|-1]) && Honest(cfg, stream, evs[..|evs|-1], evs[|evs|-1])
  }

  /** The books: `n` bytes were reported so far. */
  predicate Balanced(cfg: Config, c: Conn, n: int) {
    && Edge(c) == cfg.wndMax + n + c.closed && n <= |c.delivered|
    && |c.delivered| + c.closed <= c.rcv.nxt && 0 <= c.rcv.wnd <= cfg.wndMax
  }

  lemma OfferBalanced(cfg: Config, stream: seq<Byte>, c: Conn, take: bool, n: int)
    requires cfg.Valid() && ConnOk(stream, c) && Balanced(cfg, c, n)
    ensures Balanced(cfg, OfferRefused(cfg, c, take), n)
  {
    if c.refused.Some? && take {
      var c1 := c.(refused := None, delivered := c.delivered + c.refused.value.data);
      assert c1.delivered == Prefix(stream, c.rcv.nxt);
    }
  }

  lemma HandUpBalanced(cfg: Config, stream: seq<Byte>, c: Conn, up: Up, take: bool, n: int)
    requires cfg.Valid() && Edge(c) == cfg.wndMax + n + c.closed && n <= |c.delivered| && 0 <= c.rcv.wnd <= cfg.wndMax
    requires ConnOk(stream, HandUp(cfg, c, up, take)) && (up.fin ==> c.closed == 0 && c.rcv.nxt > |stream|)
    ensures Balanced(cfg, HandUp(cfg, c, up, take), n)
  {
    var c' := HandUp(cfg, c, up, take);
    assert |c'.delivered| <= |Prefix(stream, c'.rcv.nxt)|;
  }

  lemma InputBalanced(cfg: Config, stream: seq<Byte>, c: Conn, e: Event, n: int)
    requires cfg.Valid() && ConnOk(stream, c) && Balanced(cfg, c, n) && WindowOk(cfg, c) && !Over(c.state)
    requires e.Segment? && FromPeer(stream, e) && RespectsWindow(c, e)
    ensures Balanced(cfg, Input(cfg, c, e.seg, e.alloc, e.finAcked, e.takeOld, e.takeNew), n)
  {
    OfferBalanced(cfg, stream, c, e.takeOld, n);
    OfferKeeps(cfg, stream, c, e.takeOld);
    OfferKeepsWindow(cfg, c, e.takeOld);
    var c1 := OfferRefused(cfg, c, e.takeOld);
    if !(c1.refused.Some? && e.seg.Len() > 0) {
      ProcessEdge(cfg, stream, c1, e.seg, e.alloc, e.finAcked);
      ProcessKeeps(cfg, stream, c1, e.seg, e.alloc, e.finAcked);
      var (c2, up) := Process(cfg, c1, e.seg, e.alloc, e.finAcked);
      if Purges(c1, e.seg, e.finAcked) {
        assert HandUp(cfg, c2, up, e.takeNew) == c2;
      } else {
        HandUpKeeps(cfg, stream, c1, c2, up, e.takeNew);
        HandUpBalanced(cfg, stream, c2, up, e.takeNew, n);
      }
    }
  }

  /**
    rcv_nxt + rcv_wnd is TCP_WND plus what the application reported (plus one for the
    FIN once the end was signalled), in every state of every run of an application that
    reports no byte twice: no part of the window is ever lost or made up. In such a run
    tcp_recved never wraps rcv_wnd.
   */
  lemma {:induction false} EdgeTheorem(cfg: Config, stream: seq<Byte>, evs: seq<Event>)
    requires cfg.Valid() && RunHonest(cfg, stream, evs)
    ensures RunRespects(cfg, stream, evs)
    ensures Balanced(cfg, Run(cfg, evs), Reported(cfg, evs))
  {
    if evs != [] {
      var pre, e := evs[..|evs|-1], evs[|evs|-1];
      EdgeTheorem(cfg, stream, pre);
      RespectsFromPeer(cfg, stream, pre);
      StreamTheorem(cfg, stream, pre);
      WindowTheorem(cfg, stream, pre, 0);
      StepBalanced(cfg, stream, Run(cfg, pre), e, Reported(cfg, pre));
    }
  }

  lemma StepBalanced(cfg: Config, stream: seq<Byte>, c: Conn, e: Event, n: int)
    requires cfg.Valid() && (ConnOk(stream, c) || CutShort(stream, c)) && Balanced(cfg, c, n) && WindowOk(cfg, c)
    requires FromPeer(stream, e)
    requires if e.Recved? then 0 < e.len <= |c.delivered| - n else RespectsWindow(c, e)
    ensures RespectsWindow(c, e)
    ensures Balanced(cfg, Step(cfg, c, e), n + if e.Recved? && !c.state.Closed? then e.len else 0)
  {
    match e
    case Segment(_, _, _, _, _) => if !Over(c.state) { InputBalanced(cfg, stream, c, e, n); }
    case FastTimer(take) => if !Over(c.state) { OfferBalanced(cfg, stream, c, take, n); }
    case _ =>
  }
}
