/**
  The receiving side of one connection as a state machine: arriving segments with
  the close handshake, data refused by the application, tcp_recved, the announced
  window, and the events that throw the out-of-sequence queue away.

  The handshake is over when a run starts. Closed stands for a connection that is
  gone: its control block was freed.
 */
module Receiver {

  import opened Common
  import opened SeqNum
  import opened Reassembly

  datatype State = Established | FinWait1 | FinWait2 | CloseWait | Closing | LastAck | TimeWait | Closed

  /** `state < CLOSE_WAIT` in the order of enum tcp_state. */
  predicate TakesData(st: State) {
    st.Established? || st.FinWait1? || st.FinWait2?
  }

  /** The connection was purged: it takes no input any more. */
  predicate Over(st: State) {
    st.TimeWait? || st.Closed?
  }

  /** TCP_WND and the connection's mss. */
  datatype Config = Config(wndMax: int, mss: int) {
    predicate Valid() { 0 < wndMax < 0x1_0000 && 0 < mss < 0x1_0000 }
    /** LWIP_MIN((TCP_WND / 2), pcb->mss) */
    function Step(): int
      requires Valid()
    {
      if wndMax / 2 < mss then wndMax / 2 else mss
    }
  }

  /**
    `annWnd` and `annEdge` are rcv_ann_wnd and rcv_ann_right_edge; `refused` is
    refused_data with its FIN flag; `delivered` and `closed` record the calls of
    the application's receive callback with data and with NULL.
   */
  datatype Conn = Conn(state: State, rcv: Rcv, annWnd: int, annEdge: int,
                       refused: Option<Up>, delivered: seq<Byte>, closed: nat)

  datatype Event =
    /**
      A segment for the connection. `alloc`: tcp_seg_copy succeeds. `finAcked`: the
      segment acknowledges our FIN and nothing is left unsent. `takeOld`, `takeNew`:
      the application accepts refused data, and the new data.
     */
    | Segment(seg: Seg, alloc: bool, finAcked: bool, takeOld: bool, takeNew: bool)
    /** tcp_fasttmr */
    | FastTimer(take: bool)
    /** tcp_recved */
    | Recved(len: int)
    /** Any outgoing segment announces the window. */
    | Send
    /** tcp_slowtmr or pbuf_free_ooseq drop the queue; a queue limit drops its tail. */
    | DropQueue(keep: nat)
    /** tcp_shutdown of the sending side. */
    | ShutdownTx

  // ---------------------------------------------------------------------------
  // Steps
  // ---------------------------------------------------------------------------

  /** tcp_update_rcv_ann_wnd: the window to announce. */
  function AnnWindow(cfg: Config, nxt: int, wnd: int, annEdge: int): int
    requires cfg.Valid()
  {
    if SeqGeq(Wrap(nxt + wnd), Wrap(annEdge + cfg.Step())) then wnd
    else if SeqGt(Wrap(nxt), Wrap(annEdge)) then 0
    else Sub(Wrap(annEdge), Wrap(nxt)) % 0x1_0000
  }

  /** The receive callback with NULL, after the window was corrected for the FIN. */
  function SignalClosed(cfg: Config, c: Conn): Conn {
    c.(rcv := c.rcv.(wnd := if c.rcv.wnd != cfg.wndMax then (c.rcv.wnd + 1) % 0x1_0000 else c.rcv.wnd),
       closed := c.closed + 1)
  }

  /** tcp_process_refused_data */
  function OfferRefused(cfg: Config, c: Conn, take: bool): Conn {
    if c.refused.None? || !take then c
    else
      var c1 := c.(refused := None, delivered := c.delivered + c.refused.value.data);
      if c.refused.value.fin then SignalClosed(cfg, c1) else c1
  }

  /** The state tcp_process moves to; `gotFin` is TF_GOT_FIN. */
  function NextState(st: State, gotFin: bool, finAcked: bool): State {
    match st
    case Established => if gotFin then CloseWait else st
    case FinWait1 =>
      if gotFin then (if finAcked then TimeWait else Closing)
      else if finAcked then FinWait2 else st
    case FinWait2 => if gotFin then TimeWait else st
    case Closing => if finAcked then TimeWait else st
    case LastAck => if finAcked then Closed else st
    case _ => st
  }

  /** tcp_process: the data half of tcp_receive, then the state transition. */
  function Process(cfg: Config, c: Conn, s: Seg, alloc: bool, finAcked: bool): (Conn, Up)
    requires cfg.Valid()
  {
    var (r, up) := if TakesData(c.state) then Receive(c.rcv, s, alloc) else (c.rcv, Up([], false));
    var ann := if r.nxt != c.rcv.nxt then AnnWindow(cfg, r.nxt, r.wnd, c.annEdge) else c.annWnd;
    var st := NextState(c.state, up.fin, finAcked);
    // tcp_pcb_purge frees the queue, and also data that the application refused.
    var q := if Over(st) then [] else r.ooseq;
    (c.(state := st, rcv := r.(ooseq := q), annWnd := ann, refused := if Over(st) then None else c.refused), up)
  }

  /** The end of tcp_input: hand up data, then the FIN, or keep both as refused. */
  function HandUp(cfg: Config, c: Conn, up: Up, take: bool): Conn {
    var c1 := if up.data == [] then c
              else if take then c.(delivered := c.delivered + up.data)
              else c.(refused := Some(Up(up.data, false)));
    if !up.fin then c1
    else if c1.refused.Some? then c1.(refused := Some(c1.refused.value.(fin := true)))
    else SignalClosed(cfg, c1)
  }

  /** tcp_input for a segment of this connection. */
  function Input(cfg: Config, c: Conn, s: Seg, alloc: bool, finAcked: bool, takeOld: bool, takeNew: bool): Conn
    requires cfg.Valid()
  {
    if Over(c.state) then c
    else
      var c1 := OfferRefused(cfg, c, takeOld);
      if c1.refused.Some? && s.Len() > 0 then c1
      else
        var (c2, up) := Process(cfg, c1, s, alloc, finAcked);
        HandUp(cfg, c2, up, takeNew)
  }

  /** tcp_recved: the new rcv_wnd (16 bits). */
  function GrowWindow(cfg: Config, st: State, wnd: int, len: int): int {
    var w := (wnd + len) % 0x1_0000;
    if w > cfg.wndMax then cfg.wndMax
    else if w == 0 && (st.CloseWait? || st.LastAck?) then cfg.wndMax
    else w
  }

  function Step(cfg: Config, c: Conn, e: Event): Conn
    requires cfg.Valid()
  {
    if c.state.Closed? then c
    else
      match e
      case Segment(s, alloc, finAcked, takeOld, takeNew) => Input(cfg, c, s, alloc, finAcked, takeOld, takeNew)
      case FastTimer(take) => if c.state.TimeWait? then c else OfferRefused(cfg, c, take)
      case Recved(len) =>
        var w := GrowWindow(cfg, c.state, c.rcv.wnd, len);
        c.(rcv := c.rcv.(wnd := w), annWnd := AnnWindow(cfg, c.rcv.nxt, w, c.annEdge))
      case Send => c.(annEdge := c.rcv.nxt + c.annWnd)
      case DropQueue(keep) => if keep < |c.rcv.ooseq| then c.(rcv := c.rcv.(ooseq := c.rcv.ooseq[..keep])) else c
      case ShutdownTx =>
        if c.state.Established? then c.(state := FinWait1)
        else if c.state.CloseWait? then c.(state := LastAck)
        else c
  }

  /** The connection after the handshake, before any byte of the stream. */
  function Start(cfg: Config): Conn {
    Conn(Established, Rcv(0, cfg.wndMax, []), cfg.wndMax, 0, None, [], 0)
  }

  function Run(cfg: Config, evs: seq<Event>): Conn
    requires cfg.Valid()
  {
    if evs == [] then Start(cfg) else Step(cfg, Run(cfg, evs[..|evs|-1]), evs[|evs|-1])
  }

  // ---------------------------------------------------------------------------
  // The stream theorem
  // ---------------------------------------------------------------------------

  function RefusedData(c: Conn): seq<Byte> {
    if c.refused.Some? then c.refused.value.data else []
  }

  /** Everything handed up is the stream so far, and the FIN is in exactly one place once it was received. */
  predicate ConnOk(stream: seq<Byte>, c: Conn) {
    && RcvOk(stream, c.rcv)
    && c.delivered + RefusedData(c) == Prefix(stream, c.rcv.nxt)
    && (c.refused.Some? ==> c.refused.value.data != [] && (c.refused.value.fin <==> c.rcv.nxt > |stream|))
    && c.closed == (if c.rcv.nxt > |stream| && c.refused.None? then 1 else 0)
    && (TakesData(c.state) <==> c.rcv.nxt <= |stream|)
  }

  /** A segment without data and FIN, or a piece of the peer's stream. */
  predicate PeerSeg(stream: seq<Byte>, s: Seg) {
    s.Len() == 0 || CutFrom(stream, s)
  }

  predicate FromPeer(stream: seq<Byte>, e: Event) {
    e.Segment? ==> PeerSeg(stream, e.seg)
  }

  lemma OfferKeeps(cfg: Config, stream: seq<Byte>, c: Conn, take: bool)
    requires cfg.Valid() && ConnOk(stream, c)
    ensures ConnOk(stream, OfferRefused(cfg, c, take))
  {
  }

  lemma PrefixQueue(stream: seq<Byte>, q: seq<Seg>, lo: int, keep: nat)
    requires Ordered(stream, q, lo) && keep <= |q|
    ensures Ordered(stream, q[..keep], lo)
    decreases |q|
  {
    if keep > 0 {
      PrefixQueue(stream, q[1..], q[0].End(), keep - 1);
      assert q[..keep][1..] == q[1..][..keep - 1];
    }
  }

  /** The last ACK of a connection whose application still refuses data: the purge frees that data. */
  predicate Purges(c: Conn, s: Seg, finAcked: bool) {
    finAcked && (c.state.Closing? || c.state.LastAck?) && c.refused.Some? && s.Len() == 0
  }

  lemma ProcessKeeps(cfg: Config, stream: seq<Byte>, c: Conn, s: Seg, alloc: bool, finAcked: bool)
    requires cfg.Valid() && ConnOk(stream, c) && PeerSeg(stream, s) && !Over(c.state)
    requires c.refused.Some? ==> s.Len() == 0
    ensures var (c', up) := Process(cfg, c, s, alloc, finAcked);
      && RcvOk(stream, c'.rcv) && c.rcv.nxt <= c'.rcv.nxt
      && Continues(stream, c.rcv.nxt, Up([], false), c'.rcv.nxt, up)
      && (TakesData(c'.state) <==> c'.rcv.nxt <= |stream|)
      && c'.refused == (if Purges(c, s, finAcked) then None else c.refused)
      && c'.delivered == c.delivered && c'.closed == c.closed && (c.refused.Some? ==> up == Up([], false))
  {
    assert Prefix(stream, c.rcv.nxt)[|Prefix(stream, c.rcv.nxt)|..] == [];
    if TakesData(c.state) && s.Len() > 0 {
      ReceiveKeeps(stream, c.rcv, s, alloc);
    }
  }

  /** A step that throws refused data away: a test on the connection and the event before the call. */
  predicate Discards(c: Conn, e: Event) {
    e.Segment? && !e.takeOld && Purges(c, e.seg, e.finAcked)
  }

  /** The end of a connection on which refused data was thrown away. */
  predicate CutShort(stream: seq<Byte>, c: Conn) {
    && Over(c.state) && c.refused.None? && c.closed == 0
    && RcvOk(stream, c.rcv) && c.rcv.nxt == |stream| + 1 && c.delivered < stream
  }

  lemma InputKeeps(cfg: Config, stream: seq<Byte>, c: Conn, s: Seg, alloc: bool, finAcked: bool, takeOld: bool, takeNew: bool)
    requires cfg.Valid() && ConnOk(stream, c) && PeerSeg(stream, s)
    ensures var c' := Input(cfg, c, s, alloc, finAcked, takeOld, takeNew);
      if !takeOld && Purges(c, s, finAcked) then CutShort(stream, c') else ConnOk(stream, c')
  {
    if !Over(c.state) {
      OfferKeeps(cfg, stream, c, takeOld);
      var c1 := OfferRefused(cfg, c, takeOld);
      if !(c1.refused.Some? && s.Len() > 0) {
        ProcessKeeps(cfg, stream, c1, s, alloc, finAcked);
        var (c2, up) := Process(cfg, c1, s, alloc, finAcked);
        if Purges(c1, s, finAcked) {
          PurgedIsCutShort(cfg, stream, c1, s, alloc, finAcked);
        } else {
          HandUpKeeps(cfg, stream, c1, c2, up, takeNew);
        }
      }
    }
  }

  lemma PurgedIsCutShort(cfg: Config, stream: seq<Byte>, c: Conn, s: Seg, alloc: bool, finAcked: bool)
    requires cfg.Valid() && ConnOk(stream, c) && Purges(c, s, finAcked)
    ensures CutShort(stream, Process(cfg, c, s, alloc, finAcked).0)
  {
    assert c.delivered + c.refused.value.data == stream;
  }

  lemma HandUpKeeps(cfg: Config, stream: seq<Byte>, c1: Conn, c2: Conn, up: Up, take: bool)
    requires cfg.Valid() && ConnOk(stream, c1)
    requires RcvOk(stream, c2.rcv) && c1.rcv.nxt <= c2.rcv.nxt
    requires Continues(stream, c1.rcv.nxt, Up([], false), c2.rcv.nxt, up)
    requires TakesData(c2.state) <==> c2.rcv.nxt <= |stream|
    requires c2.refused == c1.refused && c2.delivered == c1.delivered && c2.closed == c1.closed
    requires c1.refused.Some? ==> up == Up([], false)
    ensures ConnOk(stream, HandUp(cfg, c2, up, take))
  {
    assert Prefix(stream, c1.rcv.nxt) + up.data == Prefix(stream, c2.rcv.nxt);
    if c1.refused.None? {
      assert c1.delivered + [] == c1.delivered;
    }
  }

  /** One step keeps the stream exact if and only if it does not throw refused data away. */
  lemma StepKeepsIff(cfg: Config, stream: seq<Byte>, c: Conn, e: Event)
    requires cfg.Valid() && ConnOk(stream, c) && FromPeer(stream, e)
    ensures ConnOk(stream, Step(cfg, c, e)) <==> !Discards(c, e)
    ensures Discards(c, e) ==> CutShort(stream, Step(cfg, c, e))
  {
    if !c.state.Closed? {
      match e
      case Segment(s, alloc, finAcked, takeOld, takeNew) =>
        InputKeeps(cfg, stream, c, s, alloc, finAcked, takeOld, takeNew);
      case FastTimer(take) => OfferKeeps(cfg, stream, c, take);
      case DropQueue(keep) =>
        if keep < |c.rcv.ooseq| { PrefixQueue(stream, c.rcv.ooseq, c.rcv.nxt + 1, keep); }
      case _ =>
    }
  }

  /** A connection that was cut short stays so. */
  lemma CutShortStays(cfg: Config, stream: seq<Byte>, c: Conn, e: Event)
    requires cfg.Valid() && CutShort(stream, c)
    ensures CutShort(stream, Step(cfg, c, e))
  {
    assert c.rcv.ooseq == [];
  }

  /** At no point of the run does the last ACK arrive while the application refuses data. */
  predicate NoneDiscarded(cfg: Config, evs: seq<Event>)
    requires cfg.Valid()
  {
    evs == [] || (NoneDiscarded(cfg, evs[..|evs|-1]) && !Discards(Run(cfg, evs[..|evs|-1]), evs[|evs|-1]))
  }

  /**
    For every stream, however long, and every run of segments cut from it. What the
    application got and what it refused is exactly the stream up to rcv_nxt, if and
    only if no purge threw refused data away; else what it got is a proper prefix.
    The end is signalled at most once, and exactly when every byte was accepted. The
    out-of-sequence queue is sorted, disjoint, above rcv_nxt, and has a FIN only at
    its end.
   */
  lemma {:induction false} StreamTheorem(cfg: Config, stream: seq<Byte>, evs: seq<Event>)
    requires cfg.Valid() && forall i :: 0 <= i < |evs| ==> FromPeer(stream, evs[i])
    ensures ConnOk(stream, Run(cfg, evs)) <==> NoneDiscarded(cfg, evs)
    ensures !NoneDiscarded(cfg, evs) ==> CutShort(stream, Run(cfg, evs))
    ensures RcvOk(stream, Run(cfg, evs).rcv) && Run(cfg, evs).delivered <= stream && Run(cfg, evs).closed <= 1
    ensures Run(cfg, evs).closed == 1 <==> Run(cfg, evs).rcv.nxt == |stream| + 1 && Run(cfg, evs).delivered == stream
  {
    if evs == [] {
      assert stream[..0] == [];
    } else {
      var pre := evs[..|evs|-1];
      StreamTheorem(cfg, stream, pre);
      if NoneDiscarded(cfg, pre) {
        StepKeepsIff(cfg, stream, Run(cfg, pre), evs[|evs|-1]);
      } else {
        CutShortStays(cfg, stream, Run(cfg, pre), evs[|evs|-1]);
      }
    }
    if NoneDiscarded(cfg, evs) { ClosedMeansAll(stream, Run(cfg, evs)); }
  }

  /** The end was signalled exactly when the FIN was reached and the application accepted every byte. */
  lemma ClosedMeansAll(stream: seq<Byte>, c: Conn)
    requires ConnOk(stream, c)
    ensures c.closed == 1 <==> c.rcv.nxt == |stream| + 1 && c.delivered == stream
    ensures c.delivered <= stream
  {
    assert c.delivered <= c.delivered + RefusedData(c) <= stream;
    if c.refused.Some? {
      assert |c.delivered| + |c.refused.value.data| == |Prefix(stream, c.rcv.nxt)|;
    }
  }

  /** The application accepts refused data, and what comes with a segment. */
  predicate TakesAll(e: Event) {
    (e.FastTimer? && e.take) || (e.Segment? && e.takeOld && e.takeNew)
  }

  /**
    Refused data is not kept for ever: once the application accepts what it is offered,
    it has all of the stream up to rcv_nxt, and the end if that was reached.
   */
  lemma TakenMeansDelivered(cfg: Config, stream: seq<Byte>, c: Conn, e: Event)
    requires cfg.Valid() && ConnOk(stream, c) && FromPeer(stream, e) && TakesAll(e) && !Over(c.state)
    ensures var c' := Step(cfg, c, e);
      && ConnOk(stream, c') && c'.refused.None? && c'.delivered == Prefix(stream, c'.rcv.nxt)
      && c'.closed == if c'.rcv.nxt > |stream| then 1 else 0
  {
    StepKeepsIff(cfg, stream, c, e);
    var c1 := OfferRefused(cfg, c, true);
    assert c1.refused.None?;
    assert Step(cfg, c, e).delivered + [] == Step(cfg, c, e).delivered;
  }

  lemma RunSnoc(cfg: Config, evs: seq<Event>, e: Event)
    requires cfg.Valid()
    ensures Run(cfg, evs + [e]) == Step(cfg, Run(cfg, evs), e)
  {
    assert (evs + [e])[..|evs|] == evs;
  }

  /**
    Such a run: we close first, data and FIN arrive and are refused, and then our FIN
    is acknowledged. The acknowledged byte is gone, and the end is never signalled.
   */
  lemma LastAckDiscards(cfg: Config, a: Byte)
    requires cfg.Valid() && cfg.wndMax >= 2
    ensures var evs := [ShutdownTx, Segment(Seg(0, [a], true), true, false, false, false),
                        Segment(Seg(2, [], false), true, true, false, false)];
      var c := Run(cfg, evs);
      && (forall i :: 0 <= i < |evs| ==> FromPeer([a], evs[i]))
      && c.state == TimeWait && c.rcv.nxt == 2 && c.delivered == [] && c.refused == None && c.closed == 0
  {
    var e0, e1, e2 := ShutdownTx, Segment(Seg(0, [a], true), true, false, false, false),
                      Segment(Seg(2, [], false), true, true, false, false);
    var evs := [e0, e1, e2];
    assert evs == [e0, e1] + [e2] && [e0, e1] == [e0] + [e1] && [e0] == [] + [e0];
    RunSnoc(cfg, [], e0);
    RunSnoc(cfg, [e0], e1);
    RunSnoc(cfg, [e0, e1], e2);
    assert [a][0..1] == [a];
    var s := Seg(0, [a], true);
    assert Swallow(s, [])[1..] == [];
    var r := Rcv(2, (cfg.wndMax - 2) % 0x1_0000, []);
    assert Accept(Rcv(0, cfg.wndMax, []), s) == Drain(r, Up([a], true)) by { assert [] + [a] == [a]; }
    var c1 := Run(cfg, [e0]);
    assert c1 == Start(cfg).(state := FinWait1);
    assert TrimFront(s, 0) == s && ClipToWindow(s, cfg.wndMax) == s;
    assert Receive(c1.rcv, s, true) == (r, Up([a], true));
    var (p, up) := Process(cfg, c1, s, true, false);
    assert up == Up([a], true) && p.state == Closing && p.rcv == r;
    var c2 := Run(cfg, [e0, e1]);
    assert c2.state == Closing && c2.refused == Some(Up([a], true)) && c2.delivered == [] && c2.rcv == r;
  }

  /**
    The two arrivals of FinPastEdgeWrapsWindow as a run of a connection with a window
    of two bytes: rcv_wnd and the announced window become 65535.
   */
  lemma FinPastEdgeReached(a: Byte, b: Byte)
    ensures var cfg := Config(2, 1);
      var evs := [Segment(Seg(1, [b], true), true, false, false, false), Segment(Seg(0, [a], false), true, false, false, false)];
      var c := Run(cfg, evs);
      && (forall i :: 0 <= i < |evs| ==> FromPeer([a, b], evs[i]))
      && c.rcv == Rcv(3, 0xffff, []) && c.refused == Some(Up([a, b], true)) && c.annWnd == 0xffff
  {
    var cfg := Config(2, 1);
    var s1, s2 := Seg(1, [b], true), Seg(0, [a], false);
    var e1, e2 := Segment(s1, true, false, false, false), Segment(s2, true, false, false, false);
    assert [e1, e2] == [e1] + [e2] && [e1] == [] + [e1];
    RunSnoc(cfg, [], e1);
    RunSnoc(cfg, [e1], e2);
    assert [a, b][1..2] == [b] && [a, b][0..1] == [a];
    FinPastEdgeWrapsWindow(a, b);
    assert Receive(Rcv(0, 2, []), s1, true) == (Rcv(0, 2, [s1]), Up([], false));
    var c1 := Run(cfg, [e1]);
    assert c1 == Start(cfg).(rcv := Rcv(0, 2, [s1]));
    assert Receive(c1.rcv, s2, true) == (Rcv(3, 0xffff, []), Up([a, b], true));
    NearOrder(3 + 0xffff, 0 + cfg.Step());
  }

  // ---------------------------------------------------------------------------
  // The window theorem
  // ---------------------------------------------------------------------------

  /**
    The announced edge lies at or left of `rcv_nxt + rcv_wnd`, and what is queued
    does; the next announcement keeps the edge or moves it right. The peer may have
    filled window that was never announced, but not 2^31 of it.
   */
  predicate WindowOk(cfg: Config, c: Conn) {
    && 0 <= c.rcv.wnd <= cfg.wndMax && Within(c.rcv.ooseq, c.rcv.nxt + c.rcv.wnd)
    && c.annEdge <= c.rcv.nxt + c.annWnd && 0 <= c.annWnd <= c.rcv.wnd
    && c.rcv.nxt - c.annEdge <= H32 - 0x2_0000
  }

  /**
    Any segment, inside the window or not, but for one that would be queued uncut
    beyond the window; an announcement goes out before rcv_nxt runs 2^31 ahead of the
    last one; and the application does not overfill rcv_wnd.
   */
  predicate RespectsWindow(c: Conn, e: Event) {
    match e
    case Segment(s, alloc, _, _, _) =>
      c.rcv.nxt - c.annEdge <= H32 - 0x3_0000 && (TakesData(c.state) ==> !OverrunsQueue(c.rcv, s, alloc))
    case Recved(len) => 0 <= len && NoWrap(c.state, c.rcv.wnd, len)
    case _ => true
  }

  /** `rcv_wnd += len` does not wrap, or wraps to 0 where the code expects it. */
  predicate NoWrap(st: State, wnd: int, len: int) {
    wnd + len < 0x1_0000 || (wnd + len == 0x1_0000 && (st.CloseWait? || st.LastAck?))
  }

  /**
    tcp_update_rcv_ann_wnd keeps the announced edge or moves it right, inside the
    window; the assertion that the new announced window fits 16 bits cannot fail.
   */
  lemma AnnWindowSafe(cfg: Config, nxt: int, wnd: int, annEdge: int)
    requires cfg.Valid() && 0 <= wnd <= cfg.wndMax && nxt - H32 + 0x2_0000 <= annEdge <= nxt + wnd
    ensures var a := AnnWindow(cfg, nxt, wnd, annEdge);
      && 0 <= a <= wnd && annEdge <= nxt + a
      && (nxt + wnd < annEdge + cfg.Step() && nxt <= annEdge ==> a == annEdge - nxt == Sub(Wrap(annEdge), Wrap(nxt)))
  {
    NearOrder(nxt + wnd, annEdge + cfg.Step());
    NearOrder(nxt, annEdge);
    if nxt <= annEdge { ShortDistance(annEdge, nxt); }
  }

  /** The announced window is the whole window, or less than a step of it is held back. */
  lemma AnnWindowOpens(cfg: Config, nxt: int, wnd: int, annEdge: int)
    requires cfg.Valid() && 0 <= wnd <= cfg.wndMax && nxt - H32 + 0x2_0000 <= annEdge <= nxt + wnd
    ensures var a := AnnWindow(cfg, nxt, wnd, annEdge);
      && (a == wnd || wnd - a < cfg.Step())
      && (a == wnd <== nxt + wnd >= annEdge + cfg.Step())
      && (nxt + a == annEdge || a == wnd || a == 0)
  {
    NearOrder(nxt + wnd, annEdge + cfg.Step());
    NearOrder(nxt, annEdge);
    AnnWindowSafe(cfg, nxt, wnd, annEdge);
  }

  /** tcp_recved never shrinks the window exactly when its 16-bit addition does not wrap. */
  lemma GrowWindowIff(cfg: Config, st: State, wnd: int, len: int)
    requires cfg.Valid() && 0 <= wnd <= cfg.wndMax && 0 < len < 0x1_0000
    ensures 0 <= GrowWindow(cfg, st, wnd, len) <= cfg.wndMax
    ensures GrowWindow(cfg, st, wnd, len) >= wnd <==> NoWrap(st, wnd, len)
    ensures NoWrap(st, wnd, len) ==> GrowWindow(cfg, st, wnd, len) == if wnd + len <= cfg.wndMax then wnd + len else cfg.wndMax
  {
  }

  /** With a 64 KiB window, acknowledging more than was delivered shrinks rcv_wnd. */
  lemma OverfullRecvedShrinks()
    ensures GrowWindow(Config(0xffff, 536), Established, 0xfff0, 0x20) == 0x10
  {
  }

  lemma WithinPrefix(q: seq<Seg>, edge: int, keep: nat)
    requires Within(q, edge) && keep <= |q|
    ensures Within(q[..keep], edge)
    decreases |q|
  {
    if keep > 0 {
      WithinPrefix(q[1..], edge, keep - 1);
      assert q[..keep][1..] == q[1..][..keep - 1];
    }
  }

  lemma WithinWeaken(q: seq<Seg>, edge: int, edge': int)
    requires Within(q, edge) && edge <= edge'
    ensures Within(q, edge')
  {
  }

  lemma ProcessKeepsWindow(cfg: Config, stream: seq<Byte>, c: Conn, s: Seg, alloc: bool, finAcked: bool)
    requires cfg.Valid() && RcvOk(stream, c.rcv) && WindowOk(cfg, c) && c.rcv.nxt - c.annEdge <= H32 - 0x3_0000
    requires PeerSeg(stream, s) && (TakesData(c.state) ==> !OverrunsQueue(c.rcv, s, alloc))
    ensures var c' := Process(cfg, c, s, alloc, finAcked).0;
      WindowOk(cfg, c') && c'.annEdge == c.annEdge
  {
    if TakesData(c.state) && s.Len() > 0 {
      ReceiveKeeps(stream, c.rcv, s, alloc);
      ReceiveEdgeIff(stream, c.rcv, s, alloc);
      var r := Receive(c.rcv, s, alloc).0;
      AnnWindowSafe(cfg, r.nxt, r.wnd, c.annEdge);
    }
  }

  lemma OfferKeepsWindow(cfg: Config, c: Conn, take: bool)
    requires cfg.Valid() && WindowOk(cfg, c)
    ensures WindowOk(cfg, OfferRefused(cfg, c, take)) && OfferRefused(cfg, c, take).annEdge == c.annEdge
  {
    WithinWeaken(c.rcv.ooseq, c.rcv.nxt + c.rcv.wnd, c.rcv.nxt + OfferRefused(cfg, c, take).rcv.wnd);
  }

  lemma HandUpKeepsWindow(cfg: Config, c: Conn, up: Up, take: bool)
    requires cfg.Valid() && WindowOk(cfg, c)
    ensures WindowOk(cfg, HandUp(cfg, c, up, take)) && HandUp(cfg, c, up, take).annEdge == c.annEdge
  {
    WithinWeaken(c.rcv.ooseq, c.rcv.nxt + c.rcv.wnd, c.rcv.nxt + HandUp(cfg, c, up, take).rcv.wnd);
  }

  lemma InputKeepsWindow(cfg: Config, stream: seq<Byte>, c: Conn, e: Event)
    requires cfg.Valid() && RcvOk(stream, c.rcv) && (c.refused.Some? && c.refused.value.fin ==> !TakesData(c.state))
    requires e.Segment? && FromPeer(stream, e) && WindowOk(cfg, c) && RespectsWindow(c, e)
    ensures WindowOk(cfg, Step(cfg, c, e)) && Step(cfg, c, e).annEdge == c.annEdge
  {
    if !Over(c.state) {
      var s := e.seg;
      OfferKeepsWindow(cfg, c, e.takeOld);
      var c1 := OfferRefused(cfg, c, e.takeOld);
      if !(c1.refused.Some? && s.Len() > 0) {
        ProcessKeepsWindow(cfg, stream, c1, s, e.alloc, e.finAcked);
        var (c2, up) := Process(cfg, c1, s, e.alloc, e.finAcked);
        HandUpKeepsWindow(cfg, c2, up, e.takeNew);
      }
    }
  }

  lemma StepKeepsWindow(cfg: Config, stream: seq<Byte>, c: Conn, e: Event)
    requires cfg.Valid() && RcvOk(stream, c.rcv) && (c.refused.Some? && c.refused.value.fin ==> !TakesData(c.state))
    requires FromPeer(stream, e) && WindowOk(cfg, c) && RespectsWindow(c, e)
    ensures WindowOk(cfg, Step(cfg, c, e)) && c.annEdge <= Step(cfg, c, e).annEdge
  {
    match e
    case Segment(_, _, _, _, _) => InputKeepsWindow(cfg, stream, c, e);
    case FastTimer(take) => OfferKeepsWindow(cfg, c, take);
    case Recved(len) =>
      var w := GrowWindow(cfg, c.state, c.rcv.wnd, len);
      WithinWeaken(c.rcv.ooseq, c.rcv.nxt + c.rcv.wnd, c.rcv.nxt + w);
      AnnWindowSafe(cfg, c.rcv.nxt, w, c.annEdge);
    case Send =>
    case DropQueue(keep) =>
      if keep < |c.rcv.ooseq| { WithinPrefix(c.rcv.ooseq, c.rcv.nxt + c.rcv.wnd, keep); }
    case ShutdownTx =>
  }

  /** Every event is possible for the peer and stays inside the window at its point of the run. */
  predicate RunRespects(cfg: Config, stream: seq<Byte>, evs: seq<Event>)
    requires cfg.Valid()
  {
    evs != [] ==>
      var pre, e := evs[..|evs|-1], evs[|evs|-1];
      RunRespects(cfg, stream, pre) && FromPeer(stream, e) && RespectsWindow(Run(cfg, pre), e)
  }

  lemma {:induction false} RespectsFromPeer(cfg: Config, stream: seq<Byte>, evs: seq<Event>)
    requires cfg.Valid() && RunRespects(cfg, stream, evs)
    ensures forall i :: 0 <= i < |evs| ==> FromPeer(stream, evs[i])
  {
    if evs != [] { RespectsFromPeer(cfg, stream, evs[..|evs|-1]); }
  }

  /**
    Section 4.2.2.16 of RFC 1122: over every run, also with a peer that sends beyond
    what was announced, the announced right edge never moves left and never passes
    `rcv_nxt + rcv_wnd`.
   */
  lemma {:induction false} WindowTheorem(cfg: Config, stream: seq<Byte>, evs: seq<Event>, i: nat)
    requires cfg.Valid() && RunRespects(cfg, stream, evs) && i <= |evs|
    ensures WindowOk(cfg, Run(cfg, evs))
    ensures Run(cfg, evs[..i]).annEdge <= Run(cfg, evs).annEdge <= Run(cfg, evs).rcv.nxt + Run(cfg, evs).rcv.wnd
  {
    if evs == [] {
      assert evs[..i] == evs;
    } else {
      var n := |evs| - 1;
      var pre := evs[..n];
      WindowTheorem(cfg, stream, pre, if i <= n then i else 0);
      RespectsFromPeer(cfg, stream, pre);
      StreamTheorem(cfg, stream, pre);
      StepKeepsWindow(cfg, stream, Run(cfg, pre), evs[n]);
      assert evs[..i] == if i <= n then pre[..i] else evs;
    }
  }
}
