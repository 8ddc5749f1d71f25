/**
  The receiving half of the control block as tcp_in.c and tcp.c update it: fields
  changed in place, queues walked by loops, every branch taken on 32-bit sequence
  numbers. Each method is proved to compute the step of module Receiver.
 */
module TcpIn {

  import opened Common
  import opened SeqNum
  import opened Reassembly
  import opened Receiver

  /** Queued data never reaches further than this beyond rcv_nxt. */
  const REACH: int := 0x2_0000

  /** An arriving segment whose sequence numbers lie within 2^31 of rcv_nxt. */
  predicate Arrives(stream: seq<Byte>, nxt: int, wnd: int, s: Seg) {
    && CutFrom(stream, s) && |s.data| < 0x7fff
    && -H32 + wnd < s.pos - nxt <= H32 - 0x8000
  }

  /** TCP_SEQ_LT and equality of the sequence numbers of two near positions. */
  method CompareSeq(p: int, q: int) returns (lt: bool, eq: bool)
    requires Near(p, q)
    ensures lt == (p < q) && eq == (p == q)
  {
    NearOrder(p, q);
    lt, eq := SeqLt(Wrap(p), Wrap(q)), Wrap(p) == Wrap(q);
  }

  /** TCP_SEQ_BETWEEN on near positions. */
  method TestBetween(a: int, b: int, c: int) returns (r: bool)
    requires Near(a, b) && Near(a, c)
    ensures r == (b <= a <= c)
  {
    NearOrder(a, b);
    NearOrder(a, c);
    r := SeqBetween(Wrap(a), Wrap(b), Wrap(c));
  }

  /** `seg->len` is cut where a segment at `p` starts, if it reaches that far. */
  method TrimEnd(seg: Seg, p: int) returns (r: Seg)
    requires |seg.data| <= REACH && 0 <= p - seg.pos <= REACH
    requires |seg.data| < 0x1_0000 || p - seg.pos < 0x1_0000
    ensures r == CutAt(seg, p)
  {
    r := seg;
    NearOrder(seg.DataEnd(), p);
    if SeqGt(Wrap(seg.DataEnd()), Wrap(p)) {
      ShortDistance(p, seg.pos);
      var len := Sub(Wrap(p), Wrap(seg.pos)) % 0x1_0000;
      r := seg.(data := seg.data[..len]);
    }
  }

  /** tcp_oos_insert_segment */
  method InsertSegment(c: Seg, q: seq<Seg>, ghost stream: seq<Byte>) returns (m: seq<Seg>)
    requires CutFrom(stream, c) && |c.data| < 0x7fff
    requires Ordered(stream, q, c.pos) && Within(q, c.pos + REACH)
    ensures m == Swallow(c, q)
  {
    var cseg, next := c, q;
    if cseg.fin {
      next := [];
    } else {
      while next != [] && SeqGeq(Wrap(cseg.DataEnd()), Wrap(next[0].DataEnd()))
        invariant cseg == c.(fin := cseg.fin)
        invariant Ordered(stream, next, c.pos) && Within(next, c.pos + REACH)
        invariant Swallow(c, q) == Swallow(cseg, next)
        invariant cseg.fin ==> next == []
        invariant next != [] ==> Near(cseg.DataEnd(), next[0].DataEnd())
      {
        NearOrder(cseg.DataEnd(), next[0].DataEnd());
        if next[0].fin {
          cseg := cseg.(fin := true);
        }
        OrderedWeaken(stream, next[1..], next[0].End(), c.pos);
        next := next[1..];
      }
      if next != [] {
        NearOrder(cseg.DataEnd(), next[0].DataEnd());
        cseg := TrimEnd(cseg, next[0].pos);
      }
    }
    m := [cseg] + next;
  }

  /** The in-order segment meets the queue: drop what it covers, take over a FIN, cut it at what is left. */
  method MergeQueue(in0: Seg, q: seq<Seg>, ghost stream: seq<Byte>) returns (inseg: Seg, next: seq<Seg>)
    requires CutFrom(stream, in0) && |in0.data| < 0x7fff
    requires Ordered(stream, q, in0.pos + 1) && Within(q, in0.pos + REACH)
    ensures inseg == Swallow(in0, q)[0] && next == Swallow(in0, q)[1..]
  {
    assert forall x: Seg, y: seq<Seg> :: ([x] + y)[0] == x && ([x] + y)[1..] == y;
    inseg, next := in0, q;
    if q != [] {
      if inseg.fin {
        next := [];
      } else {
        var tcplen := inseg.Len();
        while next != [] && SeqGeq(Wrap(inseg.pos + tcplen), Wrap(next[0].DataEnd()))
          invariant inseg == in0.(fin := inseg.fin) && tcplen == inseg.Len()
          invariant Ordered(stream, next, in0.pos + 1) && Within(next, in0.pos + REACH)
          invariant Swallow(in0, q) == Swallow(inseg, next)
          invariant inseg.fin ==> next == []
          invariant next != [] ==> Near(inseg.pos + tcplen, next[0].DataEnd())
        {
          NearOrder(inseg.pos + tcplen, next[0].DataEnd());
          if next[0].fin {
            inseg := inseg.(fin := true);
            tcplen := inseg.Len();
          }
          OrderedWeaken(stream, next[1..], next[0].End(), in0.pos + 1);
          next := next[1..];
        }
        if next != [] {
          NearOrder(inseg.pos + tcplen, next[0].DataEnd());
          inseg := TrimEnd(inseg, next[0].pos);
        }
      }
    }
  }

  /** The left edge of the segment is trimmed to rcv_nxt if rcv_nxt lies inside it. */
  method TrimLeft(s: Seg, nxt: int, wnd: int, ghost stream: seq<Byte>) returns (inseg: Seg)
    requires Arrives(stream, nxt, wnd, s) && s.Len() > 0 && 0 <= wnd < 0x1_0000
    ensures inseg == TrimFront(s, nxt)
  {
    inseg := s;
    var inside := TestBetween(nxt, s.pos + 1, s.pos + s.Len() - 1);
    if inside {
      SignedDistance(nxt, s.pos);
      var off := Signed(Sub(Wrap(nxt), Wrap(s.pos)));
      inseg := Seg(nxt, s.data[off..], s.fin);
    }
  }

  /** `seg->len` and the FIN are cut to the window of an in-order segment. */
  method TrimRight(s: Seg, nxt: int, wnd: int) returns (inseg: Seg)
    requires s.pos == nxt && 0 < wnd < 0x1_0000
    ensures inseg == ClipToWindow(s, nxt + wnd)
  {
    inseg := s;
    if inseg.Len() > wnd {
      inseg := inseg.(fin := false);
      inseg := inseg.(data := inseg.data[..wnd]);
    }
  }

  class RxPcb {
    const cfg: Config
    var state: State
    var nxt: int
    var wnd: int
    var annWnd: int
    var annEdge: int
    var ooseq: seq<Seg>
    var refused: Option<Up>
    var delivered: seq<Byte>
    var closed: nat

    function Rcv(): Rcv
      reads this
    {
      Reassembly.Rcv(nxt, wnd, ooseq)
    }

    function Conn(): Conn
      reads this
    {
      Receiver.Conn(state, Rcv(), annWnd, annEdge, refused, delivered, closed)
    }

    /** The queue invariant for the peer's stream. */
    ghost predicate Queued(stream: seq<Byte>)
      reads this
    {
      RcvOk(stream, Rcv()) && Within(ooseq, nxt + REACH)
    }

    constructor (cfg: Config)
      requires cfg.Valid()
      ensures this.cfg == cfg && Conn() == Start(cfg)
      ensures forall stream :: Queued(stream)
    {
      this.cfg := cfg;
      state, nxt, wnd, annWnd, annEdge := Established, 0, cfg.wndMax, cfg.wndMax, 0;
      ooseq, refused, delivered, closed := [], None, [], 0;
    }

    /** tcp_update_rcv_ann_wnd */
    method UpdateAnnWnd()
      requires cfg.Valid()
      modifies this`annWnd
      ensures annWnd == AnnWindow(cfg, nxt, wnd, annEdge)
      ensures 0 <= wnd <= cfg.wndMax && nxt - H32 + 0x2_0000 <= annEdge <= nxt + wnd ==>
        0 <= annWnd <= wnd && annEdge <= nxt + annWnd && (annWnd == wnd || wnd - annWnd < cfg.Step())
    {
      if 0 <= wnd <= cfg.wndMax && nxt - H32 + 0x2_0000 <= annEdge <= nxt + wnd {
        AnnWindowSafe(cfg, nxt, wnd, annEdge);
        AnnWindowOpens(cfg, nxt, wnd, annEdge);
      }
      var newRightEdge := Wrap(nxt + wnd);
      if SeqGeq(newRightEdge, Wrap(annEdge + cfg.Step())) {
        annWnd := wnd;
      } else if SeqGt(Wrap(nxt), Wrap(annEdge)) {
        annWnd := 0;
      } else {
        annWnd := Sub(Wrap(annEdge), Wrap(nxt)) % 0x1_0000;
      }
    }

    /** Queued segments that are now in sequence go up too. */
    method DrainQueue(up0: Up, ghost stream: seq<Byte>) returns (up: Up)
      requires cfg.Valid() && Ordered(stream, ooseq, nxt) && Within(ooseq, nxt + REACH)
      requires annWnd == AnnWindow(cfg, nxt, wnd, annEdge)
      modifies this`nxt, this`wnd, this`annWnd, this`ooseq
      ensures (Rcv(), up) == Drain(old(Rcv()), up0)
      ensures annWnd == AnnWindow(cfg, nxt, wnd, annEdge) && nxt >= old(nxt)
    {
      ghost var r0 := Rcv();
      up := up0;
      while ooseq != [] && Wrap(ooseq[0].pos) == Wrap(nxt)
        invariant Drain(Rcv(), up) == Drain(r0, up0)
        invariant Ordered(stream, ooseq, nxt) && Within(ooseq, r0.nxt + REACH)
        invariant annWnd == AnnWindow(cfg, nxt, wnd, annEdge) && nxt >= r0.nxt
        invariant ooseq != [] ==> Near(ooseq[0].pos, nxt)
        decreases |ooseq|
      {
        var cseg := ooseq[0];
        NearOrder(cseg.pos, nxt);
        nxt := nxt + cseg.Len();
        wnd := (wnd - cseg.Len()) % 0x1_0000;
        UpdateAnnWnd();
        up := Up(up.data + cseg.data, up.fin || cseg.fin);
        ooseq := ooseq[1..];
      }
      if ooseq != [] {
        NearOrder(ooseq[0].pos, nxt);
      }
    }

    /** An in-order segment: update rcv_nxt, the window and the queue, and collect what goes up. */
    method AcceptInOrder(seg: Seg, ghost stream: seq<Byte>) returns (up: Up)
      requires cfg.Valid() && Queued(stream)
      requires CutFrom(stream, seg) && |seg.data| < 0x7fff && 0 < seg.Len() <= wnd && seg.pos == nxt
      modifies this`nxt, this`wnd, this`annWnd, this`ooseq
      ensures (Rcv(), up) == Accept(old(Rcv()), seg)
      ensures annWnd == AnnWindow(cfg, nxt, wnd, annEdge) && nxt > old(nxt)
    {
      ghost var r0 := Rcv();
      var inseg, next := MergeQueue(seg, ooseq, stream);
      MergeFacts(stream, r0, seg, Swallow(seg, ooseq));
      AcceptIs(r0, seg, inseg, next);
      ooseq := next;
      nxt := inseg.pos + inseg.Len();
      wnd := (wnd - inseg.Len()) % 0x1_0000;
      UpdateAnnWnd();
      assert Rcv() == Advance(r0, inseg, next);
      up := DrainQueue(Up(inseg.data, inseg.fin), stream);
    }

    /** The three cases of a segment whose left edge was trimmed. */
    method Sequence(seg: Seg, alloc: bool, ghost stream: seq<Byte>) returns (up: Up)
      requires cfg.Valid() && Queued(stream)
      requires CutFrom(stream, seg) && |seg.data| < 0x7fff && 0 < seg.Len()
      requires -H32 + wnd < seg.pos - nxt <= H32 - 0x8000
      modifies this`nxt, this`wnd, this`annWnd, this`ooseq
      ensures (Rcv(), up) == ReceiveTrimmed(old(Rcv()), seg, alloc)
      ensures annWnd == if nxt != old(nxt) then AnnWindow(cfg, nxt, wnd, annEdge) else old(annWnd)
    {
      up := Up([], false);
      var inWindow := TestBetween(seg.pos, nxt, nxt + wnd - 1);
      if inWindow {
        var _, inOrder := CompareSeq(nxt, seg.pos);
        if inOrder {
          ClipKeeps(stream, seg, nxt + wnd);
          var inseg := TrimRight(seg, nxt, wnd);
          up := AcceptInOrder(inseg, stream);
        } else {
          ooseq := QueueSegment(ooseq, seg, alloc, nxt, wnd, stream);
        }
      }
    }

    /** The data half of tcp_receive. */
    method TcpReceive(s: Seg, alloc: bool, ghost stream: seq<Byte>) returns (up: Up)
      requires cfg.Valid() && Queued(stream) && (s.Len() > 0 ==> Arrives(stream, nxt, wnd, s))
      modifies this`nxt, this`wnd, this`annWnd, this`ooseq
      ensures (Rcv(), up) == Receive(old(Rcv()), s, alloc)
      ensures annWnd == if nxt != old(nxt) then AnnWindow(cfg, nxt, wnd, annEdge) else old(annWnd)
    {
      up := Up([], false);
      if s.Len() > 0 {
        TrimKeeps(stream, s, nxt);
        var inseg := TrimLeft(s, nxt, wnd, stream);
        up := Sequence(inseg, alloc, stream);
      }
    }

    /** The receive callback with NULL: end of stream. */
    method SignalEnd()
      modifies this`wnd, this`closed
      ensures Conn() == SignalClosed(cfg, old(Conn()))
    {
      // The application does not call tcp_recved for the FIN.
      if wnd != cfg.wndMax {
        wnd := (wnd + 1) % 0x1_0000;
      }
      closed := closed + 1;
    }

    /** tcp_process_refused_data; `take`: the application accepts the data now. */
    method ProcessRefused(take: bool)
      requires refused.Some?
      modifies this`refused, this`delivered, this`closed, this`wnd
      ensures Conn() == OfferRefused(cfg, old(Conn()), take)
    {
      var held := refused.value;
      refused := None;
      if take {
        delivered := delivered + held.data;
        if held.fin {
          SignalEnd();
        }
      } else {
        refused := Some(held);
      }
    }

    /** tcp_pcb_purge, as far as the receiver goes: the queue is freed, and so is refused data. */
    method Purge()
      modifies this`ooseq, this`refused
      ensures ooseq == [] && refused == None
    {
      refused := None;
      ooseq := [];
    }

    /** The transitions of tcp_process; LAST_ACK ends with the control block removed. */
    method Transition(gotFin: bool, finAcked: bool)
      requires !Over(state)
      modifies this`state, this`ooseq, this`refused
      ensures state == NextState(old(state), gotFin, finAcked)
      ensures ooseq == (if Over(state) then [] else old(ooseq)) && refused == if Over(state) then None else old(refused)
      ensures TakesData(state) <==> TakesData(old(state)) && !gotFin
    {
      match state {
        case Established =>
          if gotFin { state := CloseWait; }
        case FinWait1 =>
          if gotFin {
            if finAcked {
              Purge();
              state := TimeWait;
            } else {
              state := Closing;
            }
          } else if finAcked {
            state := FinWait2;
          }
        case FinWait2 =>
          if gotFin {
            Purge();
            state := TimeWait;
          }
        case Closing =>
          if finAcked {
            Purge();
            state := TimeWait;
          }
        case LastAck =>
          if finAcked {
            Purge();  // tcp_pcb_remove
            state := Closed;
          }
        case CloseWait =>
      }
    }

    /** tcp_process in the states after the handshake; `finAcked`: our FIN is acknowledged. */
    method TcpProcess(s: Seg, alloc: bool, finAcked: bool, ghost stream: seq<Byte>) returns (up: Up)
      requires cfg.Valid() && Queued(stream) && (s.Len() > 0 ==> Arrives(stream, nxt, wnd, s)) && !Over(state)
      modifies this`state, this`nxt, this`wnd, this`annWnd, this`ooseq, this`refused
      ensures (Conn(), up) == Process(cfg, old(Conn()), s, alloc, finAcked)
    {
      up := Up([], false);
      if TakesData(state) {
        up := TcpReceive(s, alloc, stream);
      }
      Transition(up.fin, finAcked);
    }

    /** The receive callback for new data, then for a FIN, unless there is refused data. */
    method HandUpData(up: Up, take: bool)
      modifies this`refused, this`delivered, this`closed, this`wnd
      ensures Conn() == HandUp(cfg, old(Conn()), up, take)
      ensures old(refused).None? ==> delivered + RefusedData(Conn()) == old(delivered) + up.data
      ensures closed == old(closed) + if up.fin && refused.None? then 1 else 0
    {
      if up.data != [] {
        if take {
          delivered := delivered + up.data;
        } else {
          refused := Some(Up(up.data, false));
        }
      }
      if up.fin {
        if refused.Some? {
          refused := Some(refused.value.(fin := true));
        } else {
          SignalEnd();
        }
      }
    }

    /** tcp_input once the segment was matched to this connection. */
    method TcpInput(s: Seg, alloc: bool, finAcked: bool, takeOld: bool, takeNew: bool, ghost stream: seq<Byte>)
      requires cfg.Valid() && Queued(stream) && (ConnOk(stream, Conn()) || CutShort(stream, Conn()))
      requires s.Len() > 0 ==> CutFrom(stream, s) && |s.data| < 0x7fff && -H32 + 0x1_0000 < s.pos - nxt <= H32 - 0x8000
      modifies this
      ensures Conn() == Input(cfg, old(Conn()), s, alloc, finAcked, takeOld, takeNew)
      ensures Queued(stream) && (ConnOk(stream, Conn()) || CutShort(stream, Conn()))
      ensures old(ConnOk(stream, Conn())) && !(!takeOld && Purges(old(Conn()), s, finAcked)) ==> ConnOk(stream, Conn())
    {
      if !Over(state) {  // tcp_timewait_input takes no data
        InputKeeps(cfg, stream, Conn(), s, alloc, finAcked, takeOld, takeNew);
        InputStaysNear(cfg, stream, Conn(), s, alloc, finAcked, takeOld, takeNew);
        InputActive(s, alloc, finAcked, takeOld, takeNew, stream);
      }
    }

    method InputActive(s: Seg, alloc: bool, finAcked: bool, takeOld: bool, takeNew: bool, ghost stream: seq<Byte>)
      requires cfg.Valid() && Queued(stream) && ConnOk(stream, Conn()) && !Over(state)
      requires s.Len() > 0 ==> CutFrom(stream, s) && |s.data| < 0x7fff && -H32 + 0x1_0000 < s.pos - nxt <= H32 - 0x8000
      modifies this
      ensures Conn() == Input(cfg, old(Conn()), s, alloc, finAcked, takeOld, takeNew)
    {
      OfferKeeps(cfg, stream, Conn(), takeOld);
      if refused.Some? {
        ProcessRefused(takeOld);
        if refused.Some? && s.Len() > 0 {
          return;  // still refused: drop the segment
        }
      }
      var up := TcpProcess(s, alloc, finAcked, stream);
      HandUpData(up, takeNew);
    }

    /** tcp_recved */
    method TcpRecved(len: int)
      requires cfg.Valid() && 0 <= len < 0x1_0000 && 0 <= wnd < 0x1_0000 && !state.Closed?
      modifies this`wnd, this`annWnd
      ensures Conn() == Step(cfg, old(Conn()), Recved(len))
    {
      wnd := (wnd + len) % 0x1_0000;
      if wnd > cfg.wndMax {
        wnd := cfg.wndMax;
      } else if wnd == 0 {
        if state.CloseWait? || state.LastAck? {
          wnd := cfg.wndMax;
        }
      }
      UpdateAnnWnd();
    }
  }

  /** The merged segment is next in order and the queue left lies behind it. */
  lemma MergeFacts(stream: seq<Byte>, r: Rcv, seg: Seg, m: seq<Seg>)
    requires RcvOk(stream, r) && Within(r.ooseq, r.nxt + REACH)
    requires CutFrom(stream, seg) && |seg.data| < 0x7fff && 0 < seg.Len() && seg.pos == r.nxt
    requires m == Swallow(seg, r.ooseq)
    ensures m[0].pos == r.nxt && m[0].Len() > 0
    ensures Ordered(stream, m[1..], m[0].End()) && Within(m[1..], m[0].End() + REACH)
  {
    OrderedWeaken(stream, r.ooseq, r.nxt + 1, r.nxt);
    SwallowKeeps(stream, seg, r.ooseq, r.nxt + REACH);
    WithinWeaken(m[1..], r.nxt + REACH, m[0].End() + REACH);
  }

  lemma AcceptIs(r: Rcv, seg: Seg, inseg: Seg, next: seq<Seg>)
    requires inseg == Swallow(seg, r.ooseq)[0] && next == Swallow(seg, r.ooseq)[1..]
    ensures Accept(r, seg) == Drain(Advance(r, inseg, next), Up(inseg.data, inseg.fin))
  {
    assert Append(Up([], false), inseg) == Up(inseg.data, inseg.fin);
  }

  lemma ReceiveStaysNear(stream: seq<Byte>, r: Rcv, s: Seg, alloc: bool)
    requires RcvOk(stream, r) && Within(r.ooseq, r.nxt + REACH)
    requires CutFrom(stream, s) && |s.data| < 0x7fff
    ensures Within(Receive(r, s, alloc).0.ooseq, Receive(r, s, alloc).0.nxt + REACH)
  {
    ReceiveKeeps(stream, r, s, alloc);
    ReceiveStaysLeft(stream, r, s, alloc, r.nxt + REACH);
    WithinWeaken(Receive(r, s, alloc).0.ooseq, r.nxt + REACH, Receive(r, s, alloc).0.nxt + REACH);
  }

  lemma ProcessStaysNear(cfg: Config, stream: seq<Byte>, c: Conn, s: Seg, alloc: bool, finAcked: bool)
    requires cfg.Valid() && ConnOk(stream, c) && Within(c.rcv.ooseq, c.rcv.nxt + REACH)
    requires s.Len() > 0 ==> CutFrom(stream, s) && |s.data| < 0x7fff
    ensures var r := Process(cfg, c, s, alloc, finAcked).0.rcv; Within(r.ooseq, r.nxt + REACH)
  {
    if TakesData(c.state) && s.Len() > 0 {
      ReceiveStaysNear(stream, c.rcv, s, alloc);
    }
  }

  lemma HandUpQueue(cfg: Config, c: Conn, up: Up, take: bool)
    ensures var r := HandUp(cfg, c, up, take).rcv; r.nxt == c.rcv.nxt && r.ooseq == c.rcv.ooseq
  {
  }

  /** The queue never reaches far beyond rcv_nxt, whatever the peer sends. */
  lemma InputStaysNear(cfg: Config, stream: seq<Byte>, c: Conn, s: Seg, alloc: bool, finAcked: bool, takeOld: bool, takeNew: bool)
    requires cfg.Valid() && ConnOk(stream, c) && Within(c.rcv.ooseq, c.rcv.nxt + REACH)
    requires s.Len() > 0 ==> CutFrom(stream, s) && |s.data| < 0x7fff
    ensures var r := Input(cfg, c, s, alloc, finAcked, takeOld, takeNew).rcv; Within(r.ooseq, r.nxt + REACH)
  {
    if !Over(c.state) {
      OfferKeeps(cfg, stream, c, takeOld);
      var c1 := OfferRefused(cfg, c, takeOld);
      if !(c1.refused.Some? && s.Len() > 0) {
        ProcessStaysNear(cfg, stream, c1, s, alloc, finAcked);
        var (c2, up) := Process(cfg, c1, s, alloc, finAcked);
        HandUpQueue(cfg, c2, up, takeNew);
      }
    }
  }

  /** Insert `inseg` in front of `q[i..]`. */
  method InsertAt(q: seq<Seg>, i: nat, inseg: Seg, nxt: int, ghost stream: seq<Byte>) returns (m: seq<Seg>)
    requires Ordered(stream, q, nxt + 1) && Within(q, nxt + REACH)
    requires CutFrom(stream, inseg) && |inseg.data| < 0x7fff
    requires i < |q| && nxt < inseg.pos <= q[i].pos
    ensures m == Swallow(inseg, q[i..])
  {
    SuffixOrdered(stream, q, nxt + 1, i);
    WithinSuffix(q, nxt + REACH, i);
    WithinWeaken(q[i..], nxt + REACH, inseg.pos + REACH);
    m := InsertSegment(inseg, q[i..], stream);
  }

  /** Add `inseg` behind the last queued segment, checking the window. */
  method AppendAfter(last: Seg, inseg: Seg, nxt: int, wnd: int) returns (m: seq<Seg>)
    requires nxt < last.pos < inseg.pos < nxt + wnd && 0 <= wnd < 0x1_0000
    requires |inseg.data| < 0x7fff && |last.data| <= REACH && !last.fin
    ensures m == QueueAfter([last], inseg, nxt + wnd)
  {
    var next := TrimEnd(last, inseg.pos);
    var cseg := inseg;
    NearOrder(inseg.End(), nxt + wnd);
    if SeqGt(Wrap(inseg.End()), Wrap(nxt + wnd)) {
      cseg := cseg.(fin := false);
      ShortDistance(nxt + wnd, inseg.pos);
      cseg := cseg.(data := cseg.data[..Sub(Wrap(nxt + wnd), Wrap(inseg.pos)) % 0x1_0000]);
    }
    m := [next, cseg];
  }

  /** The walk that puts an out-of-sequence segment on the queue. */
  method QueueSegment(q: seq<Seg>, inseg: Seg, alloc: bool, nxt: int, wnd: int, ghost stream: seq<Byte>)
    returns (q': seq<Seg>)
    requires Ordered(stream, q, nxt + 1) && Within(q, nxt + REACH)
    requires CutFrom(stream, inseg) && 0 < inseg.Len() && |inseg.data| < 0x7fff
    requires nxt < inseg.pos < nxt + wnd && wnd < 0x1_0000
    ensures q' == if alloc then Queue(q, inseg, nxt + wnd) else q
  {
    if !alloc { return q; }  // every tcp_seg_copy below returns NULL
    if q == [] { return [inseg]; }
    var i := 0;
    while true
      invariant 0 <= i < |q|
      invariant i > 0 ==> q[i-1].pos < inseg.pos
      invariant Queue(q, inseg, nxt + wnd) == WalkFrom(q, inseg, nxt + wnd, i)
      decreases |q| - i
    {
      var done;
      done, q' := QueueStep(q, i, inseg, nxt, wnd, stream);
      if done { return; }
      i := i + 1;
    }
  }

  /** One round of the walk, at `next == q[i]`: the segment finds its place, or the walk goes on. */
  method QueueStep(q: seq<Seg>, i: nat, inseg: Seg, nxt: int, wnd: int, ghost stream: seq<Byte>)
    returns (done: bool, q': seq<Seg>)
    requires Ordered(stream, q, nxt + 1) && Within(q, nxt + REACH)
    requires CutFrom(stream, inseg) && 0 < inseg.Len() && |inseg.data| < 0x7fff
    requires nxt < inseg.pos < nxt + wnd && wnd < 0x1_0000
    requires i < |q| && (i > 0 ==> q[i-1].pos < inseg.pos)
    ensures done ==> q' == WalkFrom(q, inseg, nxt + wnd, i)
    ensures !done ==> i + 1 < |q| && q[i].pos < inseg.pos
    ensures !done ==> WalkFrom(q, inseg, nxt + wnd, i) == WalkFrom(q, inseg, nxt + wnd, i + 1)
  {
    var next := q[i];
    done, q' := true, q;
    ElementFacts(stream, q, nxt + 1, nxt + REACH, i);
    WalkStep(q, inseg, nxt + wnd, i);
    var below, same := CompareSeq(inseg.pos, next.pos);
    if same {
      if |inseg.data| > |next.data| {
        var m := InsertAt(q, i, inseg, nxt, stream);
        q' := q[..i] + m;
      }
      return;
    }
    if i == 0 {
      if below {
        q' := InsertAt(q, 0, inseg, nxt, stream);
        return;
      }
    } else {
      var prev := q[i-1];
      ElementFacts(stream, q, nxt + 1, nxt + REACH, i-1);
      var between := TestBetween(inseg.pos, prev.pos + 1, next.pos - 1);
      if between {
        prev := TrimEnd(prev, inseg.pos);
        var m := InsertAt(q, i, inseg, nxt, stream);
        q' := q[..i-1] + ([prev] + m);
        return;
      }
    }
    if i == |q| - 1 && !below {
      if !next.fin {
        var m := AppendAfter(next, inseg, nxt, wnd);
        q' := q[..i] + m;
      }
      return;
    }
    done := false;
  }

  /** What the queue invariant says about one element. */
  lemma {:induction false} ElementFacts(stream: seq<Byte>, q: seq<Seg>, lo: int, edge: int, i: nat)
    requires Ordered(stream, q, lo) && Within(q, edge) && i < |q|
    ensures lo <= q[i].pos && q[i].Len() > 0 && CutFrom(stream, q[i]) && q[i].End() <= edge
    ensures i < |q| - 1 ==> !q[i].fin && q[i].End() <= q[i+1].pos
  {
    if i > 0 {
      ElementFacts(stream, q[1..], q[0].End(), edge, i - 1);
    }
  }

  /** What the walk still has to produce when it looks at `q[i]`. */
  ghost function WalkFrom(q: seq<Seg>, s: Seg, edge: int, i: nat): seq<Seg>
    requires s.pos <= edge && i <= |q| && (i > 0 ==> q[i-1].pos < s.pos)
  {
    if i == 0 then Queue(q, s, edge) else q[..i-1] + QueueAfter(q[i-1..], s, edge)
  }

  /** The walk's decision at `q[i]`. */
  lemma WalkStep(q: seq<Seg>, s: Seg, edge: int, i: nat)
    requires s.pos <= edge && i < |q| && (i > 0 ==> q[i-1].pos < s.pos)
    ensures s.pos == q[i].pos ==> WalkFrom(q, s, edge, i) == q[..i] + Replace(q[i..], s)
    ensures s.pos < q[i].pos ==>
      WalkFrom(q, s, edge, i) ==
        if i == 0 then Swallow(s, q[0..]) else q[..i-1] + ([CutAt(q[i-1], s.pos)] + Swallow(s, q[i..]))
    ensures q[i].pos < s.pos ==> WalkFrom(q, s, edge, i) == WalkFrom(q, s, edge, i + 1)
    ensures q[i].pos < s.pos && i == |q| - 1 ==>
      WalkFrom(q, s, edge, i + 1) == q[..i] + QueueAfter([q[i]], s, edge)
  {
    assert q[0..] == q;
    if i > 0 {
      var t := q[i-1..];
      assert t[0] == q[i-1] && t[1] == q[i] && t[1..] == q[i..];
      assert q[..i] == q[..i-1] + [q[i-1]];
    }
    if i == |q| - 1 {
      assert q[i..] == [q[i]];
    }
  }

  lemma {:induction false} SuffixOrdered(stream: seq<Byte>, q: seq<Seg>, lo: int, n: nat)
    requires Ordered(stream, q, lo) && n < |q|
    ensures Ordered(stream, q[n..], q[n].pos)
  {
    if n > 0 {
      SuffixOrdered(stream, q[1..], q[0].End(), n - 1);
      assert q[n..] == q[1..][n-1..];
    } else {
      assert q[0..] == q;
    }
  }

  lemma {:induction false} WithinSuffix(q: seq<Seg>, edge: int, n: nat)
    requires Within(q, edge) && n <= |q|
    ensures Within(q[n..], edge)
  {
    if n > 0 {
      WithinSuffix(q[1..], edge, n - 1);
      assert q[n..] == q[1..][n-1..];
    } else {
      assert q[0..] == q;
    }
  }
}
