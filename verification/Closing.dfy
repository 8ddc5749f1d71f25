/**
  The close handshake seen from outside: the state of a connection follows from
  whether and when we shut down, whether our FIN was acknowledged, and whether the
  peer's FIN was received.
 */
module Closing {

  import opened Common
  import opened Reassembly
  import opened Receiver

  /** We shut down our side; we did so before the peer's FIN came; our FIN was acknowledged. */
  datatype Past = Past(shut: bool, first: bool, acked: bool)

  /** The segment is not thrown away unread: a segment with content is, as long as data is refused. */
  predicate Processed(c: Conn, e: Event) {
    e.Segment? && !Over(c.state) && (c.refused.None? || e.takeOld || e.seg.Len() == 0)
  }

  function History(cfg: Config, stream: seq<Byte>, evs: seq<Event>): Past
    requires cfg.Valid()
  {
    if evs == [] then Past(false, false, false)
    else
      var pre := evs[..|evs|-1];
      Later(stream, History(cfg, stream, pre), Run(cfg, pre), evs[|evs|-1])
  }

  function Later(stream: seq<Byte>, h: Past, c: Conn, e: Event): Past {
    if e.ShutdownTx? && !h.shut then Past(true, c.rcv.nxt <= |stream|, false)
    else if Processed(c, e) && e.finAcked && h.shut then h.(acked := true)
    else h
  }

  /** The state diagram of section 3.2 of RFC 793, from ESTABLISHED on, as a table. */
  function StateOf(h: Past, gotFin: bool): State {
    if !h.shut then (if gotFin then CloseWait else Established)
    else if !h.first then (if h.acked then Closed else LastAck)
    else if gotFin then (if h.acked then TimeWait else State.Closing)
    else (if h.acked then FinWait2 else FinWait1)
  }

  predicate Agrees(stream: seq<Byte>, h: Past, c: Conn) {
    c.state == StateOf(h, c.rcv.nxt > |stream|)
  }

  /** What tcp_process does to the state, by the table. */
  lemma ProcessState(cfg: Config, stream: seq<Byte>, c: Conn, s: Seg, alloc: bool, finAcked: bool, h: Past)
    requires cfg.Valid() && ConnOk(stream, c) && PeerSeg(stream, s) && !Over(c.state) && (c.refused.Some? ==> s.Len() == 0)
    requires Agrees(stream, h, c)
    ensures Agrees(stream, if finAcked && h.shut then h.(acked := true) else h, Process(cfg, c, s, alloc, finAcked).0)
  {
    ProcessKeeps(cfg, stream, c, s, alloc, finAcked);
  }

  lemma InputState(cfg: Config, stream: seq<Byte>, c: Conn, e: Event, h: Past)
    requires cfg.Valid() && ConnOk(stream, c) && FromPeer(stream, e) && e.Segment? && Agrees(stream, h, c)
    ensures Agrees(stream, Later(stream, h, c, e), Step(cfg, c, e))
  {
    HandUpState(cfg, c, Up([], false), e.takeOld);
    if Processed(c, e) {
      OfferKeeps(cfg, stream, c, e.takeOld);
      var c1 := OfferRefused(cfg, c, e.takeOld);
      ProcessState(cfg, stream, c1, e.seg, e.alloc, e.finAcked, h);
      var (c2, up) := Process(cfg, c1, e.seg, e.alloc, e.finAcked);
      HandUpState(cfg, c2, up, e.takeNew);
      assert Step(cfg, c, e) == HandUp(cfg, c2, up, e.takeNew);
    } else {
      assert Later(stream, h, c, e) == h;
    }
  }

  lemma HandUpState(cfg: Config, c: Conn, up: Up, take: bool)
    ensures var c', c1 := HandUp(cfg, c, up, take), OfferRefused(cfg, c, take);
      && c'.state == c.state && c'.rcv.nxt == c.rcv.nxt
      && c1.state == c.state && c1.rcv.nxt == c.rcv.nxt
  {
  }

  lemma StepState(cfg: Config, stream: seq<Byte>, c: Conn, e: Event, h: Past)
    requires cfg.Valid() && (ConnOk(stream, c) || CutShort(stream, c)) && FromPeer(stream, e) && Agrees(stream, h, c)
    ensures Agrees(stream, Later(stream, h, c, e), Step(cfg, c, e))
  {
    if e.Segment? && ConnOk(stream, c) { InputState(cfg, stream, c, e, h); }
  }

  /** In every run the state of the connection is the one of the table. */
  lemma {:induction false} StateTheorem(cfg: Config, stream: seq<Byte>, evs: seq<Event>)
    requires cfg.Valid() && forall i :: 0 <= i < |evs| ==> FromPeer(stream, evs[i])
    ensures Run(cfg, evs).state == StateOf(History(cfg, stream, evs), Run(cfg, evs).rcv.nxt > |stream|)
  {
    if evs != [] {
      var pre, e := evs[..|evs|-1], evs[|evs|-1];
      StateTheorem(cfg, stream, pre);
      StreamTheorem(cfg, stream, pre);
      StepState(cfg, stream, Run(cfg, pre), e, History(cfg, stream, pre));
    }
  }
}
