/**
  Runs of the sender: every sequence of writes, FIN, outputs (also failing ones),
  acknowledgements, retransmissions and window probes.
 */
module Sender {

  import opened SendSpec

  datatype Event =
    | DoWrite(r: Req)
    | DoFin(budget: nat)
    | DoOutput(o: Out)
    | DoAck(ack: int, wndMax: int, third: bool)
    | DoRto(o: Out)
    | DoProbe(sent: bool)

  /** The sender with the bytes that tcp_write accepted so far. */
  datatype Conn = Conn(s: Snd, written: seq<Byte>)

  function Step(cfg: Config, c: Conn, e: Event): Conn
    requires cfg.Valid() && MssLocal(c.s) > 0
  {
    match e
    case DoWrite(r) =>
      var (s', err) := Write(cfg, c.s, r);
      Conn(s', if err.ErrOk? then c.written + r.data else c.written)
    case DoFin(budget) => c.(s := SendFin(c.s, budget).0)
    case DoOutput(o) => c.(s := Output(cfg, c.s, o))
    case DoAck(ack, wndMax, third) => c.(s := Ack(c.s, ack, wndMax, third))
    case DoRto(o) => c.(s := Rto(cfg, c.s, o))
    case DoProbe(sent) => c.(s := Probe(c.s, sent))
  }

  /**
    tcp_write is called when the last unsent segment ends at snd_lbb or is full
    (WriteTheorem shows that nothing less will do), and the largest window seen
    does not shrink.
   */
  predicate Allowed(c: Conn, e: Event) {
    match e
    case DoWrite(r) => TailAtEnd(c.written, c.s) || r.data == []
    case DoAck(_, wndMax, _) => c.s.wndMax <= wndMax
    case _ => true
  }

  function Start(cfg: Config, mss: int, wndMax: int, noDelay: bool): Conn {
    Conn(Snd(0, 0, 0, cfg.sndBuf, 0, [], [], 0, wndMax, mss, NoFin, false, false, noDelay, []), [])
  }

  /** `cs` is a run: the connection after each event. */
  ghost predicate IsRun(cfg: Config, evs: seq<Event>, cs: seq<Conn>)
    requires cfg.Valid()
  {
    && |cs| == |evs| + 1 && SndOk(cfg, cs[0].written, cs[0].s)
    && forall i {:trigger evs[i]} :: 0 <= i < |evs| ==>
         MssLocal(cs[i].s) > 0 && Allowed(cs[i], evs[i]) && cs[i+1] == Step(cfg, cs[i], evs[i])
  }

  lemma StartOk(cfg: Config, mss: int, wndMax: int, noDelay: bool)
    requires cfg.Valid() && 0 < mss && 0 <= wndMax
    ensures var c := Start(cfg, mss, wndMax, noDelay); SndOk(cfg, c.written, c.s)
  {
  }

  lemma StepKeeps(cfg: Config, c: Conn, e: Event)
    requires cfg.Valid() && SndOk(cfg, c.written, c.s) && Allowed(c, e)
    ensures var c' := Step(cfg, c, e); SndOk(cfg, c'.written, c'.s)
  {
    match e
    case DoWrite(r) => WriteTheorem(cfg, c.written, c.s, r);
    case DoFin(budget) => SendFinKeeps(cfg, c.written, c.s, budget);
    case DoOutput(o) => OutputKeeps(cfg, c.written, c.s, o);
    case DoAck(ack, wndMax, third) => AckKeeps(cfg, c.written, c.s, ack, wndMax, third);
    case DoRto(o) => RtoKeeps(cfg, c.written, c.s, o);
    case DoProbe(sent) => ProbeKeeps(cfg, c.written, c.s, sent);
  }

  /** Every state of every run satisfies the invariant. */
  lemma {:induction false} RunKeeps(cfg: Config, evs: seq<Event>, cs: seq<Conn>, i: nat)
    requires cfg.Valid() && IsRun(cfg, evs, cs) && i <= |evs|
    ensures SndOk(cfg, cs[i].written, cs[i].s)
  {
    if i > 0 {
      RunKeeps(cfg, evs, cs, i - 1);
      StepKeeps(cfg, cs[i-1], evs[i-1]);
      assert cs[i] == Step(cfg, cs[i-1], evs[i-1]);
    }
  }

  lemma {:induction false} CntZero(q: seq<Seg>, p: int)
    requires Cnt(q, p) == 0
    ensures forall j :: 0 <= j < |q| ==> !q[j].Has(p)
  {
    if q != [] {
      CntZero(q[1..], p);
      assert forall j :: 1 <= j < |q| ==> q[j] == q[1..][j-1];
    }
  }

  /** A count of one: one holder, with the right byte, and no other. */
  lemma {:induction false} CntOne(w: seq<Byte>, m: int, q: seq<Seg>, p: int) returns (i: nat)
    requires Cnt(q, p) == 1 && AllOk(w, m, q) && 0 <= p < |w|
    ensures i < |q| && q[i].Has(p) && q[i].data[p - q[i].pos] == w[p]
    ensures forall j :: 0 <= j < |q| && j != i ==> !q[j].Has(p)
  {
    if q[0].Has(p) {
      i := 0;
      CntZero(q[1..], p);
      assert forall j :: 1 <= j < |q| ==> q[j] == q[1..][j-1];
    } else {
      var k := CntOne(w, m, q[1..], p);
      i := k + 1;
      assert forall j :: 1 <= j < |q| ==> q[j] == q[1..][j-1];
    }
  }

  /**
    Nothing unacknowledged is dropped or doubled: in every state of every run, each
    byte from lastack on is held by exactly one queued segment, at its sequence
    number and with the value that was written; buffer space and queue length are
    accounted for.
   */
  lemma HeldTheorem(cfg: Config, evs: seq<Event>, cs: seq<Conn>, k: nat, p: int) returns (i: nat)
    requires cfg.Valid() && IsRun(cfg, evs, cs) && k <= |evs|
    requires cs[k].s.una <= p < |cs[k].written|
    ensures var s, w := cs[k].s, cs[k].written;
      var q := s.unacked + s.unsent;
      && i < |q| && q[i].Has(p) && 0 <= p && q[i].data[p - q[i].pos] == w[p]
      && (forall j :: 0 <= j < |q| && j != i ==> !q[j].Has(p))
      && s.buf + SumLen(q) == cfg.sndBuf && s.qlen == SumBufs(q)
  {
    RunKeeps(cfg, evs, cs, k);
    var s, w := cs[k].s, cs[k].written;
    Split(s.unacked, s.unsent);
    CntSplit(s.unacked, s.unsent, p);
    AllOkSplit(w, cfg.sndBuf, s.unacked, s.unsent);
    i := CntOne(w, cfg.sndBuf, s.unacked + s.unsent, p);
  }

  /**
    In every state of every run `lastack <= snd_nxt <= snd_lbb` (one more when the FIN
    rides on a data segment), `unacked` is sorted and below snd_nxt, no queued segment
    is empty, and room is recorded only behind a last unsent segment that ends at
    snd_lbb.
   */
  lemma NumbersTheorem(cfg: Config, evs: seq<Event>, cs: seq<Conn>, k: nat)
    requires cfg.Valid() && IsRun(cfg, evs, cs) && k <= |evs|
    ensures var s := cs[k].s;
      && s.una <= s.nxt <= s.lbb + (if s.fin.Riding? then 1 else 0)
      && Sorted(s.unacked) && AllBelow(s.unacked, s.nxt)
      && (forall x :: x in s.unacked + s.unsent ==> 0 < x.Len() && x.End() <= Limit(s))
      && (s.unsent == [] ==> s.oversize == 0)
      && (s.unsent != [] && s.oversize > 0 ==> s.unsent[|s.unsent|-1].DataEnd() == |cs[k].written|)
  {
    RunKeeps(cfg, evs, cs, k);
    var s, w := cs[k].s, cs[k].written;
    forall x | x in s.unacked + s.unsent ensures 0 < x.Len() && x.End() <= Limit(s) {
      SegmentBounds(cfg, w, s, x);
    }
  }

  // ---------------------------------------------------------------------------
  // Progress
  // ---------------------------------------------------------------------------

  /** With as many successful transmissions as there are segments, the loop stops only where it has to. */
  lemma {:induction false} LoopSendsAll(cfg: Config, s: Snd, wnd: int, budget: nat)
    requires budget >= |s.unsent|
    ensures var (t, done) := SendLoop(cfg, s, wnd, budget);
      done && (t.unsent == [] || !FitsWindow(t, t.unsent[0], wnd) || !MaySend(cfg, t))
    decreases |s.unsent|
  {
    if s.unsent != [] && FitsWindow(s, s.unsent[0], wnd) && MaySend(cfg, s) {
      LoopSendsAll(cfg, Sent(s), wnd, budget - 1);
    }
  }

  /** tcp_output leaves nothing behind that the window and the Nagle rule would let go. */
  lemma OutputSendsAll(cfg: Config, s: Snd, o: Out)
    requires !o.hold && !o.persist && o.budget >= |s.unsent|
    ensures var t := Output(cfg, s, o);
      t.unsent == [] || !FitsWindow(t, t.unsent[0], o.wnd) || !MaySend(cfg, t.(memErr := s.memErr))
  {
    LoopSendsAll(cfg, s, o.wnd, o.budget);
    LoopFlag(cfg, s, o.wnd, o.budget);
  }

  /** A segment could go but is still there. */
  predicate CouldGo(cfg: Config, t: Snd, wnd: int) {
    t.unsent != [] && FitsWindow(t, t.unsent[0], wnd) && MaySend(cfg, t)
  }

  lemma {:induction false} LoopFlag(cfg: Config, s: Snd, wnd: int, budget: nat)
    ensures var (t, done) := SendLoop(cfg, s, wnd, budget);
      (done <==> !CouldGo(cfg, t.(memErr := s.memErr), wnd)) && t.memErr == (s.memErr || !done)
    decreases |s.unsent|
  {
    if CouldGo(cfg, s, wnd) && budget > 0 { LoopFlag(cfg, Sent(s), wnd, budget - 1); }
  }

  /** TF_NAGLEMEMERR is set by tcp_output if and only if a transmission failed: a segment that could go is left. */
  lemma FailureIff(cfg: Config, s: Snd, o: Out)
    requires !o.hold
    ensures var t := Output(cfg, s, o);
      t.memErr <==> !o.persist && CouldGo(cfg, t.(memErr := s.memErr), o.wnd)
  {
    LoopFlag(cfg, s, o.wnd, o.budget);
  }

  /** Every segment of `q` ends after `ack`. */
  predicate AllAfter(q: seq<Seg>, ack: int) {
    q != [] ==> q[0].End() > ack && AllAfter(q[1..], ack)
  }

  /** A segment behind one that is not acknowledged is not acknowledged either. */
  lemma LaterEndsLater(w: seq<Byte>, m: int, x: Seg, y: Seg, ack: int)
    requires SegOk(w, m, x) && SegOk(w, m, y) && x.pos <= y.pos && !(x.fin && y.fin)
    requires !x.Has(y.pos) && x.End() > ack
    ensures y.End() > ack
  {
  }

  lemma {:induction false} SortedAfter(w: seq<Byte>, m: int, x: Seg, q: seq<Seg>, ack: int)
    requires SegOk(w, m, x) && x.End() > ack && AllOk(w, m, q) && Sorted([x] + q) && Apart(x, q)
    ensures AllAfter(q, ack)
  {
    if q != [] {
      LaterEndsLater(w, m, x, q[0], ack);
      assert ([x] + q)[1..] == q;
      SortedSkip(x, q);
      SortedAfter(w, m, x, q[1..], ack);
    }
  }

  lemma SortedSkip(x: Seg, q: seq<Seg>)
    requires q != [] && Sorted([x] + q)
    ensures Sorted([x] + q[1..]) && x.pos <= q[0].pos
  {
    assert ([x] + q)[1..] == q && ([x] + q[1..])[1..] == q[1..];
  }

  /** No segment of `q` starts inside `x`, and there is no second FIN. */
  predicate Apart(x: Seg, q: seq<Seg>) {
    q != [] ==> !x.Has(q[0].pos) && !(x.fin && q[0].fin) && Apart(x, q[1..])
  }

  lemma {:induction false} HeldApart(w: seq<Byte>, m: int, x: Seg, q: seq<Seg>)
    requires AllOk(w, m, q) && SegOk(w, m, x) && (x.fin ==> FinCnt(q) == 0)
    requires forall p :: x.Has(p) ==> Cnt(q, p) == 0
    ensures Apart(x, q)
  {
    if q != [] {
      if x.Has(q[0].pos) { assert q[0].data != [] && q[0].Has(q[0].pos); }
      HeldApart(w, m, x, q[1..]);
    }
  }

  /** A new acknowledgement releases every segment it covers, and ends a fast retransmit. */
  lemma AckReleases(cfg: Config, w: seq<Byte>, s: Snd, ack: int, wndMax: int, third: bool)
    requires SndOk(cfg, w, s) && 0 <= wndMax && s.una < ack <= s.nxt
    ensures var t := Ack(s, ack, wndMax, third);
      t.una == ack && !t.inFr && AllAfter(t.unacked, ack) && (t.unsent != [] ==> t.unsent[0].End() > ack)
  {
    var s0 := s.(wndMax := wndMax);
    WindowKeeps(cfg, w, s, wndMax);
    AckUnackedKeeps(cfg, w, s0, ack, third);
    var s1 := AckUnacked(s0, ack, third);
    DropFacts(w, cfg.sndBuf, s0.unacked, ack, 0);
    DropFacts(w, cfg.sndBuf, s1.unsent, ack, 0);
    UnackedAfter(cfg, w, s1, ack);
  }

  lemma UnackedAfter(cfg: Config, w: seq<Byte>, s: Snd, ack: int)
    requires SndOk(cfg, w, s) && (s.unacked != [] ==> s.unacked[0].End() > ack)
    ensures AllAfter(s.unacked, ack)
  {
    if s.unacked != [] {
      var x, q := s.unacked[0], s.unacked[1..];
      assert s.unacked == [x] + q;
      forall p | x.Has(p) ensures Cnt(q, p) == 0 { assert Cnt(s.unsent, p) >= 0; }
      HeldApart(w, cfg.sndBuf, x, q);
      SortedAfter(w, cfg.sndBuf, x, q, ack);
    }
  }

  // ---------------------------------------------------------------------------
  // Where the code does not keep its promise
  // ---------------------------------------------------------------------------

  const EXAMPLE: Config := Config(1000, 8, 0, 1)

  function One(pos: int, a: Byte): Seg {
    Seg(pos, [a], false, 1, false)
  }

  /** A sender with segment size 10 and TF_NODELAY after `n` one-byte writes. */
  function Example(n: int, nxt: int, unacked: seq<Seg>, unsent: seq<Seg>, wire: seq<Packet>): Snd {
    Snd(0, nxt, n, 1000 - n, n, unacked, unsent, 0, 100, 10, NoFin, false, false, true, wire)
  }

  /** Two bytes in flight in segments of their own; the first was retransmitted but could not be sent. */
  function StuckRetransmit(a: Byte, b: Byte): Snd {
    Example(2, 2, [One(1, b)], [One(0, a)], [Packet(0, [a], false), Packet(1, [b], false)]).(inFr := true)
  }

  lemma BuildOne(s: Snd, pos: int, a: Byte, qlen: int)
    requires s.noDelay && 0 <= qlen < 8
    ensures Build(EXAMPLE, s, 10, Req([a], true, false, false, 9), pos, [a], true, 0, qlen, 9) ==
            Built([One(pos, a)], 0, qlen + 1)
  {
    var r := Req([a], true, false, false, 9);
    assert [a][..1] == [a] && [a][1..] == [];
    assert Build(EXAMPLE, s, 10, r, pos + 1, [], false, 0, qlen + 1, 7) == Built([], 0, qlen + 1);
  }

  /** The state is reached by two writes with output, three duplicate ACKs, and an output that fails. */
  lemma StuckRetransmitReached(a: Byte, b: Byte)
    ensures var x, y := One(0, a), One(1, b);
      var sent := Out(100, false, false, 1);
      && Start(EXAMPLE, 10, 100, true).s == Example(0, 0, [], [], [])
      && Write(EXAMPLE, Example(0, 0, [], [], []), Req([a], true, false, false, 9)) == (Example(1, 0, [], [x], []), ErrOk)
      && Output(EXAMPLE, Example(1, 0, [], [x], []), sent) == Example(1, 1, [x], [], [OnWire(x)])
      && Write(EXAMPLE, Example(1, 1, [x], [], [OnWire(x)]), Req([b], true, false, false, 9)) == (Example(2, 1, [x], [y], [OnWire(x)]), ErrOk)
      && Output(EXAMPLE, Example(2, 1, [x], [y], [OnWire(x)]), sent) == Example(2, 2, [x, y], [], [OnWire(x), OnWire(y)])
      && Ack(Example(2, 2, [x, y], [], [OnWire(x), OnWire(y)]), 0, 100, true) == StuckRetransmit(a, b)
      && Output(EXAMPLE, StuckRetransmit(a, b), Out(100, false, false, 0)) == StuckRetransmit(a, b).(memErr := true)
  {
    var x, y := One(0, a), One(1, b);
    BuildOne(Example(0, 0, [], [], []), 0, a, 0);
    BuildOne(Example(1, 1, [x], [], [OnWire(x)]), 1, b, 1);
    assert [x][1..] == [] && [y][1..] == [] && [x, y][1..] == [y];
    assert Sent(Example(1, 0, [], [x], [])) == Example(1, 1, [x], [], [OnWire(x)]);
    assert SendLoop(EXAMPLE, Example(1, 1, [x], [], [OnWire(x)]), 100, 0) == (Example(1, 1, [x], [], [OnWire(x)]), true);
    assert Insert([x], y) == [x] + Insert([], y) == [x, y];
    assert Sent(Example(2, 1, [x], [y], [OnWire(x)])) == Example(2, 2, [x, y], [], [OnWire(x), OnWire(y)]);
    assert SendLoop(EXAMPLE, Example(2, 2, [x, y], [], [OnWire(x), OnWire(y)]), 100, 0) == (Example(2, 2, [x, y], [], [OnWire(x), OnWire(y)]), true);
  }

  /**
    A byte written in that state is appended to the retransmitted segment: it takes
    sequence number 1, which the second byte already has, and no segment holds
    sequence number 2.
   */
  lemma RetransmitThenWrite(a: Byte, b: Byte, c: Byte)
    ensures var s := StuckRetransmit(a, b);
      var (s', e) := Write(EXAMPLE, s, Req([c], true, false, false, 9));
      && SndOk(EXAMPLE, [a, b], s) && e == ErrOk
      && s'.unsent == [Seg(0, [a, c], false, 2, false)] && s'.unacked == [Seg(1, [b], false, 1, false)]
      && !SndOk(EXAMPLE, [a, b, c], s')
  {
    var s := StuckRetransmit(a, b);
    StuckOk(a, b);
    var r := Req([c], true, false, false, 9);
    assert [c][..1] == [c] && [c][1..] == [];
    assert [a] + [c] == [a, c];
    WriteTheorem(EXAMPLE, [a, b], s, r);
    assert [a, b] + [c] == [a, b, c];
  }

  lemma StuckOk(a: Byte, b: Byte)
    ensures SndOk(EXAMPLE, [a, b], StuckRetransmit(a, b))
  {
    var s := StuckRetransmit(a, b);
    forall p ensures Cnt(s.unacked, p) == (if p == 1 then 1 else 0) && Cnt(s.unsent, p) == if p == 0 then 1 else 0 {}
    assert [a, b][0..1] == [a] && [a, b][1..2] == [b];
  }

  /**
    tcp_send_fin fails only without memory for a segment of its own, and puts the FIN
    behind all written bytes exactly when `unsent` is empty or its last segment ends at
    snd_lbb.
   */
  lemma FinPlaceIff(cfg: Config, w: seq<Byte>, s: Snd, budget: nat)
    requires SndOk(cfg, w, s) && s.fin.NoFin?
    ensures SendFin(s, budget).1.ErrOk? <==> s.unsent != [] || budget >= 2
    ensures var (s', e) := SendFin(s, budget);
      e.ErrOk? ==>
        var f := s'.unsent[|s'.unsent|-1];
        && s'.unsent != [] && f.fin
        && (f.End() - 1 == |w| <==> s.unsent == [] || s.unsent[|s.unsent|-1].DataEnd() == |w|)
  {
    if s.unsent != [] { NoFins(s.unsent); }
  }
}
