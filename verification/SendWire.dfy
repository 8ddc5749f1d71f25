/**
  What the sender transmits: which segments a call hands to IP, and that in every run
  each packet carries the bytes that were written, at their positions.
 */
module SendWire {

  import opened SendSpec
  import opened Sender

  /** The packets of some segments, in order. */
  function Wires(q: seq<Seg>): seq<Packet> {
    if q == [] then [] else Wires(q[..|q|-1]) + [OnWire(q[|q|-1])]
  }

  /** The first `k` unsent segments of `s` were transmitted, in order, and are now unacknowledged. */
  predicate Sends(s: Snd, t: Snd, k: nat) {
    Shifts(s, t, k) && multiset(t.unacked) == multiset(s.unacked) + multiset(s.unsent[..k])
  }

  predicate Shifts(s: Snd, t: Snd, k: nat) {
    && k <= |s.unsent| && t.unsent == s.unsent[k..] && t.wire == s.wire + Wires(s.unsent[..k])
    && t.una == s.una && t.nxt == Top(s.nxt, s.unsent[..k])
  }

  /** Where the numbers of `q` end, if that is after `n`. */
  function Top(n: int, q: seq<Seg>): int {
    if q == [] then n
    else
      var m := Top(n, q[..|q|-1]);
      if m < q[|q|-1].End() then q[|q|-1].End() else m
  }

  /** Each of `q` ends inside the window. */
  predicate AllFit(s: Snd, q: seq<Seg>, wnd: int) {
    forall x :: x in q ==> FitsWindow(s, x, wnd)
  }

  lemma {:induction false} InsertMultiset(q: seq<Seg>, x: Seg)
    ensures multiset(Insert(q, x)) == multiset(q) + multiset{x}
  {
    if q != [] && q[0].pos < x.pos {
      InsertMultiset(q[1..], x);
      assert q == [q[0]] + q[1..];
    }
  }

  /** One segment more. */
  lemma SentMore(s: Snd, t: Snd, k: nat)
    requires Shifts(s, t, k) && t.unsent != []
    ensures Shifts(s, Sent(t), k + 1)
  {
    assert s.unsent[..k+1] == s.unsent[..k] + [t.unsent[0]];
    WireMore(s.wire, s.nxt, s.unsent[..k], t.unsent[0]);
  }

  lemma WireMore(wire: seq<Packet>, n: int, q: seq<Seg>, x: Seg)
    ensures wire + Wires(q + [x]) == wire + Wires(q) + [OnWire(x)]
    ensures Top(n, q + [x]) == if Top(n, q) < x.End() then x.End() else Top(n, q)
  {
    assert (q + [x])[..|q|] == q;
  }

  /** No segment of `q` is empty. */
  predicate Solid(q: seq<Seg>) {
    q != [] ==> q[0].Len() > 0 && Solid(q[1..])
  }

  lemma {:induction false} OkSolid(w: seq<Byte>, m: int, q: seq<Seg>)
    requires AllOk(w, m, q)
    ensures Solid(q)
  {
    if q != [] { OkSolid(w, m, q[1..]); }
  }

  /** All that is queued. */
  function Queued(s: Snd): multiset<Seg> {
    multiset(s.unacked) + multiset(s.unsent)
  }

  lemma SentConserves(t: Snd)
    requires t.unsent != [] && t.unsent[0].Len() > 0
    ensures Queued(Sent(t)) == Queued(t)
  {
    InsertMultiset(t.unacked, t.unsent[0]);
    assert t.unsent == [t.unsent[0]] + t.unsent[1..];
  }

  /** The loop of tcp_output loses no segment and doubles none. */
  lemma {:induction false} LoopConserves(cfg: Config, t: Snd, wnd: int, budget: nat, all: multiset<Seg>)
    requires Solid(t.unsent) && Queued(t) == all
    ensures Queued(SendLoop(cfg, t, wnd, budget).0) == all
    decreases |t.unsent|
  {
    if t.unsent != [] && FitsWindow(t, t.unsent[0], wnd) && MaySend(cfg, t) && budget > 0 {
      SentConserves(t);
      LoopConserves(cfg, Sent(t), wnd, budget - 1, all);
    }
  }

  /** The loop of tcp_output has sent `k` segments of `s` when it is in state `t`. */
  predicate Under(s: Snd, t: Snd, k: nat, wnd: int) {
    Shifts(s, t, k) && AllFit(s, s.unsent[..k], wnd)
  }

  lemma LoopStep(s: Snd, t: Snd, k: nat, wnd: int)
    requires Under(s, t, k, wnd) && t.unsent != [] && FitsWindow(t, t.unsent[0], wnd)
    ensures Under(s, Sent(t), k + 1, wnd)
  {
    SentMore(s, t, k);
    assert s.unsent[..k+1] == s.unsent[..k] + [t.unsent[0]];
  }

  lemma {:induction false} LoopSends(cfg: Config, s: Snd, t: Snd, k: nat, wnd: int, budget: nat) returns (n: nat)
    requires Under(s, t, k, wnd)
    ensures k <= n <= k + budget && Under(s, SendLoop(cfg, t, wnd, budget).0, n, wnd)
    ensures t.unsent != [] && FitsWindow(t, t.unsent[0], wnd) && MaySend(cfg, t) && budget > 0 ==> n > k
    decreases |t.unsent|
  {
    n := k;
    if t.unsent != [] && FitsWindow(t, t.unsent[0], wnd) && MaySend(cfg, t) && budget > 0 {
      LoopStep(s, t, k, wnd);
      n := LoopSends(cfg, s, Sent(t), k + 1, wnd, budget - 1);
    }
  }

  /**
    tcp_output transmits a prefix of `unsent`, in order and inside the window, and moves
    exactly that to `unacked`; the head at least, unless something holds it back.
   */
  lemma OutputSends(cfg: Config, w: seq<Byte>, s: Snd, o: Out) returns (n: nat)
    requires Core(cfg, w, s)
    ensures n <= o.budget && Sends(s, Output(cfg, s, o), n) && AllFit(s, s.unsent[..n], o.wnd)
    ensures !o.hold && !o.persist && s.unsent != [] && FitsWindow(s, s.unsent[0], o.wnd) && MaySend(cfg, s) && o.budget > 0 ==> n > 0
  {
    NoneSent(s);
    if o.hold || o.persist {
      n := 0;
      SendsFlags(s, s, 0, Output(cfg, s, o));
    } else {
      OkSolid(w, cfg.sndBuf, s.unsent);
      n := LoopSends(cfg, s, s, 0, o.wnd, o.budget);
      LoopConserves(cfg, s, o.wnd, o.budget, Queued(s));
      var u := SendLoop(cfg, s, o.wnd, o.budget).0;
      ShiftedSends(s, u, n);
      SendsFlags(s, u, n, Output(cfg, s, o));
    }
  }

  lemma NoneSent(s: Snd)
    ensures Sends(s, s, 0)
  {
    assert s.unsent[..0] == [] && s.unsent[0..] == s.unsent && s.wire + [] == s.wire;
  }

  lemma ShiftedSends(s: Snd, u: Snd, n: nat)
    requires Shifts(s, u, n) && Queued(u) == Queued(s)
    ensures Sends(s, u, n)
  {
    assert s.unsent == s.unsent[..n] + s.unsent[n..];
    Cancel(multiset(u.unacked), multiset(s.unacked) + multiset(s.unsent[..n]), multiset(u.unsent));
  }

  lemma Cancel(a: multiset<Seg>, b: multiset<Seg>, c: multiset<Seg>)
    requires a + c == b + c
    ensures a == b
  {
    forall x ensures a[x] == b[x] { assert (a + c)[x] == (b + c)[x]; }
  }

  /** Flags and oversize do not matter. */
  lemma SendsFlags(s: Snd, u: Snd, n: nat, t: Snd)
    requires Sends(s, u, n) && t == u.(memErr := t.memErr, oversize := t.oversize)
    ensures Sends(s, t, n)
  {
  }

  /**
    After a retransmission timeout every segment that was unacknowledged is transmitted
    again by this call or waits at the head of `unsent` in its old order; `unacked` holds
    only what this call transmitted; and the first of them is transmitted whenever
    nothing holds output back, it fits the window and a transmission succeeds.
   */
  lemma RtoSends(cfg: Config, w: seq<Byte>, s: Snd, o: Out) returns (n: nat)
    requires SndOk(cfg, w, s) && s.unacked != []
    ensures var t, q := Rto(cfg, s, o), s.unacked + s.unsent;
      && n <= |q| && n <= o.budget && t.unsent == q[n..] && t.wire == s.wire + Wires(q[..n])
      && multiset(t.unacked) == multiset(q[..n])
    ensures !o.hold && !o.persist && FitsWindow(s, s.unacked[0], o.wnd) && o.budget > 0 ==> n > 0
  {
    var s1 := s.(unsent := s.unacked + s.unsent, unacked := []);
    assert SndOk(cfg, w, s1) by { RtoKeeps(cfg, w, s, Out(0, true, false, 0)); }
    n := OutputSends(cfg, w, s1, o);
    assert s1.unsent[0] == s.unacked[0];
  }

  /** A fast retransmit moves the first unacknowledged segment, and nothing else, back to `unsent`. */
  lemma RexmitMoves(s: Snd)
    requires s.unacked != []
    ensures var t, x := Rexmit(s), s.unacked[0];
      && t.unacked == s.unacked[1..] && multiset(t.unsent) == multiset(s.unsent) + multiset{x}
      && (s.unsent == [] || x.pos <= s.unsent[0].pos ==> t.unsent == [x] + s.unsent)
  {
    InsertMultiset(s.unsent, s.unacked[0]);
  }

  /** The third duplicate ACK makes the next tcp_output transmit the first unacknowledged segment before anything newer. */
  lemma FastRetransmitSends(cfg: Config, w: seq<Byte>, s: Snd, wndMax: int, o: Out)
    requires SndOk(cfg, w, s) && s.unacked != [] && !s.inFr && 0 <= wndMax
    requires s.unacked[0].End() > s.una && (s.unsent == [] || s.unacked[0].pos <= s.unsent[0].pos)
    requires !o.hold && !o.persist && o.budget > 0 && FitsWindow(s, s.unacked[0], o.wnd)
    ensures var t := Output(cfg, Ack(s, s.una, wndMax, true), o);
      |t.wire| > |s.wire| && s.wire <= t.wire && t.wire[|s.wire|] == OnWire(s.unacked[0])
  {
    var s1 := Ack(s, s.una, wndMax, true);
    AckKeeps(cfg, w, s, s.una, wndMax, true);
    RexmitMoves(s.(wndMax := wndMax));
    assert s1.unsent == [s.unacked[0]] + s.unsent && s1.inFr && s1.wire == s.wire;
    var n := OutputSends(cfg, w, s1, o);
    WiresFirst(s1.unsent[..n]);
  }

  /** Data in flight, one short segment waiting, room for more of it, and no reason to hurry. */
  predicate Nagle(cfg: Config, s: Snd) {
    && s.unacked != [] && |s.unsent| == 1 && |s.unsent[0].data| < s.mss
    && s.buf != 0 && s.qlen < cfg.sndQueue
    && !s.noDelay && !s.inFr && !s.memErr && s.fin.NoFin?
  }

  /** Where the window lets the head go and a transmission succeeds, tcp_output sends it if and only if Nagle's rule does not say to wait. */
  lemma NagleIff(cfg: Config, w: seq<Byte>, s: Snd, o: Out)
    requires Core(cfg, w, s) && !o.hold && !o.persist && o.budget > 0
    requires s.unsent != [] && FitsWindow(s, s.unsent[0], o.wnd)
    ensures Output(cfg, s, o).wire != s.wire <==> !Nagle(cfg, s)
  {
    var n := OutputSends(cfg, w, s, o);
    if !Nagle(cfg, s) { WiresFirst(s.unsent[..n]); }
  }

  /** A zero window probe transmits exactly one position: the first byte of the first queued segment, or its FIN. */
  lemma ProbeSends(cfg: Config, w: seq<Byte>, s: Snd)
    requires SndOk(cfg, w, s) && s.unacked + s.unsent != []
    ensures var t, x := Probe(s, true), (s.unacked + s.unsent)[0];
      && |t.wire| == |s.wire| + 1 && s.wire <= t.wire
      && var k := t.wire[|s.wire|];
      && k.pos == x.pos && k.End() == x.pos + 1 && PacketOk(w, t.nxt, t.fin, k)
      && t == s.(nxt := t.nxt, wire := t.wire) && (t.nxt == s.nxt || t.nxt == k.End())
  {
    var x := (s.unacked + s.unsent)[0];
    assert x in s.unacked || x in s.unsent;
    ProbeIsOk(cfg, w, s, x);
  }

  lemma {:induction false} WiresFirst(q: seq<Seg>)
    ensures |Wires(q)| == |q| && (q != [] ==> Wires(q)[0] == OnWire(q[0]))
  {
    if q != [] { WiresFirst(q[..|q|-1]); }
  }

  // ---------------------------------------------------------------------------
  // Runs
  // ---------------------------------------------------------------------------

  /** The packet holds bytes of `w` at their positions, and ends at or before `nxt`. */
  predicate PacketOk(w: seq<Byte>, nxt: int, fin: Fin, k: Packet) {
    && 0 <= k.pos && k.pos + |k.data| <= |w| && k.data == w[k.pos..k.pos + |k.data|]
    && k.End() <= nxt && (k.fin ==> !fin.NoFin?)
  }

  predicate WireOk(w: seq<Byte>, s: Snd) {
    && (forall k :: k in s.wire ==> PacketOk(w, s.nxt, s.fin, k))
    && (forall x :: x in s.unacked ==> OnWire(x) in s.wire)
  }

  lemma {:induction false} WiresAre(q: seq<Seg>, k: Packet)
    ensures k in Wires(q) <==> exists x :: x in q && OnWire(x) == k
  {
    if q != [] {
      var a, y := q[..|q|-1], q[|q|-1];
      WiresAre(a, k);
      assert q == a + [y];
    }
  }

  lemma {:induction false} TopCovers(n: int, q: seq<Seg>)
    ensures n <= Top(n, q) && forall x :: x in q ==> x.End() <= Top(n, q)
  {
    if q != [] {
      TopCovers(n, q[..|q|-1]);
      assert q == q[..|q|-1] + [q[|q|-1]];
    }
  }

  /** Sending segments of the invariant keeps the record right. */
  lemma SendsOk(cfg: Config, w: seq<Byte>, s: Snd, t: Snd, k: nat)
    requires Core(cfg, w, s) && WireOk(w, s) && Sends(s, t, k) && t.fin == s.fin
    ensures WireOk(w, t)
  {
    var q := s.unsent[..k];
    TopCovers(s.nxt, q);
    forall p | p in t.wire ensures PacketOk(w, t.nxt, t.fin, p) {
      if p !in s.wire {
        WiresAre(q, p);
        var x :| x in q && OnWire(x) == p;
        assert x in s.unsent;
        AllOkMember(w, cfg.sndBuf, s.unsent, x);
      }
    }
    forall x | x in t.unacked ensures OnWire(x) in t.wire {
      assert x in multiset(t.unacked);
      assert x in s.unacked || x in q;
      WiresAre(q, OnWire(x));
    }
  }

  lemma {:induction false} LoopKeepsFin(cfg: Config, s: Snd, wnd: int, budget: nat)
    ensures SendLoop(cfg, s, wnd, budget).0.fin == s.fin
    decreases |s.unsent|
  {
    if s.unsent != [] && FitsWindow(s, s.unsent[0], wnd) && MaySend(cfg, s) && budget > 0 {
      LoopKeepsFin(cfg, Sent(s), wnd, budget - 1);
    }
  }

  lemma OutputWire(cfg: Config, w: seq<Byte>, s: Snd, o: Out)
    requires SndOk(cfg, w, s) && WireOk(w, s)
    ensures WireOk(w, Output(cfg, s, o)) && s.wire <= Output(cfg, s, o).wire
  {
    var n := OutputSends(cfg, w, s, o);
    LoopKeepsFin(cfg, s, o.wnd, o.budget);
    SendsOk(cfg, w, s, Output(cfg, s, o), n);
  }

  lemma RtoWire(cfg: Config, w: seq<Byte>, s: Snd, o: Out)
    requires SndOk(cfg, w, s) && WireOk(w, s)
    ensures WireOk(w, Rto(cfg, s, o)) && s.wire <= Rto(cfg, s, o).wire
  {
    if s.unacked != [] {
      var s1 := s.(unsent := s.unacked + s.unsent, unacked := []);
      assert SndOk(cfg, w, s1) by { RtoKeeps(cfg, w, s, Out(0, true, false, 0)); }
      OutputWire(cfg, w, s1, o);
    }
  }

  lemma WriteWire(cfg: Config, w: seq<Byte>, s: Snd, r: Req)
    requires cfg.Valid() && MssLocal(s) > 0 && WireOk(w, s)
    ensures var t := Write(cfg, s, r).0; t.wire == s.wire && WireOk(w, t) && WireOk(w + r.data, t)
  {
    var t := Write(cfg, s, r).0;
    assert t.wire == s.wire && t.unacked == s.unacked && t.nxt == s.nxt && t.fin == s.fin;
    forall k | k in s.wire ensures PacketOk(w + r.data, s.nxt, s.fin, k) {
      assert (w + r.data)[k.pos..k.pos + |k.data|] == w[k.pos..k.pos + |k.data|];
    }
  }

  lemma FinWire(w: seq<Byte>, s: Snd, budget: nat)
    requires WireOk(w, s)
    ensures var t := SendFin(s, budget).0; t.wire == s.wire && WireOk(w, t)
  {
  }

  /** Acknowledged segments leave `unacked`, and no others come. */
  lemma {:induction false} DropMember(q: seq<Seg>, ack: int, x: Seg)
    ensures x in DropAcked(q, ack) ==> x in q
  {
    if q != [] && q[0].End() <= ack { DropMember(q[1..], ack, x); }
  }

  lemma AckWire(w: seq<Byte>, s: Snd, ack: int, wndMax: int, third: bool)
    requires WireOk(w, s)
    ensures var t := Ack(s, ack, wndMax, third); WireOk(w, t) && t.wire == s.wire
  {
    var t := Ack(s, ack, wndMax, third);
    assert t.wire == s.wire && t.nxt == s.nxt && t.fin == s.fin;
    forall x | x in t.unacked ensures x in s.unacked {
      DropMember(s.unacked, ack, x);
    }
  }

  lemma ProbeWire(cfg: Config, w: seq<Byte>, s: Snd, sent: bool)
    requires SndOk(cfg, w, s) && WireOk(w, s)
    ensures WireOk(w, Probe(s, sent)) && s.wire <= Probe(s, sent).wire
  {
    var q := s.unacked + s.unsent;
    if q != [] {
      assert q[0] in s.unacked || q[0] in s.unsent;
      ProbeIsOk(cfg, w, s, q[0]);
      var nxt := if s.nxt < q[0].pos + 1 then q[0].pos + 1 else s.nxt;
      MoreWire(w, s, nxt, if sent then [ProbeOf(q[0])] else []);
    }
  }

  /** Packets that are right may be added, and snd_nxt may grow. */
  lemma MoreWire(w: seq<Byte>, s: Snd, nxt: int, more: seq<Packet>)
    requires WireOk(w, s) && s.nxt <= nxt && forall k :: k in more ==> PacketOk(w, nxt, s.fin, k)
    ensures WireOk(w, s.(nxt := nxt, wire := s.wire + more))
  {
  }

  lemma ProbeIsOk(cfg: Config, w: seq<Byte>, s: Snd, x: Seg)
    requires SndOk(cfg, w, s) && (x in s.unacked || x in s.unsent)
    ensures forall n :: x.pos + 1 <= n ==> PacketOk(w, n, s.fin, ProbeOf(x))
  {
    if x in s.unacked { AllOkMember(w, cfg.sndBuf, s.unacked, x); } else { AllOkMember(w, cfg.sndBuf, s.unsent, x); }
    if x.data != [] { assert x.data[..1] == w[x.pos..x.pos + 1]; }
  }

  lemma StepWire(cfg: Config, c: Conn, e: Event)
    requires cfg.Valid() && SndOk(cfg, c.written, c.s) && WireOk(c.written, c.s)
    ensures var c' := Step(cfg, c, e); WireOk(c'.written, c'.s) && c.s.wire <= c'.s.wire
  {
    match e
    case DoWrite(r) => WriteWire(cfg, c.written, c.s, r);
    case DoFin(budget) => FinWire(c.written, c.s, budget);
    case DoOutput(o) => OutputWire(cfg, c.written, c.s, o);
    case DoAck(ack, wndMax, third) => AckWire(c.written, c.s, ack, wndMax, third);
    case DoRto(o) => RtoWire(cfg, c.written, c.s, o);
    case DoProbe(sent) => ProbeWire(cfg, c.written, c.s, sent);
  }

  /**
    In every state of every run that starts with nothing queued: every packet that was
    ever transmitted, first time or again, carries the written bytes at their positions
    and lies below snd_nxt; no FIN was transmitted before it was queued; and what is on
    `unacked` was transmitted as it is.
   */
  lemma {:induction false} WireTheorem(cfg: Config, evs: seq<Event>, cs: seq<Conn>, i: nat)
    requires cfg.Valid() && IsRun(cfg, evs, cs) && i <= |evs|
    requires cs[0].s.unacked == [] && cs[0].s.wire == []
    ensures WireOk(cs[i].written, cs[i].s)
  {
    if i > 0 {
      WireTheorem(cfg, evs, cs, i - 1);
      RunKeeps(cfg, evs, cs, i - 1);
      StepWire(cfg, cs[i-1], evs[i-1]);
      assert cs[i] == Step(cfg, cs[i-1], evs[i-1]);
    }
  }
}
