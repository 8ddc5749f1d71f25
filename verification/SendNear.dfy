/**
  All sequence numbers the sender ever compares lie close together, in every run
  and whatever the peer acknowledges: so the 32-bit comparisons of tcp_out.c and
  tcp_in.c decide the order of the positions. Nothing is assumed for this but the
  16-bit size of the send buffer.
 */
module SendNear {

  import opened SendSpec
  import opened Sender

  const FAR: int := 0x4_0000

  /** Every segment starts at or above `x`. */
  predicate AllAbove(q: seq<Seg>, x: int) {
    q != [] ==> q[0].pos >= x && AllAbove(q[1..], x)
  }

  /** No segment ends far above the start of one that stands behind it. */
  predicate Lag(q: seq<Seg>) {
    q != [] ==> AllAbove(q[1..], q[0].End() - FAR) && Lag(q[1..])
  }

  predicate Cross(a: seq<Seg>, b: seq<Seg>) {
    a != [] ==> AllAbove(b, a[0].End() - FAR) && Cross(a[1..], b)
  }

  /** A retransmitted segment may sit in `unsent` long after it was acknowledged, but never far below lastack. */
  predicate Close(s: Snd) {
    && Lag(s.unacked + s.unsent)
    && AllAbove(s.unacked, s.una - 0x1_0001) && AllAbove(s.unsent, s.una - FAR)
  }

  // ---------------------------------------------------------------------------
  // Covering a range of bytes takes that many bytes
  // ---------------------------------------------------------------------------

  function Overlap(x: Seg, lo: int, hi: int): int {
    var a := if x.pos < lo then lo else x.pos;
    var b := if x.DataEnd() < hi then x.DataEnd() else hi;
    if a < b then b - a else 0
  }

  function OverlapSum(q: seq<Seg>, lo: int, hi: int): int {
    if q == [] then 0 else Overlap(q[0], lo, hi) + OverlapSum(q[1..], lo, hi)
  }

  lemma {:induction false} OverlapAtMost(q: seq<Seg>, lo: int, hi: int)
    ensures OverlapSum(q, lo, hi) <= SumLen(q)
  {
    if q != [] { OverlapAtMost(q[1..], lo, hi); }
  }

  lemma {:induction false} OverlapStep(q: seq<Seg>, lo: int, hi: int)
    requires lo <= hi
    ensures OverlapSum(q, lo, hi + 1) == OverlapSum(q, lo, hi) + Cnt(q, hi)
  {
    if q != [] { OverlapStep(q[1..], lo, hi); }
  }

  lemma {:induction false} Coverage(q: seq<Seg>, lo: int, hi: int)
    requires lo <= hi && forall p :: lo <= p < hi ==> Cnt(q, p) >= 1
    ensures hi - lo <= OverlapSum(q, lo, hi)
    decreases hi - lo
  {
    if lo < hi {
      Coverage(q, lo, hi - 1);
      OverlapStep(q, lo, hi - 1);
    } else {
      OverlapNone(q, lo);
    }
  }

  lemma {:induction false} OverlapNone(q: seq<Seg>, lo: int)
    ensures OverlapSum(q, lo, lo) == 0
  {
    if q != [] { OverlapNone(q[1..], lo); }
  }

  /** The bytes in flight or waiting fit the send buffer. */
  lemma InFlight(cfg: Config, w: seq<Byte>, s: Snd)
    requires cfg.Valid() && SndOk(cfg, w, s)
    ensures |w| - s.una <= cfg.sndBuf
  {
    var q := s.unacked + s.unsent;
    if s.una < |w| {
      forall p | s.una <= p < |w| ensures Cnt(q, p) >= 1 { CntSplit(s.unacked, s.unsent, p); }
      Coverage(q, s.una, |w|);
      OverlapAtMost(q, s.una, |w|);
      Split(s.unacked, s.unsent);
    }
  }

  // ---------------------------------------------------------------------------
  // Lists
  // ---------------------------------------------------------------------------

  lemma AboveWeaken(q: seq<Seg>, x: int, y: int)
    requires AllAbove(q, x) && y <= x
    ensures AllAbove(q, y)
  {
  }

  lemma {:induction false} AboveSplit(a: seq<Seg>, b: seq<Seg>, x: int)
    ensures AllAbove(a + b, x) <==> AllAbove(a, x) && AllAbove(b, x)
  {
    if a == [] { assert a + b == b; } else {
      AboveSplit(a[1..], b, x);
      assert (a + b)[1..] == a[1..] + b;
    }
  }

  lemma {:induction false} BelowSplit(a: seq<Seg>, b: seq<Seg>, e: int)
    ensures AllBelow(a + b, e) <==> AllBelow(a, e) && AllBelow(b, e)
  {
    if a == [] { assert a + b == b; } else {
      BelowSplit(a[1..], b, e);
      assert (a + b)[1..] == a[1..] + b;
    }
  }

  lemma {:induction false} LagSplit(a: seq<Seg>, b: seq<Seg>)
    ensures Lag(a + b) <==> Lag(a) && Lag(b) && Cross(a, b)
  {
    if a == [] { assert a + b == b; } else {
      LagSplit(a[1..], b);
      assert (a + b)[1..] == a[1..] + b;
      AboveSplit(a[1..], b, a[0].End() - FAR);
    }
  }

  /** Segments that all lie in a short range. */
  lemma {:induction false} LagShort(q: seq<Seg>, lo: int, hi: int)
    requires AllAbove(q, lo) && AllBelow(q, hi) && hi - lo <= FAR
    ensures Lag(q)
  {
    if q != [] {
      LagShort(q[1..], lo, hi);
      AboveWeaken(q[1..], lo, q[0].End() - FAR);
    }
  }

  lemma {:induction false} CrossShort(a: seq<Seg>, b: seq<Seg>, lo: int, hi: int)
    requires AllBelow(a, hi) && AllAbove(b, lo) && hi - lo <= FAR
    ensures Cross(a, b)
  {
    if a != [] {
      CrossShort(a[1..], b, lo, hi);
      AboveWeaken(b, lo, a[0].End() - FAR);
    }
  }

  lemma {:induction false} AboveInsert(q: seq<Seg>, x: Seg, lo: int)
    requires AllAbove(q, lo) && x.pos >= lo
    ensures AllAbove(Insert(q, x), lo)
  {
    var r := Insert(q, x);
    if q != [] && q[0].pos < x.pos {
      AboveInsert(q[1..], x, lo);
      assert r[1..] == Insert(q[1..], x);
    } else {
      assert r[1..] == q;
    }
  }

  lemma {:induction false} CrossInsert(q: seq<Seg>, x: Seg, b: seq<Seg>)
    requires Cross(q, b) && AllAbove(b, x.End() - FAR)
    ensures Cross(Insert(q, x), b)
  {
    var r := Insert(q, x);
    if q != [] && q[0].pos < x.pos {
      CrossInsert(q[1..], x, b);
      assert r[1..] == Insert(q[1..], x);
    } else {
      assert r[1..] == q;
    }
  }

  lemma {:induction false} LagInsert(q: seq<Seg>, x: Seg)
    requires Lag(q) && AllAbove(q, x.End() - FAR) && AllBelow(q, x.pos + FAR)
    ensures Lag(Insert(q, x))
  {
    var r := Insert(q, x);
    if q != [] && q[0].pos < x.pos {
      LagInsert(q[1..], x);
      AboveInsert(q[1..], x, q[0].End() - FAR);
      assert r[1..] == Insert(q[1..], x);
    } else {
      assert r[1..] == q;
    }
  }

  lemma {:induction false} CrossInsertRight(a: seq<Seg>, q: seq<Seg>, x: Seg)
    requires Cross(a, q) && AllBelow(a, x.pos + FAR)
    ensures Cross(a, Insert(q, x))
  {
    if a != [] {
      CrossInsertRight(a[1..], q, x);
      AboveInsert(q, x, a[0].End() - FAR);
    }
  }

  lemma {:induction false} DropLag(q: seq<Seg>, ack: int, lo: int)
    ensures Lag(q) ==> Lag(DropAcked(q, ack))
    ensures AllAbove(q, lo) ==> AllAbove(DropAcked(q, ack), lo)
  {
    if q != [] && q[0].End() <= ack { DropLag(q[1..], ack, lo); }
  }

  lemma {:induction false} DropCross(a: seq<Seg>, b: seq<Seg>, ack: int)
    requires Cross(a, b)
    ensures Cross(DropAcked(a, ack), b)
  {
    if a != [] && a[0].End() <= ack { DropCross(a[1..], b, ack); }
  }

  lemma {:induction false} CrossDrop(a: seq<Seg>, b: seq<Seg>, ack: int)
    requires Cross(a, b)
    ensures Cross(a, DropAcked(b, ack))
  {
    if a != [] {
      CrossDrop(a[1..], b, ack);
      DropLag(b, ack, a[0].End() - FAR);
    }
  }

  lemma {:induction false} SortedAbove(q: seq<Seg>, lo: int)
    requires Sorted(q) && (q != [] ==> q[0].pos >= lo)
    ensures AllAbove(q, lo)
  {
    if |q| > 1 { SortedAbove(q[1..], lo); }
  }

  lemma {:induction false} OkBelow(w: seq<Byte>, m: int, q: seq<Seg>)
    requires AllOk(w, m, q)
    ensures AllBelow(q, |w| + 1)
  {
    if q != [] { OkBelow(w, m, q[1..]); }
  }

  // ---------------------------------------------------------------------------
  // Steps
  // ---------------------------------------------------------------------------

  lemma SentClose(cfg: Config, w: seq<Byte>, s: Snd, wnd: int)
    requires cfg.Valid() && Core(cfg, w, s) && |w| - s.una <= cfg.sndBuf && Close(s)
    requires s.unsent != [] && FitsWindow(s, s.unsent[0], wnd)
    ensures Close(Sent(s))
  {
    var x, rest := s.unsent[0], s.unsent[1..];
    var lo, hi := s.una - 0x1_0001, |w| + 1;
    LagSplit(s.unacked, s.unsent);
    OkBelow(w, cfg.sndBuf, s.unacked);
    AboveInsert(s.unacked, x, lo);
    InsertBelow(s.unacked, x, hi);
    LagShort(Insert(s.unacked, x), lo, hi);
    assert Cross(s.unacked, rest) by { CrossTail(s.unacked, s.unsent); }
    CrossInsert(s.unacked, x, rest);
    LagSplit(Insert(s.unacked, x), rest);
  }

  lemma {:induction false} CrossTail(a: seq<Seg>, b: seq<Seg>)
    requires Cross(a, b) && b != []
    ensures Cross(a, b[1..])
  {
    if a != [] { CrossTail(a[1..], b); }
  }

  lemma {:induction false} SendLoopClose(cfg: Config, w: seq<Byte>, s: Snd, wnd: int, budget: nat)
    requires cfg.Valid() && Core(cfg, w, s) && |w| - s.una <= cfg.sndBuf && Close(s)
    ensures Close(SendLoop(cfg, s, wnd, budget).0)
    decreases |s.unsent|
  {
    if s.unsent == [] || !FitsWindow(s, s.unsent[0], wnd) || !MaySend(cfg, s) {
    } else if budget == 0 {
      assert Close(s.(memErr := true));
    } else {
      SentKeeps(cfg, w, s);
      SentClose(cfg, w, s, wnd);
      SendLoopClose(cfg, w, Sent(s), wnd, budget - 1);
    }
  }

  lemma OutputClose(cfg: Config, w: seq<Byte>, s: Snd, o: Out)
    requires cfg.Valid() && SndOk(cfg, w, s) && Close(s)
    ensures Close(Output(cfg, s, o))
  {
    InFlight(cfg, w, s);
    SendLoopClose(cfg, w, s, o.wnd, o.budget);
  }

  /** The head of `unacked` moves to its place in `unsent`. */
  lemma {:induction false} RexmitLag(u: seq<Seg>, q: seq<Seg>, hi: int)
    requires u != [] && Lag(u + q) && AllBelow(u[1..], hi) && AllBelow(q, hi) && hi <= u[0].pos + FAR
    ensures Lag(u[1..] + Insert(q, u[0]))
  {
    var x := u[0];
    LagSplit(u, q);
    AllBelowWeaken(u[1..], hi, x.pos + FAR);
    AllBelowWeaken(q, hi, x.pos + FAR);
    LagInsert(q, x);
    CrossInsertRight(u[1..], q, x);
    LagSplit(u[1..], Insert(q, x));
  }

  lemma RexmitClose(cfg: Config, w: seq<Byte>, s: Snd)
    requires cfg.Valid() && SndOk(cfg, w, s) && Close(s)
    ensures Close(Rexmit(s))
  {
    if s.unacked != [] {
      InFlight(cfg, w, s);
      OkBelow(w, cfg.sndBuf, s.unacked);
      OkBelow(w, cfg.sndBuf, s.unsent);
      RexmitLag(s.unacked, s.unsent, |w| + 1);
      AboveInsert(s.unsent, s.unacked[0], s.una - FAR);
    }
  }

  lemma {:induction false} RequeueAbove(u: seq<Seg>, q: seq<Seg>, una: int)
    requires AllAbove(u, una - 0x1_0001) && AllAbove(q, una - FAR)
    ensures AllAbove(u + q, una - FAR)
  {
    AboveWeaken(u, una - 0x1_0001, una - FAR);
    AboveSplit(u, q, una - FAR);
  }

  lemma {:induction false} RequeueClose(s: Snd)
    requires Close(s)
    ensures Close(s.(unsent := s.unacked + s.unsent, unacked := []))
  {
    var q := s.unacked + s.unsent;
    RequeueAbove(s.unacked, s.unsent, s.una);
    assert [] + q == q;
  }

  lemma RtoClose(cfg: Config, w: seq<Byte>, s: Snd, o: Out)
    requires cfg.Valid() && SndOk(cfg, w, s) && Close(s)
    ensures Close(Rto(cfg, s, o))
  {
    if s.unacked != [] {
      var s1 := s.(unsent := s.unacked + s.unsent, unacked := []);
      assert SndOk(cfg, w, s1) by { RtoKeeps(cfg, w, s, Out(0, true, false, 0)); }
      RequeueClose(s);
      OutputClose(cfg, w, s1, o);
    }
  }

  lemma AckUnackedClose(cfg: Config, w: seq<Byte>, s: Snd, ack: int, third: bool)
    requires cfg.Valid() && SndOk(cfg, w, s) && Close(s)
    ensures ack <= s.una || ack > s.nxt ==> Close(AckUnacked(s, ack, third))
    ensures s.una < ack <= s.nxt ==>
      var s' := AckUnacked(s, ack, third);
      Lag(s'.unacked + s'.unsent) && AllAbove(s'.unacked, ack - 0x1_0001)
  {
    if ack <= s.una {
      RexmitClose(cfg, w, s);
    } else if ack <= s.nxt {
      var q := DropAcked(s.unacked, ack);
      LagSplit(s.unacked, s.unsent);
      DropLag(s.unacked, ack, 0);
      DropCross(s.unacked, s.unsent, ack);
      LagSplit(q, s.unsent);
      DropFacts(w, cfg.sndBuf, s.unacked, ack, 0);
      SortedAbove(q, ack - 0x1_0001);
    }
  }

  /** Dropping a prefix keeps the queues close; what stays behind an unacknowledged head is not far below `ack`. */
  lemma {:induction false} DropClose(w: seq<Byte>, m: int, u: seq<Seg>, q: seq<Seg>, ack: int, una: int)
    requires AllOk(w, m, q) && m < 0x1_0000 && ack <= una
    requires Lag(u + q) && (ack == una || AllAbove(q, una - FAR))
    ensures Lag(u + DropAcked(q, ack)) && AllAbove(DropAcked(q, ack), una - FAR)
  {
    var r := DropAcked(q, ack);
    LagSplit(u, q);
    DropLag(q, ack, una - FAR);
    CrossDrop(u, q, ack);
    LagSplit(u, r);
    DropFacts(w, m, q, ack, 0);
    if ack == una && r != [] {
      AboveWeaken(r[1..], r[0].End() - FAR, ack - FAR);
    }
  }

  lemma AckUnsentClose(cfg: Config, w: seq<Byte>, s: Snd, ack: int)
    requires cfg.Valid() && SndOk(cfg, w, s) && ack <= s.una
    requires Lag(s.unacked + s.unsent) && AllAbove(s.unacked, s.una - 0x1_0001)
    requires ack == s.una || AllAbove(s.unsent, s.una - FAR)
    ensures Close(AckUnsent(s, ack))
  {
    DropClose(w, cfg.sndBuf, s.unacked, s.unsent, ack, s.una);
  }

  lemma AckClose(cfg: Config, w: seq<Byte>, s: Snd, ack: int, wndMax: int, third: bool)
    requires cfg.Valid() && SndOk(cfg, w, s) && Close(s) && 0 <= wndMax
    ensures Close(Ack(s, ack, wndMax, third))
  {
    WindowKeeps(cfg, w, s, wndMax);
    AckCloseFrom(cfg, w, s.(wndMax := wndMax), ack, third);
  }

  lemma AckCloseFrom(cfg: Config, w: seq<Byte>, s: Snd, ack: int, third: bool)
    requires cfg.Valid() && SndOk(cfg, w, s) && Close(s)
    ensures Close(AckUnsent(AckUnacked(s, ack, third), ack))
  {
    var s1 := AckUnacked(s, ack, third);
    if ack > s.nxt {
      assert s1 == s && AckUnsent(s, ack) == s by { assert s.una <= s.nxt; }
    } else {
      AckUnackedKeeps(cfg, w, s, ack, third);
      AckUnackedClose(cfg, w, s, ack, third);
      AckSecond(cfg, w, s1, ack, ack > s.una);
    }
  }

  lemma AckSecond(cfg: Config, w: seq<Byte>, s: Snd, ack: int, isNew: bool)
    requires cfg.Valid() && SndOk(cfg, w, s) && ack <= s.una
    requires if isNew then ack == s.una && Lag(s.unacked + s.unsent) && AllAbove(s.unacked, ack - 0x1_0001) else Close(s)
    ensures Close(AckUnsent(s, ack))
  {
    AckUnsentClose(cfg, w, s, ack);
  }

  // ---------------------------------------------------------------------------
  // Writing
  // ---------------------------------------------------------------------------

  lemma {:induction false} BuildAbove(cfg: Config, s: Snd, m: int, r: Req, pos: int, data: seq<Byte>, first: bool,
                                      oversize: int, qlen: int, budget: int)
    requires cfg.Valid() && m > 0
    ensures var b := Build(cfg, s, m, r, pos, data, first, oversize, qlen, budget);
      b.Built? ==> AllAbove(b.segs, pos)
    decreases |data|
  {
    var b := Build(cfg, s, m, r, pos, data, first, oversize, qlen, budget);
    if data != [] && b.Built? {
      var n := Min(|data|, m);
      var bufs := if r.copy then 1 else 2;
      var over := if r.copy then AllocLen(cfg, s, n, m, r.more, first) - n else oversize;
      BuildAbove(cfg, s, m, r, pos + n, data[n..], false, over, qlen + bufs, budget - bufs - 1);
      var rest := Build(cfg, s, m, r, pos + n, data[n..], false, over, qlen + bufs, budget - bufs - 1).segs;
      assert b.segs[1..] == rest;
      AboveWeaken(rest, pos + n, pos);
    }
  }

  /** New segments at the end keep the queues close. */
  lemma {:induction false} AppendClose(lo: int, hi: int, u: seq<Seg>, q: seq<Seg>, segs: seq<Seg>)
    requires AllBelow(u, hi) && AllBelow(q, hi) && AllBelow(segs, hi) && AllAbove(segs, lo) && hi - lo <= FAR
    requires Lag(u + q)
    ensures Lag(u + (q + segs))
  {
    BelowSplit(u, q, hi);
    LagShort(segs, lo, hi);
    CrossShort(u + q, segs, lo, hi);
    LagSplit(u + q, segs);
    assert u + (q + segs) == (u + q) + segs;
  }

  lemma {:induction false} AppendAbove(lo: int, una: int, q: seq<Seg>, segs: seq<Seg>)
    requires AllAbove(segs, lo) && AllAbove(q, una - FAR) && una <= lo + 1
    ensures AllAbove(q + segs, una - FAR)
  {
    AboveWeaken(segs, lo, una - FAR);
    AboveSplit(q, segs, una - FAR);
  }

  /** Only where the last segment starts matters. */
  lemma {:induction false} LongerLag(a: seq<Seg>, x: Seg, y: Seg)
    requires Lag(a + [x]) && x.pos == y.pos
    ensures Lag(a + [y])
  {
    LagSplit(a, [x]);
    LagSplit(a, [y]);
    CrossOne(a, x, y);
  }

  lemma {:induction false} LongerLast(u: seq<Seg>, q: seq<Seg>, seg: Seg, lo: int)
    requires q != [] && Lag(u + q) && AllAbove(q, lo) && seg.pos == q[|q|-1].pos
    ensures Lag(u + (q[..|q|-1] + [seg])) && AllAbove(q[..|q|-1] + [seg], lo)
  {
    var a, last := q[..|q|-1], q[|q|-1];
    assert q == a + [last] && u + q == (u + a) + [last] && u + (a + [seg]) == (u + a) + [seg];
    LongerLag(u + a, last, seg);
    AboveSplit(a, [last], lo);
    AboveSplit(a, [seg], lo);
  }

  lemma {:induction false} CrossOne(a: seq<Seg>, x: Seg, y: Seg)
    requires Cross(a, [x]) && x.pos == y.pos
    ensures Cross(a, [y])
  {
    if a != [] { CrossOne(a[1..], x, y); }
  }

  lemma {:induction false} FirstWriteClose(cfg: Config, w: seq<Byte>, s: Snd, r: Req, w': seq<Byte>)
    requires cfg.Valid() && MssLocal(s) > 0 && Close(s) && s.unsent == [] && s.lbb == |w| && s.una <= |w| + 1
    requires AllOk(w', cfg.sndBuf, s.unacked) && |w'| - |w| < 0x1_0000
    ensures var b := Build(cfg, s, MssLocal(s), r, s.lbb, r.data, true, 0, s.qlen, r.budget);
      b.Built? && AllOk(w', cfg.sndBuf, b.segs) ==>
        Lag(s.unacked + b.segs) && AllAbove(b.segs, s.una - FAR)
  {
    var b := Build(cfg, s, MssLocal(s), r, s.lbb, r.data, true, 0, s.qlen, r.budget);
    if b.Built? && AllOk(w', cfg.sndBuf, b.segs) {
      BuildAbove(cfg, s, MssLocal(s), r, s.lbb, r.data, true, 0, s.qlen, r.budget);
      OkBelow(w', cfg.sndBuf, s.unacked);
      OkBelow(w', cfg.sndBuf, b.segs);
      AppendClose(|w|, |w'| + 1, s.unacked, [], b.segs);
      AppendAbove(|w|, s.una, [], b.segs);
      assert [] + b.segs == b.segs;
    }
  }

  lemma {:induction false} NextWriteClose(cfg: Config, w: seq<Byte>, s: Snd, r: Req, t: Tail, w': seq<Byte>)
    requires cfg.Valid() && MssLocal(s) > 0 && Close(s) && s.unsent != [] && s.lbb == |w| && s.una <= |w| + 1
    requires t.Tail? && TailGood(s, r, s.unsent[|s.unsent|-1], t)
    requires AllOk(w', cfg.sndBuf, s.unacked) && |w'| - |w| < 0x1_0000
    ensures var b := Build(cfg, s, MssLocal(s), r, s.lbb + t.taken, r.data[t.taken..], true, t.oversize, t.qlen, t.budget);
      b.Built? && AllOk(w', cfg.sndBuf, Extended(s, t.seg, b.segs)) ==>
        Lag(s.unacked + Extended(s, t.seg, b.segs)) && AllAbove(Extended(s, t.seg, b.segs), s.una - FAR)
  {
    var rest := r.data[t.taken..];
    var b := Build(cfg, s, MssLocal(s), r, s.lbb + t.taken, rest, true, t.oversize, t.qlen, t.budget);
    if b.Built? && AllOk(w', cfg.sndBuf, Extended(s, t.seg, b.segs)) {
      BuildAbove(cfg, s, MssLocal(s), r, s.lbb + t.taken, rest, true, t.oversize, t.qlen, t.budget);
      AboveWeaken(b.segs, s.lbb + t.taken, |w|);
      WriteCloseExtended(w, w', cfg.sndBuf, s, t.seg, b.segs);
    }
  }

  /** What a successful write leaves alone, and the new queue. */
  lemma WriteShape(cfg: Config, s: Snd, r: Req)
    requires cfg.Valid() && MssLocal(s) > 0
    ensures var (s', e) := Write(cfg, s, r);
      && s'.una == s.una && s'.unacked == s.unacked && s'.mss == s.mss && s'.wndMax == s.wndMax
      && (e.ErrOk? ==> s.fin.NoFin?)
      && (!e.ErrOk? ==> s'.unsent == s.unsent)
      && (e.ErrOk? && s.unsent == [] ==>
            var b := Build(cfg, s, MssLocal(s), r, s.lbb, r.data, true, 0, s.qlen, r.budget);
            b.Built? && s'.unsent == b.segs)
      && (e.ErrOk? && s.unsent != [] ==>
            var t := ExtendTail(cfg, s, MssLocal(s), r, s.unsent[|s.unsent|-1]);
            t.Tail? && 0 <= t.taken <= |r.data| &&
            var b := Build(cfg, s, MssLocal(s), r, s.lbb + t.taken, r.data[t.taken..], true, t.oversize, t.qlen, t.budget);
            b.Built? && s'.unsent == Extended(s, t.seg, b.segs))
      && (e.ErrOk? ==> |r.data| == 0 || |r.data| <= s.buf)
  {
  }

  /** The queue a successful write leaves holds bytes of the longer stream. */
  lemma WrittenOk(cfg: Config, w: seq<Byte>, s: Snd, r: Req)
    requires cfg.Valid() && SndOk(cfg, w, s) && (TailAtEnd(w, s) || r.data == []) && Write(cfg, s, r).1.ErrOk?
    ensures AllOk(w + r.data, cfg.sndBuf, s.unacked)
    ensures AllOk(w + r.data, cfg.sndBuf, Write(cfg, s, r).0.unsent)
  {
    AllOkGrows(w, r.data, cfg.sndBuf, cfg.sndBuf, s.unacked);
    WriteTheorem(cfg, w, s, r);
  }

  /** The shape of a successful write keeps the queues close. */
  lemma {:induction false} WrittenClose(cfg: Config, w: seq<Byte>, s: Snd, r: Req)
    requires cfg.Valid() && SndOk(cfg, w, s) && Close(s) && (TailAtEnd(w, s) || r.data == [])
    requires Write(cfg, s, r).1.ErrOk?
    ensures var s' := Write(cfg, s, r).0; Lag(s.unacked + s'.unsent) && AllAbove(s'.unsent, s.una - FAR)
  {
    var w' := w + r.data;
    WriteShape(cfg, s, r);
    WriteBound(cfg, s);
    WrittenOk(cfg, w, s, r);
    if s.unsent == [] {
      FirstWriteClose(cfg, w, s, r, w');
    } else {
      TailFacts(cfg, w, s, r);
      NextWriteClose(cfg, w, s, r, ExtendTail(cfg, s, MssLocal(s), r, s.unsent[|s.unsent|-1]), w');
    }
  }

  lemma WriteClose(cfg: Config, w: seq<Byte>, s: Snd, r: Req)
    requires cfg.Valid() && SndOk(cfg, w, s) && Close(s) && (TailAtEnd(w, s) || r.data == [])
    ensures Close(Write(cfg, s, r).0)
  {
    WriteShape(cfg, s, r);
    if Write(cfg, s, r).1.ErrOk? { WrittenClose(cfg, w, s, r); }
  }

  lemma {:induction false} WriteCloseExtended(w: seq<Byte>, w': seq<Byte>, m: int, s: Snd, seg: Seg, segs: seq<Seg>)
    requires s.unsent != [] && seg.pos == s.unsent[|s.unsent|-1].pos && Close(s)
    requires AllOk(w', m, s.unacked) && AllOk(w', m, Extended(s, seg, segs)) && AllAbove(segs, |w|)
    requires |w'| - |w| < 0x1_0000 && s.una <= |w| + 1
    ensures Lag(s.unacked + Extended(s, seg, segs)) && AllAbove(Extended(s, seg, segs), s.una - FAR)
  {
    var q := s.unsent[..|s.unsent|-1] + [seg];
    LongerLast(s.unacked, s.unsent, seg, s.una - FAR);
    AllOkSplit(w', m, q, segs);
    OkBelow(w', m, s.unacked);
    OkBelow(w', m, q);
    OkBelow(w', m, segs);
    AppendClose(|w|, |w'| + 1, s.unacked, q, segs);
    AppendAbove(|w|, s.una, q, segs);
  }

  lemma {:induction false} FinAppended(cfg: Config, w: seq<Byte>, s: Snd, x: Seg)
    requires SndOk(cfg, w, s) && Close(s) && s.una <= |w| + 1 && x.pos == |w| && x.Len() == 1
    ensures Lag(s.unacked + (s.unsent + [x])) && AllAbove(s.unsent + [x], s.una - FAR)
  {
    OkBelow(w, cfg.sndBuf, s.unacked);
    OkBelow(w, cfg.sndBuf, s.unsent);
    AppendClose(|w|, |w| + 1, s.unacked, s.unsent, [x]);
    AppendAbove(|w|, s.una, s.unsent, [x]);
  }

  lemma {:induction false} FinClose(cfg: Config, w: seq<Byte>, s: Snd, budget: nat)
    requires cfg.Valid() && SndOk(cfg, w, s) && Close(s)
    ensures Close(SendFin(s, budget).0)
  {
    if !s.fin.NoFin? {
    } else if s.unsent != [] && !s.unsent[|s.unsent|-1].fin {
      LongerLast(s.unacked, s.unsent, s.unsent[|s.unsent|-1].(fin := true), s.una - FAR);
    } else if budget >= 2 {
      FinAppended(cfg, w, s, Seg(s.lbb, [], true, 1, false));
    }
  }

  lemma StepClose(cfg: Config, c: Conn, e: Event)
    requires cfg.Valid() && SndOk(cfg, c.written, c.s) && Allowed(c, e) && Close(c.s)
    ensures Close(Step(cfg, c, e).s)
  {
    match e
    case DoWrite(r) => WriteClose(cfg, c.written, c.s, r);
    case DoFin(budget) => FinClose(cfg, c.written, c.s, budget);
    case DoOutput(o) => OutputClose(cfg, c.written, c.s, o);
    case DoAck(ack, wndMax, third) => AckClose(cfg, c.written, c.s, ack, wndMax, third);
    case DoRto(o) => RtoClose(cfg, c.written, c.s, o);
    case DoProbe(_) =>
  }

  /** In every run from a fresh connection the queues stay close together. */
  lemma {:induction false} CloseTheorem(cfg: Config, evs: seq<Event>, cs: seq<Conn>, i: nat)
    requires cfg.Valid() && IsRun(cfg, evs, cs) && i <= |evs|
    requires cs[0].s.unacked == [] && cs[0].s.unsent == []
    ensures Close(cs[i].s)
  {
    if i > 0 {
      CloseTheorem(cfg, evs, cs, i - 1);
      RunKeeps(cfg, evs, cs, i - 1);
      StepClose(cfg, cs[i-1], evs[i-1]);
      assert cs[i] == Step(cfg, cs[i-1], evs[i-1]);
    }
  }
}
