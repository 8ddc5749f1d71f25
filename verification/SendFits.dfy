/**
  When the segments of the sender fit the local segment size of tcp_write, and the
  recorded oversize fits behind the last one. The local size is half the largest
  window seen, but the full size while no such window was seen: so the first real
  window may make it smaller than a segment that is already queued.
 */
module SendFits {

  import opened SendSpec
  import opened Sender

  predicate AllShort(q: seq<Seg>, m: int) {
    q != [] ==> |q[0].data| <= m && AllShort(q[1..], m)
  }

  /** No segment is longer than `m`, and unsent_oversize is room in memory of our own behind the last unsent one. */
  predicate FitsIn(s: Snd, m: int) {
    && AllShort(s.unacked, m) && AllShort(s.unsent, m)
    && (s.unsent != [] ==>
          var last := s.unsent[|s.unsent|-1];
          s.oversize <= m - |last.data| && (s.oversize > 0 ==> !last.rom))
  }

  predicate Fits(s: Snd) {
    FitsIn(s, MssLocal(s))
  }

  // ---------------------------------------------------------------------------
  // Lists
  // ---------------------------------------------------------------------------

  lemma {:induction false} ShortSplit(a: seq<Seg>, b: seq<Seg>, m: int)
    ensures AllShort(a + b, m) <==> AllShort(a, m) && AllShort(b, m)
  {
    if a == [] { assert a + b == b; } else {
      assert (a + b)[1..] == a[1..] + b;
      ShortSplit(a[1..], b, m);
    }
  }

  lemma {:induction false} ShortInsert(q: seq<Seg>, x: Seg, m: int)
    ensures AllShort(Insert(q, x), m) <==> AllShort(q, m) && |x.data| <= m
  {
    var r := Insert(q, x);
    if q != [] && q[0].pos < x.pos {
      ShortInsert(q[1..], x, m);
      assert r[1..] == Insert(q[1..], x);
    } else {
      assert r[1..] == q;
    }
  }

  lemma {:induction false} ShortDrop(q: seq<Seg>, ack: int, m: int)
    ensures AllShort(q, m) ==> AllShort(DropAcked(q, ack), m)
    ensures DropAcked(q, ack) != [] ==> q != [] && DropAcked(q, ack)[|DropAcked(q, ack)|-1] == q[|q|-1]
  {
    if q != [] && q[0].End() <= ack { ShortDrop(q[1..], ack, m); }
  }

  lemma {:induction false} ShortWeaken(q: seq<Seg>, m: int, m': int)
    requires AllShort(q, m) && m <= m'
    ensures AllShort(q, m')
  {
    if q != [] { ShortWeaken(q[1..], m, m'); }
  }

  lemma {:induction false} ShortLast(q: seq<Seg>, m: int)
    requires AllShort(q, m) && q != []
    ensures |q[|q|-1].data| <= m
  {
    if |q| > 1 { ShortLast(q[1..], m); }
  }

  lemma FitsWeaken(s: Snd, m: int, m': int)
    requires FitsIn(s, m) && m <= m'
    ensures FitsIn(s, m')
  {
    ShortWeaken(s.unacked, m, m');
    ShortWeaken(s.unsent, m, m');
  }

  // ---------------------------------------------------------------------------
  // All steps but the window update keep the sizes
  // ---------------------------------------------------------------------------

  lemma SentFits(s: Snd, m: int)
    requires s.unsent != [] && FitsIn(s, m)
    ensures FitsIn(Sent(s), m)
  {
    ShortInsert(s.unacked, s.unsent[0], m);
    var s' := Sent(s);
    assert s'.unsent != [] ==> s'.unsent[|s'.unsent|-1] == s.unsent[|s.unsent|-1];
  }

  lemma {:induction false} SendLoopFits(cfg: Config, s: Snd, wnd: int, budget: nat, m: int)
    requires FitsIn(s, m)
    ensures FitsIn(SendLoop(cfg, s, wnd, budget).0, m)
    decreases |s.unsent|
  {
    if s.unsent != [] && FitsWindow(s, s.unsent[0], wnd) && MaySend(cfg, s) && budget > 0 {
      SentFits(s, m);
      SendLoopFits(cfg, Sent(s), wnd, budget - 1, m);
    }
  }

  lemma OutputFits(cfg: Config, s: Snd, o: Out, m: int)
    requires FitsIn(s, m)
    ensures FitsIn(Output(cfg, s, o), m)
  {
    SendLoopFits(cfg, s, o.wnd, o.budget, m);
  }

  lemma RexmitFits(s: Snd, m: int)
    requires FitsIn(s, m)
    ensures FitsIn(Rexmit(s), m)
  {
    if s.unacked != [] {
      ShortInsert(s.unsent, s.unacked[0], m);
      InsertLast(s.unsent, s.unacked[0]);
    }
  }

  lemma RtoFits(cfg: Config, s: Snd, o: Out, m: int)
    requires FitsIn(s, m) && (s.unsent == [] ==> s.oversize == 0)
    ensures FitsIn(Rto(cfg, s, o), m)
  {
    if s.unacked != [] {
      var q := s.unacked + s.unsent;
      ShortSplit(s.unacked, s.unsent, m);
      ShortLast(q, m);
      assert s.unsent != [] ==> q[|q|-1] == s.unsent[|s.unsent|-1];
      OutputFits(cfg, s.(unsent := q, unacked := []), o, m);
    }
  }

  lemma AckUnackedFits(s: Snd, ack: int, third: bool, m: int)
    requires FitsIn(s, m)
    ensures FitsIn(AckUnacked(s, ack, third), m)
  {
    RexmitFits(s, m);
    ShortDrop(s.unacked, ack, m);
  }

  lemma AckUnsentFits(s: Snd, ack: int, m: int)
    requires FitsIn(s, m)
    ensures FitsIn(AckUnsent(s, ack), m)
  {
    ShortDrop(s.unsent, ack, m);
  }

  lemma AckFits(s: Snd, ack: int, third: bool, m: int)
    requires FitsIn(s, m)
    ensures FitsIn(Ack(s, ack, s.wndMax, third), m)
  {
    assert s.(wndMax := s.wndMax) == s;
    AckUnackedFits(s, ack, third, m);
    AckUnsentFits(AckUnacked(s, ack, third), ack, m);
  }

  lemma FinFits(s: Snd, budget: nat, m: int)
    requires FitsIn(s, m) && m > 0
    ensures FitsIn(SendFin(s, budget).0, m)
  {
    if s.fin.NoFin? && s.unsent != [] && !s.unsent[|s.unsent|-1].fin {
      var k := |s.unsent| - 1;
      assert s.unsent == s.unsent[..k] + [s.unsent[k]];
      ShortSplit(s.unsent[..k], [s.unsent[k]], m);
      ShortSplit(s.unsent[..k], [s.unsent[k].(fin := true)], m);
    } else if s.fin.NoFin? && budget >= 2 {
      ShortSplit(s.unsent, [Seg(s.lbb, [], true, 1, false)], m);
    }
  }

  // ---------------------------------------------------------------------------
  // Writing
  // ---------------------------------------------------------------------------

  /** New segments fit, and so does the oversize of the last one. */
  predicate BuiltFits(m: int, b: Built) {
    b.Built? ==>
      && AllShort(b.segs, m)
      && (b.segs != [] ==>
            var last := b.segs[|b.segs|-1];
            b.oversize <= m - |last.data| && (b.oversize > 0 ==> !last.rom))
  }

  lemma {:induction false} BuildFits(cfg: Config, s: Snd, m: int, r: Req, pos: int, data: seq<Byte>, first: bool,
                                     oversize: int, qlen: int, budget: int)
    requires cfg.Valid() && m > 0 && (data != [] && !r.copy ==> oversize == 0)
    ensures BuiltFits(m, Build(cfg, s, m, r, pos, data, first, oversize, qlen, budget))
    ensures var b := Build(cfg, s, m, r, pos, data, first, oversize, qlen, budget);
      b.Built? && b.segs == [] ==> data == [] && b.oversize == oversize
    decreases |data|
  {
    var b := Build(cfg, s, m, r, pos, data, first, oversize, qlen, budget);
    if data != [] && b.Built? {
      var n := Min(|data|, m);
      var bufs := if r.copy then 1 else 2;
      AllocLenFacts(cfg, s, n, m, r.more, first);
      var over := if r.copy then AllocLen(cfg, s, n, m, r.more, first) - n else oversize;
      BuildFits(cfg, s, m, r, pos + n, data[n..], false, over, qlen + bufs, budget - bufs - 1);
      var rest := Build(cfg, s, m, r, pos + n, data[n..], false, over, qlen + bufs, budget - bufs - 1);
      assert b.segs == [b.segs[0]] + rest.segs && b.segs[1..] == rest.segs;
    }
  }

  /** The extended last segment fits, and its oversize; what is left over goes to new segments only if it is full. */
  predicate TailFitsIn(m: int, r: Req, t: Tail) {
    t.Tail? ==>
      && |t.seg.data| <= m && t.oversize <= m - |t.seg.data|
      && (t.taken < |r.data| ==> t.oversize == 0) && (t.oversize > 0 ==> !t.seg.rom)
  }

  lemma ExtendFits(cfg: Config, s: Snd, m: int, r: Req, last: Seg)
    requires cfg.Valid() && 0 < |last.data| <= m && 0 <= s.oversize <= m - |last.data| && (s.oversize > 0 ==> !last.rom)
    ensures TailFitsIn(m, r, ExtendTail(cfg, s, m, r, last))
  {
    var space := Space(m, |last.data|);
    var used := if s.oversize > 0 then Min(space, Min(s.oversize, |r.data|)) else 0;
    var n := Min(space - used, |r.data| - used);
    if used < |r.data| && space - used > 0 {
      AllocLenFacts(cfg, s, n, space - used, r.more, true);
    }
  }

  lemma ExtendedFits(s: Snd, m: int, seg: Seg, b: Built, len: int)
    requires s.unsent != [] && FitsIn(s, m) && |seg.data| <= m && b.Built? && BuiltFits(m, b)
    requires b.segs == [] ==> b.oversize <= m - |seg.data| && (b.oversize > 0 ==> !seg.rom)
    ensures FitsIn(Commit(s, Extended(s, seg, b.segs), len, b.oversize, b.qlen), m)
  {
    var k := |s.unsent| - 1;
    assert s.unsent == s.unsent[..k] + [s.unsent[k]];
    ShortSplit(s.unsent[..k], [s.unsent[k]], m);
    ShortSplit(s.unsent[..k], [seg], m);
    ShortSplit(s.unsent[..k] + [seg], b.segs, m);
    var q := Extended(s, seg, b.segs);
    assert q[|q|-1] == if b.segs == [] then seg else b.segs[|b.segs|-1];
  }

  /** What the assertions in tcp_write demand of the last unsent segment. */
  predicate Writable(s: Snd) {
    s.fin.NoFin? && s.unsent != [] ==>
      var last := s.unsent[|s.unsent|-1];
      0 < |last.data| <= MssLocal(s) && 0 <= s.oversize <= MssLocal(s) - |last.data|
  }

  /** They hold in every state of the invariant in which the sizes are right. */
  lemma OkWritable(cfg: Config, w: seq<Byte>, s: Snd)
    requires SndOk(cfg, w, s) && Fits(s)
    ensures Writable(s)
  {
    if s.fin.NoFin? && s.unsent != [] {
      ShortLast(s.unsent, MssLocal(s));
      AllOkLast(w, cfg.sndBuf, s.unsent);
      NoFins(s.unsent);
    }
  }

  lemma WriteFits(cfg: Config, s: Snd, r: Req)
    requires cfg.Valid() && MssLocal(s) > 0 && Writable(s) && Fits(s)
    ensures FitsIn(Write(cfg, s, r).0, MssLocal(s))
  {
    var m := MssLocal(s);
    if s.fin.NoFin? && !Refuses(cfg, s, |r.data|) {
      if s.unsent == [] {
        FirstWriteFits(cfg, s, r);
      } else {
        var last := s.unsent[|s.unsent|-1];
        ExtendFits(cfg, s, m, r, last);
        NextWriteFits(cfg, s, r, ExtendTail(cfg, s, m, r, last));
      }
    }
  }

  lemma FirstWriteFits(cfg: Config, s: Snd, r: Req)
    requires cfg.Valid() && MssLocal(s) > 0 && s.unsent == [] && Fits(s) && s.fin.NoFin? && !Refuses(cfg, s, |r.data|)
    ensures FitsIn(Write(cfg, s, r).0, MssLocal(s))
  {
    BuildFits(cfg, s, MssLocal(s), r, s.lbb, r.data, true, 0, s.qlen, r.budget);
  }

  lemma NextWriteFits(cfg: Config, s: Snd, r: Req, t: Tail)
    requires cfg.Valid() && MssLocal(s) > 0 && s.unsent != [] && Fits(s)
    requires TailFitsIn(MssLocal(s), r, t) && (t.Tail? ==> 0 <= t.taken <= |r.data|)
    ensures t.Tail? ==>
      var b := Build(cfg, s, MssLocal(s), r, s.lbb + t.taken, r.data[t.taken..], true, t.oversize, t.qlen, t.budget);
      b.Built? ==> FitsIn(Commit(s, Extended(s, t.seg, b.segs), |r.data|, b.oversize, b.qlen), MssLocal(s))
  {
    if t.Tail? {
      var m, rest := MssLocal(s), r.data[t.taken..];
      BuildFits(cfg, s, m, r, s.lbb + t.taken, rest, true, t.oversize, t.qlen, t.budget);
      var b := Build(cfg, s, m, r, s.lbb + t.taken, rest, true, t.oversize, t.qlen, t.budget);
      if b.Built? { ExtendedFits(s, m, t.seg, b, |r.data|); }
    }
  }

  // ---------------------------------------------------------------------------
  // Runs
  // ---------------------------------------------------------------------------

  /** A segment of `q` is longer than `m`, or the last one with `spare` bytes of room behind it. */
  ghost predicate Exceeds(q: seq<Seg>, spare: int, m: int) {
    exists i :: 0 <= i < |q| && (|q[i].data| > m || (i == |q| - 1 && |q[i].data| + spare > m))
  }

  /** The acknowledgement is the third duplicate, which starts a fast retransmit. */
  predicate FastRexmit(s: Snd, e: Event)
    requires e.DoAck?
  {
    e.third && e.ack == s.una && !s.inFr && s.unacked != []
  }

  /**
    The first window of two bytes or more is announced while a segment is queued that
    the acknowledgement does not cover, and that is longer (with the room recorded
    behind it) than half this window.
   */
  ghost predicate Overtaken(s: Snd, e: Event) {
    && e.DoAck? && s.wndMax < 2 <= e.wndMax
    && var m := LocalMss(s.mss, e.wndMax);
       var t := if FastRexmit(s, e) then Rexmit(s) else s;
       || Exceeds(if s.una < e.ack <= s.nxt then DropAcked(t.unacked, e.ack) else t.unacked, 0, m)
       || Exceeds(if e.ack <= s.nxt then DropAcked(t.unsent, e.ack) else t.unsent, t.oversize, m)
  }

  lemma {:induction false} ShortAt(q: seq<Seg>, m: int, i: nat)
    requires AllShort(q, m) && i < |q|
    ensures |q[i].data| <= m
  {
    if i > 0 { ShortAt(q[1..], m, i - 1); }
  }

  lemma {:induction false} NotShort(q: seq<Seg>, m: int) returns (i: nat)
    requires !AllShort(q, m)
    ensures i < |q| && |q[i].data| > m
  {
    if |q[0].data| > m { i := 0; } else {
      var j := NotShort(q[1..], m);
      i := j + 1;
    }
  }

  lemma ExceedsIff(q: seq<Seg>, spare: int, m: int)
    ensures Exceeds(q, spare, m) <==> !AllShort(q, m) || (q != [] && spare > m - |q[|q|-1].data|)
  {
    if !AllShort(q, m) { var _ := NotShort(q, m); }
    if Exceeds(q, spare, m) && AllShort(q, m) {
      var i :| 0 <= i < |q| && (|q[i].data| > m || (i == |q| - 1 && |q[i].data| + spare > m));
      ShortAt(q, m, i);
    }
  }

  /** What is queued after the acknowledgement, in terms of what was queued before. */
  lemma AckQueues(s: Snd, e: Event)
    requires e.DoAck?
    ensures var t := if FastRexmit(s, e) then Rexmit(s) else s;
      var u := Ack(s, e.ack, s.wndMax, e.third);
      && u.unacked == (if s.una < e.ack <= s.nxt then DropAcked(t.unacked, e.ack) else t.unacked)
      && u.unsent == (if e.ack <= s.nxt then DropAcked(t.unsent, e.ack) else t.unsent)
      && (u.unsent != [] ==> u.oversize == t.oversize)
  {
    assert s.(wndMax := s.wndMax) == s;
  }

  /** Something queued is overtaken exactly when what stays queued does not fit the new size. */
  lemma OvertakenIff(s: Snd, e: Event)
    requires e.DoAck? && s.wndMax < 2 <= e.wndMax && Fits(s)
    ensures Overtaken(s, e) <==> !FitsIn(Ack(s, e.ack, s.wndMax, e.third), LocalMss(s.mss, e.wndMax))
  {
    AckFits(s, e.ack, e.third, MssLocal(s));
    AckQueues(s, e);
    UnfitIff(Ack(s, e.ack, s.wndMax, e.third), MssLocal(s), LocalMss(s.mss, e.wndMax));
  }

  lemma UnfitIff(u: Snd, before: int, m: int)
    requires FitsIn(u, before)
    ensures !FitsIn(u, m) <==> Exceeds(u.unacked, 0, m) || Exceeds(u.unsent, u.oversize, m)
  {
    ExceedsIff(u.unacked, 0, m);
    ExceedsIff(u.unsent, u.oversize, m);
    if u.unacked != [] && AllShort(u.unacked, m) { ShortLast(u.unacked, m); }
  }

  /** The window update does nothing to the queues. */
  lemma AckThenWindow(s: Snd, ack: int, wndMax: int, third: bool)
    ensures Ack(s, ack, wndMax, third) == Ack(s, ack, s.wndMax, third).(wndMax := wndMax)
  {
  }

  lemma AckFitsIff(s: Snd, e: Event)
    requires e.DoAck? && 0 < s.mss && 0 <= s.wndMax <= e.wndMax && Fits(s)
    ensures Fits(Ack(s, e.ack, e.wndMax, e.third)) <==> !Overtaken(s, e)
  {
    AckThenWindow(s, e.ack, e.wndMax, e.third);
    AckFits(s, e.ack, e.third, MssLocal(s));
    AckKeepsSize(s, e.ack, e.third);
    WindowFitsIff(Ack(s, e.ack, s.wndMax, e.third), e.wndMax);
    if s.wndMax < 2 <= e.wndMax { OvertakenIff(s, e); }
  }

  lemma AckKeepsSize(s: Snd, ack: int, third: bool)
    ensures var t := Ack(s, ack, s.wndMax, third); t.mss == s.mss && t.wndMax == s.wndMax
  {
  }

  lemma WindowFitsIff(t: Snd, wndMax: int)
    requires 0 < t.mss && 0 <= t.wndMax <= wndMax && Fits(t)
    ensures Fits(t.(wndMax := wndMax)) <==> !(t.wndMax < 2 <= wndMax && !FitsIn(t, LocalMss(t.mss, wndMax)))
  {
    if !(t.wndMax < 2 <= wndMax) {
      FitsWeaken(t, MssLocal(t), LocalMss(t.mss, wndMax));
    }
  }

  /** Only a window update can break the sizes, and exactly when it overtakes something queued. */
  lemma StepFitsIff(cfg: Config, c: Conn, e: Event)
    requires cfg.Valid() && SndOk(cfg, c.written, c.s) && Allowed(c, e) && Fits(c.s)
    ensures Fits(Step(cfg, c, e).s) <==> !Overtaken(c.s, e)
  {
    var m := MssLocal(c.s);
    match e
    case DoWrite(r) =>
      OkWritable(cfg, c.written, c.s);
      WriteFits(cfg, c.s, r);
      WriteKeepsSize(cfg, c.s, r);
    case DoFin(budget) => FinFits(c.s, budget, m);
    case DoOutput(o) =>
      OutputFits(cfg, c.s, o, m);
      LoopKeepsSize(cfg, c.s, o.wnd, o.budget);
    case DoAck(_, _, _) => AckFitsIff(c.s, e);
    case DoRto(o) =>
      RtoFits(cfg, c.s, o, m);
      LoopKeepsSize(cfg, c.s.(unsent := c.s.unacked + c.s.unsent, unacked := []), o.wnd, o.budget);
    case DoProbe(_) =>
  }

  lemma WriteKeepsSize(cfg: Config, s: Snd, r: Req)
    requires cfg.Valid() && MssLocal(s) > 0
    ensures MssLocal(Write(cfg, s, r).0) == MssLocal(s)
  {
  }

  lemma {:induction false} LoopKeepsSize(cfg: Config, s: Snd, wnd: int, budget: nat)
    ensures MssLocal(SendLoop(cfg, s, wnd, budget).0) == MssLocal(s)
    decreases |s.unsent|
  {
    if s.unsent != [] && FitsWindow(s, s.unsent[0], wnd) && MaySend(cfg, s) && budget > 0 {
      LoopKeepsSize(cfg, Sent(s), wnd, budget - 1);
    }
  }

  /** In the first `k + 1` states of a run the sizes are right. */
  predicate FitsUpTo(cs: seq<Conn>, k: nat)
    requires k < |cs|
  {
    Fits(cs[k].s) && (k > 0 ==> FitsUpTo(cs, k - 1))
  }

  ghost predicate NoneOvertaken(evs: seq<Event>, cs: seq<Conn>, k: nat)
    requires k <= |evs| && k < |cs|
  {
    k > 0 ==> !Overtaken(cs[k-1].s, evs[k-1]) && NoneOvertaken(evs, cs, k - 1)
  }

  /**
    In a run that starts with empty queues, the segments fit the local segment size
    and the oversize fits the tail in every state up to `k`, if and only if no
    acknowledgement before that overtook something queued.
   */
  lemma {:induction false} FitsTheorem(cfg: Config, evs: seq<Event>, cs: seq<Conn>, k: nat)
    requires cfg.Valid() && IsRun(cfg, evs, cs) && k <= |evs| && cs[0].s.unacked == [] && cs[0].s.unsent == []
    ensures FitsUpTo(cs, k) <==> NoneOvertaken(evs, cs, k)
  {
    if k > 0 {
      FitsTheorem(cfg, evs, cs, k - 1);
      if FitsUpTo(cs, k - 1) {
        RunKeeps(cfg, evs, cs, k - 1);
        StepFitsIff(cfg, cs[k-1], evs[k-1]);
        assert cs[k] == Step(cfg, cs[k-1], evs[k-1]);
      }
    }
  }

  /** After a window of two bytes or more in the SYN nothing is ever overtaken. */
  lemma {:induction false} LargeWindowFits(cfg: Config, evs: seq<Event>, cs: seq<Conn>, k: nat)
    requires cfg.Valid() && IsRun(cfg, evs, cs) && k <= |evs| && cs[0].s.unacked == [] && cs[0].s.unsent == []
    requires cs[0].s.wndMax >= 2
    ensures cs[k].s.wndMax >= 2 && Fits(cs[k].s)
  {
    if k > 0 {
      LargeWindowFits(cfg, evs, cs, k - 1);
      RunKeeps(cfg, evs, cs, k - 1);
      StepFitsIff(cfg, cs[k-1], evs[k-1]);
      WindowGrows(cfg, cs[k-1], evs[k-1]);
      assert cs[k] == Step(cfg, cs[k-1], evs[k-1]);
    }
  }

  lemma WindowGrows(cfg: Config, c: Conn, e: Event)
    requires cfg.Valid() && MssLocal(c.s) > 0 && Allowed(c, e)
    ensures Step(cfg, c, e).s.wndMax >= c.s.wndMax
  {
    if e.DoOutput? { LoopKeepsWindow(cfg, c.s, e.o.wnd, e.o.budget); }
    if e.DoRto? { LoopKeepsWindow(cfg, c.s.(unsent := c.s.unacked + c.s.unsent, unacked := []), e.o.wnd, e.o.budget); }
  }

  lemma {:induction false} LoopKeepsWindow(cfg: Config, s: Snd, wnd: int, budget: nat)
    ensures SendLoop(cfg, s, wnd, budget).0.wndMax == s.wndMax
    decreases |s.unsent|
  {
    if s.unsent != [] && FitsWindow(s, s.unsent[0], wnd) && MaySend(cfg, s) && budget > 0 {
      LoopKeepsWindow(cfg, Sent(s), wnd, budget - 1);
    }
  }

  // ---------------------------------------------------------------------------
  // A window that opens late
  // ---------------------------------------------------------------------------

  /** A connection whose SYN announced no window, with `n` bytes written into one segment. */
  function Late(data: seq<Byte>, wndMax: int): Snd {
    Snd(0, 0, |data|, 1000 - |data|, 1, [], [Seg(0, data, false, 1, false)], 0, wndMax, 10, NoFin, false, false, true, [])
  }

  /**
    Ten bytes are written while the window is zero, as one segment of the full size;
    then a window of four is announced. The assertion on mss_local in tcp_write no
    longer holds.
   */
  lemma LateWindowOvertakes(data: seq<Byte>)
    requires |data| == 10
    ensures var r := Req(data, true, false, false, 9);
      && Write(EXAMPLE, Start(EXAMPLE, 10, 0, true).s, r) == (Late(data, 0), ErrOk)
      && Ack(Late(data, 0), 0, 4, false) == Late(data, 4)
      && Fits(Late(data, 0)) && MssLocal(Late(data, 4)) == 2 && !Fits(Late(data, 4)) && !Writable(Late(data, 4))
  {
    var s, r := Start(EXAMPLE, 10, 0, true).s, Req(data, true, false, false, 9);
    assert data[..10] == data && data[10..] == [];
    assert Build(EXAMPLE, s, 10, r, 10, data[10..], false, 0, 1, 7) == Built([], 0, 1);
    assert Build(EXAMPLE, s, 10, r, 0, data, true, 0, 0, 9) == Built([Seg(0, data, false, 1, false)], 0, 1);
    assert [Seg(0, data, false, 1, false)][1..] == [];
  }

  /** One more byte, and the segment is longer than the connection's segment size. */
  lemma LateWindowOutgrows(data: seq<Byte>, b: Byte)
    requires |data| == 10
    ensures var (s', e) := Write(EXAMPLE, Late(data, 4), Req([b], true, false, false, 9));
      e == ErrOk && s'.unsent == [Seg(0, data + [b], false, 2, false)] && |s'.unsent[0].data| > s'.mss
  {
    var s, r := Late(data, 4), Req([b], true, false, false, 9);
    assert [b][..1] == [b] && [b][1..] == [];
    var last := s.unsent[0];
    assert Space(2, 10) == 0xfff8;
    var t := ExtendTail(EXAMPLE, s, 2, r, last);
    assert t == Tail(Seg(0, data + [b], false, 2, false), 1, 0, 2, 8);
    assert Build(EXAMPLE, s, 2, r, s.lbb + 1, [b][1..], true, 0, 2, 8) == Built([], 0, 2);
  }
}
