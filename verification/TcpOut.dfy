/**
  The sending half of the control block as tcp_out.c and tcp_in.c update it:
  fields changed in place, lists walked by loops, every branch taken on 32-bit
  sequence numbers. Each method is proved to compute the step of module SendSpec,
  in every state that a run can reach.
 */
module TcpOut {

  import opened SeqNum
  import opened SendSpec
  import opened Sender
  import opened SendNear

  type U8 = x: int | 0 <= x < 0x100

  /** All sequence numbers of a queue lie in `lo..hi`. */
  predicate Band(q: seq<Seg>, lo: int, hi: int) {
    AllAbove(q, lo) && AllBelow(q, hi) && hi - lo <= 4 * FAR
  }

  lemma {:induction false} BandHead(q: seq<Seg>, lo: int, hi: int)
    requires q != [] && Band(q, lo, hi)
    ensures lo <= q[0].pos <= q[0].End() <= hi && Band(q[1..], lo, hi)
  {
  }

  lemma {:induction false} BandLast(q: seq<Seg>, lo: int, hi: int)
    requires q != [] && Band(q, lo, hi)
    ensures var x := q[|q|-1]; lo <= x.pos <= x.End() <= hi
  {
    if |q| > 1 { BandLast(q[1..], lo, hi); }
  }

  /** TCP_SEQ_LT of two positions in a band. */
  method Lower(a: int, b: int, ghost lo: int, ghost hi: int) returns (r: bool)
    requires lo <= a <= hi && lo <= b <= hi && hi - lo <= 8 * FAR
    ensures r == (a < b)
  {
    NearOrder(a, b);
    r := SeqLt(Wrap(a), Wrap(b));
  }

  /** The insertion loop of tcp_output and tcp_rexmit. */
  method InsertSorted(q: seq<Seg>, x: Seg, ghost lo: int, ghost hi: int) returns (r: seq<Seg>, last: bool)
    requires Band(q, lo, hi) && lo <= x.pos <= hi
    ensures r == Insert(q, x) && last == AllLower(q, x)
  {
    var before, rest := [], q;
    var more := false;
    if rest != [] {
      BandHead(rest, lo, hi);
      more := Lower(rest[0].pos, x.pos, lo, hi);
    }
    while more
      invariant Band(rest, lo, hi) && Insert(q, x) == before + Insert(rest, x)
      invariant AllLower(q, x) == AllLower(rest, x)
      invariant more <==> rest != [] && rest[0].pos < x.pos
      decreases |rest|
    {
      assert before + ([rest[0]] + Insert(rest[1..], x)) == (before + [rest[0]]) + Insert(rest[1..], x);
      BandHead(rest, lo, hi);
      before, rest := before + [rest[0]], rest[1..];
      more := false;
      if rest != [] {
        BandHead(rest, lo, hi);
        more := Lower(rest[0].pos, x.pos, lo, hi);
      }
    }
    r, last := before + ([x] + rest), rest == [];
  }

  lemma {:induction false} AppendIsInsert(q: seq<Seg>, x: Seg)
    requires Sorted(q) && (q != [] ==> q[|q|-1].pos < x.pos)
    ensures Insert(q, x) == q + [x]
  {
    if |q| == 1 {
      assert Insert(q[1..], x) == [x];
    } else if |q| > 1 {
      SortedHead(q);
      AppendIsInsert(q[1..], x);
      assert q + [x] == [q[0]] + (q[1..] + [x]);
    }
  }

  lemma {:induction false} SortedHead(q: seq<Seg>)
    requires Sorted(q) && q != []
    ensures q[0].pos <= q[|q|-1].pos
  {
    if |q| > 1 { SortedHead(q[1..]); }
  }

  /** tcp_output puts a sent segment on `unacked`: at the tail, unless it is an old one. */
  method PutUnacked(q: seq<Seg>, x: Seg, ghost lo: int, ghost hi: int) returns (r: seq<Seg>)
    requires Band(q, lo, hi) && lo <= x.pos <= hi && Sorted(q) && (q != [] ==> q[|q|-1].pos != x.pos)
    ensures r == Insert(q, x)
  {
    if q == [] {
      r := [x];
    } else {
      var useg := q[|q|-1];
      BandLast(q, lo, hi);
      var older := Lower(x.pos, useg.pos, lo, hi);
      if older {
        var atEnd;
        r, atEnd := InsertSorted(q, x, lo, hi);
      } else {
        AppendIsInsert(q, x);
        r := q + [x];
      }
    }
  }

  // ---------------------------------------------------------------------------
  // States a run can reach
  // ---------------------------------------------------------------------------

  /** What the methods rely on; `w` is what was written. Every state of a run is like this. */
  ghost predicate Good(cfg: Config, w: seq<Byte>, s: Snd) {
    cfg.Valid() && Core(cfg, w, s) && Close(s) && |w| - s.una <= cfg.sndBuf
  }

  lemma ReachedIsGood(cfg: Config, evs: seq<Event>, cs: seq<Conn>, i: nat)
    requires cfg.Valid() && IsRun(cfg, evs, cs) && i <= |evs|
    requires cs[0].s.unacked == [] && cs[0].s.unsent == []
    ensures Good(cfg, cs[i].written, cs[i].s)
  {
    RunKeeps(cfg, evs, cs, i);
    CloseTheorem(cfg, evs, cs, i);
    InFlight(cfg, cs[i].written, cs[i].s);
  }

  /** All sequence numbers lie in a short range around lastack. */
  predicate Tight(s: Snd) {
    && Band(s.unacked, s.una - FAR, s.una + FAR) && Band(s.unsent, s.una - FAR, s.una + FAR)
    && s.una <= s.nxt <= s.una + FAR
  }

  lemma GoodBand(cfg: Config, w: seq<Byte>, s: Snd)
    requires Good(cfg, w, s)
    ensures Tight(s)
  {
    AboveWeaken(s.unacked, s.una - 0x1_0001, s.una - FAR);
    OkBelow(w, cfg.sndBuf, s.unacked);
    OkBelow(w, cfg.sndBuf, s.unsent);
    AllBelowWeaken(s.unacked, |w| + 1, s.una + FAR);
    AllBelowWeaken(s.unsent, |w| + 1, s.una + FAR);
  }

  lemma {:induction false} CntMember(q: seq<Seg>, p: int, i: nat)
    requires i < |q| && q[i].Has(p)
    ensures Cnt(q, p) >= 1
  {
    if i > 0 { CntMember(q[1..], p, i - 1); }
  }

  lemma {:induction false} FinMember(q: seq<Seg>, i: nat)
    requires i < |q| && q[i].fin
    ensures FinCnt(q) >= 1
  {
    if i > 0 { FinMember(q[1..], i - 1); }
  }

  /** Two queued segments never start at the same sequence number. */
  lemma StartsDiffer(cfg: Config, w: seq<Byte>, s: Snd)
    requires Core(cfg, w, s) && s.unacked != [] && s.unsent != []
    ensures s.unacked[|s.unacked|-1].pos != s.unsent[0].pos
  {
    var x, y := s.unacked[|s.unacked|-1], s.unsent[0];
    AllOkLast(w, cfg.sndBuf, s.unacked);
    if x.pos == y.pos {
      if x.data != [] && y.data != [] {
        CntMember(s.unacked, x.pos, |s.unacked|-1);
        CntMember(s.unsent, x.pos, 0);
      } else if x.data == [] && y.data == [] {
        FinMember(s.unacked, |s.unacked|-1);
      }
    }
  }

  lemma GoodSent(cfg: Config, w: seq<Byte>, s: Snd, wnd: int)
    requires Good(cfg, w, s) && s.unsent != [] && FitsWindow(s, s.unsent[0], wnd)
    ensures Good(cfg, w, Sent(s))
  {
    SentKeeps(cfg, w, s);
    SentClose(cfg, w, s, wnd);
  }

  // ---------------------------------------------------------------------------
  // tcp_write
  // ---------------------------------------------------------------------------

  /** The pbuf size tcp_pbuf_prealloc asks for. */
  method Prealloc(cfg: Config, s: Snd, length: int, max: int, more: bool, first: bool) returns (alloc: int)
    requires cfg.Valid()
    ensures alloc == AllocLen(cfg, s, length, max, more, first)
    ensures 0 <= length <= max ==> length <= alloc <= max
  {
    if 0 <= length <= max { AllocLenFacts(cfg, s, length, max, more, first); }
    alloc := length;
    if length < max {
      if more || (!s.noDelay && (!first || s.unsent != [] || s.unacked != [])) {
        alloc := AlignUp(length + cfg.extra, cfg.align);
        if max < alloc { alloc := max; }
      }
    }
  }

  /** One turn of phase 3: the pbufs and the segment for the next bytes, if every allocation succeeds. */
  method NextSegment(cfg: Config, s: Snd, m: int, r: Req, pos: int, first: bool, oversize: int, qlen: int, budget: int)
      returns (ok: bool, seg: Seg, over: int, queuelen: int)
    requires cfg.Valid() && m > 0 && 0 <= pos < |r.data|
    ensures var n := if |r.data| - pos > m then m else |r.data| - pos;
      var bufs := if r.copy then 1 else 2;
      && seg == Seg(s.lbb + pos, r.data[pos..pos + n], false, bufs, !r.copy)
      && ok == !(budget < bufs || QueueFull(cfg, qlen + bufs) || budget < bufs + 1)
      && (ok ==> queuelen == qlen + bufs && over == if r.copy then AllocLen(cfg, s, n, m, r.more, first) - n else oversize)
  {
    var left := |r.data| - pos;
    var seglen := if left > m then m else left;
    var bufs := if r.copy then 1 else 2;
    ok, over, queuelen := false, oversize, qlen;
    seg := Seg(s.lbb + pos, r.data[pos..pos + seglen], false, bufs, !r.copy);
    if budget < bufs { return; }
    if r.copy {
      var alloc := Prealloc(cfg, s, seglen, m, r.more, first);
      over := alloc - seglen;
    }
    queuelen := queuelen + bufs;
    if QueueFull(cfg, queuelen) || budget < bufs + 1 { return; }
    ok := true;
  }

  /** Phase 3 of tcp_write: `queue` grows by one segment per turn; any allocation may fail. */
  method BuildQueue(cfg: Config, s: Snd, m: int, r: Req, pos0: int, oversize0: int, qlen0: int, budget0: int)
      returns (b: Built)
    requires cfg.Valid() && m > 0 && 0 <= pos0 <= |r.data|
    ensures b == Build(cfg, s, m, r, s.lbb + pos0, r.data[pos0..], true, oversize0, qlen0, budget0)
  {
    var pos, queue, oversize, queuelen, budget := pos0, [], oversize0, qlen0, budget0;
    ghost var all := Build(cfg, s, m, r, s.lbb + pos0, r.data[pos0..], true, oversize0, qlen0, budget0);
    assert all.Built? ==> [] + all.segs == all.segs;
    while pos < |r.data|
      invariant pos0 <= pos <= |r.data|
      invariant all == Planned(cfg, s, m, r, pos, queue, oversize, queuelen, budget)
    {
      BuildStep(cfg, s, m, r, pos, queue, oversize, queuelen, budget);
      var ok, seg, over, qlen := NextSegment(cfg, s, m, r, pos, queue == [], oversize, queuelen, budget);
      if !ok { return Failed; }
      queue := queue + [seg];
      oversize, queuelen, budget := over, qlen, budget - seg.bufs - 1;
      pos := pos + |seg.data|;
    }
    assert r.data[pos..] == [];
    b := Built(queue, oversize, queuelen);
  }

  function Behind(queue: seq<Seg>, b: Built): Built {
    if b.Failed? then Failed else b.(segs := queue + b.segs)
  }

  /** What phase 3 will arrive at, when `queue` has been built for the bytes before `pos`. */
  function Planned(cfg: Config, s: Snd, m: int, r: Req, pos: int, queue: seq<Seg>, oversize: int, qlen: int, budget: int): Built
    requires cfg.Valid() && m > 0 && 0 <= pos <= |r.data|
  {
    Behind(queue, Build(cfg, s, m, r, s.lbb + pos, r.data[pos..], queue == [], oversize, qlen, budget))
  }

  /** One turn of the loop. */
  lemma BuildStep(cfg: Config, s: Snd, m: int, r: Req, pos: int, queue: seq<Seg>, oversize: int, qlen: int, budget: int)
    requires cfg.Valid() && m > 0 && 0 <= pos < |r.data|
    ensures var n := if |r.data| - pos > m then m else |r.data| - pos;
      var bufs := if r.copy then 1 else 2;
      var over := if r.copy then AllocLen(cfg, s, n, m, r.more, queue == []) - n else oversize;
      var seg := Seg(s.lbb + pos, r.data[pos..pos + n], false, bufs, !r.copy);
      Planned(cfg, s, m, r, pos, queue, oversize, qlen, budget) ==
        if budget < bufs || QueueFull(cfg, qlen + bufs) || budget < bufs + 1 then Failed
        else Planned(cfg, s, m, r, pos + n, queue + [seg], over, qlen + bufs, budget - bufs - 1)
  {
    var data := r.data[pos..];
    var n := if |r.data| - pos > m then m else |r.data| - pos;
    assert data[n..] == r.data[pos + n..] && data[..n] == r.data[pos..pos + n] && n == Min(|data|, m);
    var bufs := if r.copy then 1 else 2;
    var over := if r.copy then AllocLen(cfg, s, n, m, r.more, queue == []) - n else oversize;
    var seg := Seg(s.lbb + pos, data[..n], false, bufs, !r.copy);
    var rest := Build(cfg, s, m, r, s.lbb + pos + n, data[n..], false, over, qlen + bufs, budget - bufs - 1);
    if rest.Built? { assert queue + ([seg] + rest.segs) == (queue + [seg]) + rest.segs; }
  }

  /** Phases 1 and 2 of tcp_write: what would be added to the last unsent segment, recorded but not yet committed. */
  method PlanTail(cfg: Config, s: Snd, m: int, r: Req, last: Seg) returns (t: Tail)
    requires cfg.Valid() && 0 <= s.oversize && 0 <= m < 0x1_0000 && |last.data| < 0x1_0000
    ensures t == ExtendTail(cfg, s, m, r, last)
  {
    var len := |r.data|;
    var pos, used := 0, 0;
    var space := if m >= |last.data| then m - |last.data| else m + 0x1_0000 - |last.data|;  // u16_t
    var oversize, queuelen, budget := s.oversize, s.qlen, r.budget;
    if oversize > 0 {
      used := if oversize < len then oversize else len;
      if space < used { used := space; }
      pos, oversize, space := pos + used, oversize - used, space - used;
    }
    assert pos == used == if s.oversize > 0 then Min(Space(m, |last.data|), Min(s.oversize, len)) else 0;
    assert space == Space(m, |last.data|) - used && oversize == s.oversize - used;
    var bufs, rom := last.bufs, last.rom;
    if pos < len && space > 0 && |last.data| > 0 {
      var seglen := if space < len - pos then space else len - pos;
      if r.copy {
        if budget == 0 { return TailFailed; }
        var alloc := Prealloc(cfg, s, seglen, space, r.more, true);
        oversize := alloc - seglen;
        queuelen, budget, bufs, rom := queuelen + 1, budget - 1, bufs + 1, false;
      } else if !(last.rom && r.adjacent) {
        if budget == 0 { return TailFailed; }
        queuelen, budget, bufs, rom := queuelen + 1, budget - 1, bufs + 1, true;
      }
      pos := pos + seglen;
    }
    t := Tail(last.(data := last.data + r.data[..pos], bufs := bufs, rom := rom), pos, oversize, queuelen, budget);
  }

  /** Lengths and the oversize are unsigned 16-bit numbers. */
  predicate InRange(s: Snd) {
    && 0 < s.mss < 0x1_0000 && 0 <= s.wndMax && 0 <= s.oversize
    && (s.unsent != [] ==> |s.unsent[|s.unsent|-1].data| < 0x1_0000)
  }

  lemma OkInRange(cfg: Config, w: seq<Byte>, s: Snd)
    requires cfg.Valid() && SndOk(cfg, w, s) && s.mss < 0x1_0000
    ensures InRange(s)
  {
    if s.unsent != [] { AllOkLast(w, cfg.sndBuf, s.unsent); }
  }

  class TxPcb {
    const cfg: Config
    const mss: int
    const noDelay: bool
    var una: int
    var nxt: int
    var lbb: int
    var buf: int
    var qlen: int
    var unacked: seq<Seg>
    var unsent: seq<Seg>
    var oversize: int
    var wndMax: int
    var fin: Fin
    var inFr: bool
    var memErr: bool
    var dupacks: U8
    var wire: seq<Packet>  // what was handed to IP

    function Snd(): Snd
      reads this
    {
      SendSpec.Snd(una, nxt, lbb, buf, qlen, unacked, unsent, oversize, wndMax, mss, fin, inFr, memErr, noDelay, wire)
    }

    constructor (cfg: Config, mss: int, wndMax: int, noDelay: bool)
      requires cfg.Valid() && 0 < mss < 0x1_0000 && 0 <= wndMax
      ensures this.cfg == cfg && this.mss == mss && this.noDelay == noDelay
      ensures Snd() == Sender.Start(cfg, mss, wndMax, noDelay).s && Good(cfg, [], Snd())
    {
      this.cfg, this.mss, this.noDelay, this.wndMax := cfg, mss, noDelay, wndMax;
      una, nxt, lbb, buf, qlen, unacked, unsent, oversize := 0, 0, 0, cfg.sndBuf, 0, [], [], 0;
      fin, inFr, memErr, dupacks, wire := NoFin, false, false, 0, [];
      StartOk(cfg, mss, wndMax, noDelay);
    }

    /** tcp_write: everything is planned in locals, and committed only when no allocation is left. */
    method TcpWrite(r: Req) returns (e: Err)
      requires cfg.Valid() && InRange(Snd())
      modifies this`unsent, this`oversize, this`lbb, this`buf, this`qlen, this`memErr
      ensures (Snd(), e) == Write(cfg, old(Snd()), r)
    {
      WriteIsPlan(cfg, Snd(), r);
      var len := |r.data|;
      if fin != NoFin { return ErrConn; }
      if len > 0 && (len > buf || qlen >= cfg.sndQueue || qlen > 0xfffc) {
        memErr := true;
        return ErrMem;
      }
      var b := PlanWrite(cfg, Snd(), r);
      if b.Failed? {
        memErr := true;
        return ErrMem;
      }
      unsent, oversize, qlen := b.segs, b.oversize, b.qlen;
      lbb, buf := lbb + len, buf - len;
      e := ErrOk;
    }

    /** tcp_send_fin and tcp_enqueue_flags */
    method TcpSendFin(budget: nat) returns (e: Err)
      modifies this`unsent, this`oversize, this`lbb, this`qlen, this`memErr, this`fin
      ensures (Snd(), e) == SendFin(old(Snd()), budget)
    {
      if fin != NoFin { return ErrOk; }
      if unsent != [] {
        var k := |unsent| - 1;
        if !unsent[k].fin {
          unsent, fin := unsent[..k] + [unsent[k].(fin := true)], Riding;
          return ErrOk;
        }
      }
      if budget < 2 {
        memErr := true;
        return ErrMem;
      }
      unsent := unsent + [Seg(lbb, [], true, 1, false)];
      oversize, lbb, fin := 0, lbb + 1, Alone;
      qlen := qlen + 1;
      e := ErrOk;
    }

    /** `seqno - lastack + len <= wnd`, in 32 bits. */
    method HeadFits(wnd: int) returns (fits: bool)
      requires unsent != [] && Tight(Snd()) && 0 <= wnd < 0x1_0000
      ensures fits == FitsWindow(Snd(), unsent[0], wnd)
    {
      var x := unsent[0];
      BandHead(unsent, una - FAR, una + FAR);
      fits := Reach(x.pos, una, |x.data|) <= wnd;
      ReachIs(x.pos, una, |x.data|, wnd);
    }

    /** The head of `unsent` was transmitted. */
    method SendHead()
      requires unsent != [] && Ready(Snd())
      modifies this`unsent, this`unacked, this`nxt, this`wire
      ensures Snd() == Sent(old(Snd()))
    {
      var seg := unsent[0];
      ghost var lo, hi := una - FAR, una + FAR;
      BandHead(unsent, lo, hi);
      wire := wire + [OnWire(seg)];
      unsent := unsent[1..];
      var later := Lower(nxt, seg.End(), lo, hi);
      if later { nxt := seg.End(); }
      if seg.Len() > 0 {
        unacked := PutUnacked(unacked, seg, lo, hi);
      }
    }

    /** The loop of tcp_output. */
    method SendSegments(wnd: int, budget0: nat, ghost w: seq<Byte>) returns (done: bool)
      requires Good(cfg, w, Snd()) && 0 <= wnd < 0x1_0000
      modifies this`unsent, this`unacked, this`nxt, this`memErr, this`wire
      ensures (Snd(), done) == SendLoop(cfg, old(Snd()), wnd, budget0)
    {
      ghost var s0 := Snd();
      var budget := budget0;
      while unsent != []
        invariant Good(cfg, w, Snd()) && SendLoop(cfg, Snd(), wnd, budget) == SendLoop(cfg, s0, wnd, budget0)
        decreases |unsent|
      {
        GoodStep(cfg, w, Snd(), wnd);
        var fits := HeadFits(wnd);
        if !fits || !MaySend(cfg, Snd()) { break; }
        if budget == 0 {
          memErr := true;
          return false;
        }
        SendHead();
        budget := budget - 1;
      }
      done := true;
    }

    /**
      tcp_output. `sndWnd` and `cwnd` are the two windows, `ackNow` is TF_ACK_NOW,
      `inInput` says that this pcb is being processed by tcp_input, `route` that
      there is a way to the peer; `budget` transmissions succeed.
     */
    method TcpOutput(sndWnd: int, cwnd: int, inInput: bool, ackNow: bool, route: bool, budget: nat, ghost w: seq<Byte>)
      requires Good(cfg, w, Snd()) && 0 <= sndWnd < 0x1_0000 && 0 <= cwnd < 0x1_0000
      modifies this`unsent, this`unacked, this`nxt, this`memErr, this`oversize, this`wire
      ensures Snd() == Output(cfg, old(Snd()), OutOf(old(Snd()), sndWnd, cwnd, inInput, ackNow, route, budget))
    {
      if inInput { return; }
      var wnd := if sndWnd < cwnd then sndWnd else cwnd;
      var fits := false;
      if unsent != [] {
        GoodBand(cfg, w, Snd());
        fits := HeadFits(wnd);
      }
      // An empty ACK is sent instead, or there is no route.
      if (ackNow && !fits) || !route { return; }
      if !(unsent != [] && !fits && wnd > 0 && wnd == sndWnd && unacked == []) {
        var done := SendSegments(wnd, budget, w);
        if !done { return; }
      }
      if unsent == [] { oversize := 0; }
      memErr := false;
    }

    /** tcp_rexmit */
    method TcpRexmit()
      requires Tight(Snd())
      modifies this`unsent, this`unacked, this`oversize
      ensures Snd() == Rexmit(old(Snd()))
    {
      if unacked == [] { return; }
      var seg := unacked[0];
      ghost var lo, hi := una - FAR, una + FAR;
      BandHead(unacked, lo, hi);
      unacked := unacked[1..];
      var last;
      unsent, last := InsertSorted(unsent, seg, lo, hi);
      if last { oversize := 0; }
    }

    /** tcp_rexmit_rto */
    method TcpRexmitRto(sndWnd: int, cwnd: int, inInput: bool, ackNow: bool, route: bool, budget: nat, ghost w: seq<Byte>)
      requires SndOk(cfg, w, Snd()) && Good(cfg, w, Snd()) && 0 <= sndWnd < 0x1_0000 && 0 <= cwnd < 0x1_0000
      modifies this`unsent, this`unacked, this`nxt, this`memErr, this`oversize, this`wire
      ensures Snd() == Rto(cfg, old(Snd()), OutOf(Requeued(old(Snd())), sndWnd, cwnd, inInput, ackNow, route, budget))
    {
      if unacked == [] { return; }
      GoodRequeued(cfg, w, Snd());
      unsent, unacked := unacked + unsent, [];
      TcpOutput(sndWnd, cwnd, inInput, ackNow, route, budget, w);
    }

    /** tcp_zero_window_probe; `alloc`: there was memory for the probe; `sent`: there was a way to the peer. */
    method ZeroWindowProbe(alloc: bool, sent: bool) returns (e: Err)
      requires Tight(Snd())
      modifies this`nxt, this`wire
      ensures Snd() == if alloc then Probe(old(Snd()), sent) else old(Snd())
      ensures e == if unacked == [] && unsent == [] then ErrOk else if !alloc then ErrMem else if sent then ErrOk else ErrRte
    {
      var seg: Seg;
      ghost var lo, hi := una - FAR, una + FAR;
      if unacked != [] {
        seg := unacked[0];
        BandHead(unacked, lo, hi);
      } else if unsent != [] {
        seg := unsent[0];
        BandHead(unsent, lo, hi);
      } else {
        return ErrOk;
      }
      if !alloc { return ErrMem; }
      var later := Lower(nxt, seg.pos + 1, lo, hi + 1);
      if later { nxt := seg.pos + 1; }
      if !sent { return ErrRte; }
      var isFin := seg.data == [];
      wire := wire + [if isFin then Packet(seg.pos, [], true) else Packet(seg.pos, seg.data[..1], false)];
      e := ErrOk;
    }

    /** The first removal loop of an ACK. */
    method RemoveUnacked(ack: int, ghost lo: int, ghost hi: int) returns (acked: int)
      requires Band(unacked, lo, hi) && Near(hi, ack) && Near(lo, ack)
      modifies this`unacked, this`qlen
      ensures unacked == DropAcked(old(unacked), ack)
      ensures acked == SumLen(old(unacked)) - SumLen(unacked)
      ensures qlen == old(qlen) - SumBufs(old(unacked)) + SumBufs(unacked)
    {
      acked := 0;
      while unacked != [] && SeqLeq(Wrap(unacked[0].End()), Wrap(ack))
        invariant Band(unacked, lo, hi) && DropAcked(unacked, ack) == DropAcked(old(unacked), ack)
        invariant acked == SumLen(old(unacked)) - SumLen(unacked)
        invariant qlen == old(qlen) - SumBufs(old(unacked)) + SumBufs(unacked)
        invariant unacked != [] ==> Near(unacked[0].End(), ack)
        decreases |unacked|
      {
        var next := unacked[0];
        NearOrder(next.End(), ack);
        unacked := unacked[1..];
        qlen := qlen - next.bufs;
        acked := acked + |next.data|;
      }
      if unacked != [] { NearOrder(unacked[0].End(), ack); }
    }

    /** The second removal loop: segments that went back to `unsent` after they were sent. */
    method RemoveUnsent(ack: int, ghost lo: int, ghost hi: int) returns (acked: int)
      requires Band(unsent, lo, hi) && Near(ack, hi) && Near(ack, lo) && lo <= nxt <= hi
      modifies this`unsent, this`qlen, this`oversize
      ensures unsent == if ack > nxt then old(unsent) else DropAcked(old(unsent), ack)
      ensures acked == SumLen(old(unsent)) - SumLen(unsent)
      ensures qlen == old(qlen) - SumBufs(old(unsent)) + SumBufs(unsent)
      ensures oversize == if unsent == [] && old(unsent) != [] then 0 else old(oversize)
    {
      acked := 0;
      NearOrder(ack, nxt);
      while unsent != [] && SeqBetween(Wrap(ack), Wrap(unsent[0].End()), Wrap(nxt))
        invariant Band(unsent, lo, hi) && DropAcked(unsent, ack) == DropAcked(old(unsent), ack)
        invariant acked == SumLen(old(unsent)) - SumLen(unsent)
        invariant qlen == old(qlen) - SumBufs(old(unsent)) + SumBufs(unsent)
        invariant oversize == if unsent == [] && old(unsent) != [] then 0 else old(oversize)
        invariant ack > nxt ==> unsent == old(unsent)
        invariant unsent != [] ==> Near(ack, unsent[0].End())
        decreases |unsent|
      {
        var next := unsent[0];
        NearOrder(ack, next.End());
        unsent := unsent[1..];
        if unsent == [] { oversize := 0; }
        qlen := qlen - next.bufs;
        acked := acked + |next.data|;
      }
      if unsent != [] { NearOrder(ack, unsent[0].End()); }
    }

    /** The first part of an ACK: a duplicate, or acknowledged segments leave `unacked`. */
    method AckInFlight(ack: int, quiet: bool) returns (acked: int)
      requires Tight(Snd()) && AckNear(una, ack)
      modifies this`una, this`inFr, this`unacked, this`unsent, this`qlen, this`oversize, this`dupacks
      ensures var s1 := AckUnacked(old(Snd()), ack, quiet && ack == old(una) && old(dupacks) == 2);
        Snd() == s1.(buf := old(buf)) && s1.buf == old(buf) + acked
      ensures dupacks == DupAcks(old(una), nxt, ack, quiet, old(dupacks))
    {
      acked := 0;
      NearOrder(ack, una);
      NearOrder(ack, una + 1);
      NearOrder(ack, nxt);
      if SeqLeq(Wrap(ack), Wrap(una)) {
        DuplicateAck(ack, quiet);
      } else if SeqBetween(Wrap(ack), Wrap(una + 1), Wrap(nxt)) {
        ghost var lo, hi := una - FAR, una + FAR;
        inFr, dupacks, una := false, 0, ack;
        acked := RemoveUnacked(ack, lo, hi);
      }
    }

    /**
      The ACK half of tcp_receive. `update`: the window field is newer; `quiet`: no
      payload, the window did not change and the retransmission timer runs.
     */
    method AckReceived(ack: int, update: bool, wnd: int, quiet: bool)
      requires Tight(Snd()) && AckNear(una, ack)
      modifies this`una, this`inFr, this`unacked, this`unsent, this`buf, this`qlen, this`oversize, this`wndMax, this`dupacks
      ensures Snd() == Ack(old(Snd()), ack, if update && wnd > old(wndMax) then wnd else old(wndMax),
                           quiet && ack == old(una) && old(dupacks) == 2)
      ensures dupacks == DupAcks(old(una), nxt, ack, quiet, old(dupacks))
    {
      if update && wnd > wndMax { wndMax := wnd; }
      ghost var s0 := Snd();
      ghost var third := quiet && ack == s0.una && dupacks == 2;
      ghost var s1 := AckUnacked(s0, ack, third);
      AckedBand(s0, ack, third);
      var acked := AckInFlight(ack, quiet);
      assert Snd().(buf := buf + acked) == s1;
      AckWaiting(ack, acked, s0.una - FAR, s0.una + FAR);
      assert Snd() == AckUnsent(s1, ack);
    }

    /** The second part; all the space that became free is returned at once. */
    method AckWaiting(ack: int, acked: int, ghost lo: int, ghost hi: int)
      requires Band(unsent, lo, hi) && Near(ack, hi) && Near(ack, lo) && lo <= nxt <= hi
      modifies this`unsent, this`buf, this`qlen, this`oversize
      ensures Snd() == AckUnsent(old(Snd()).(buf := old(buf) + acked), ack)
    {
      var more := RemoveUnsent(ack, lo, hi);
      buf := buf + (acked + more);
    }

    /** Clauses 2 to 5 of the duplicate ACK rule. */
    method DuplicateAck(ack: int, quiet: bool)
      requires Tight(Snd()) && AckNear(una, ack) && ack <= una
      modifies this`inFr, this`unacked, this`unsent, this`oversize, this`dupacks
      ensures Snd() == AckUnacked(old(Snd()), ack, quiet && ack == una && old(dupacks) == 2)
      ensures dupacks == DupAcks(una, nxt, ack, quiet, old(dupacks))
    {
      NearOrder(una, ack);
      if quiet && Wrap(una) == Wrap(ack) {
        if (dupacks + 1) % 256 > dupacks { dupacks := dupacks + 1; }
        if dupacks == 3 && unacked != [] && !inFr {
          TcpRexmit();
          inFr := true;
        }
      } else {
        dupacks := 0;
      }
    }
  }

  /** The duplicate ACK counter, which stops at 255. */
  function DupAcks(una: int, nxt: int, ack: int, quiet: bool, dupacks: U8): U8 {
    if ack > una then (if ack <= nxt then 0 else dupacks)
    else if quiet && ack == una then (if dupacks < 255 then dupacks + 1 else dupacks)
    else 0
  }

  /** The counter after `n` duplicate ACKs in a row that follow a new one. */
  function DupsInARow(una: int, nxt: int, n: nat): U8 {
    if n == 0 then 0 else DupAcks(una, nxt, una, true, DupsInARow(una, nxt, n - 1))
  }

  /** The counter is right up to 255, so the clause for a fast retransmit holds at the third duplicate in a row and at no other. */
  lemma {:induction false} ThirdDuplicate(una: int, nxt: int, n: nat)
    ensures DupsInARow(una, nxt, n) == if n < 255 then n else 255
    ensures DupsInARow(una, nxt, n) == 2 <==> n == 2
  {
    if n > 0 { ThirdDuplicate(una, nxt, n - 1); }
  }

  /** An acknowledgement number that is within 2^31 of everything the sender knows. */
  predicate AckNear(una: int, ack: int) {
    -H32 + 4 * FAR <= ack - una <= H32 - 4 * FAR
  }

  /**
    Farther away the second removal loop may err: which acknowledgement numbers its
    32-bit test takes for acknowledging a segment that ends at `end`.
   */
  lemma FarAckIff(una: int, nxt: int, end: int, ack: int)
    requires -H32 <= ack - una < H32 && una <= nxt <= una + FAR && una - FAR <= end <= una + FAR && end <= nxt + FAR
    ensures SeqBetween(Wrap(ack), Wrap(end), Wrap(nxt)) <==> end <= ack <= nxt || nxt - H32 <= ack < end - H32
  {
    FarSigned(ack, end);
    FarSigned(ack, nxt);
  }

  lemma FarSigned(p: int, q: int)
    requires -H32 - 2 * FAR <= p - q < H32 + 2 * FAR
    ensures Signed(Sub(Wrap(p), Wrap(q))) ==
      if p - q < -H32 then p - q + M32 else if p - q < H32 then p - q else p - q - M32
  {
    WrapSub(p, q);
    var d := p - q;
    if d < -H32 { SignedDistance(d + M32, 0); WrapShift(d, 1); } else if d < H32 { SignedDistance(p, q); } else { SignedDistance(d - M32, 0); WrapShift(d, -1); }
  }

  /** After the head of `unacked` moved, or acknowledged segments went, `unsent` is still in the band. */
  lemma AckedBand(s: Snd, ack: int, third: bool)
    requires Tight(s)
    ensures var s1 := AckUnacked(s, ack, third);
      Band(s1.unsent, s.una - FAR, s.una + FAR) && s.una - FAR <= s1.nxt <= s.una + FAR
  {
    if s.unacked != [] {
      BandHead(s.unacked, s.una - FAR, s.una + FAR);
      AboveInsert(s.unsent, s.unacked[0], s.una - FAR);
      InsertBelow(s.unsent, s.unacked[0], s.una + FAR);
    }
  }

  /** All of `unacked` goes to the front of `unsent`. */
  function Requeued(s: Snd): Snd {
    s.(unsent := s.unacked + s.unsent, unacked := [])
  }

  lemma GoodRequeued(cfg: Config, w: seq<Byte>, s: Snd)
    requires SndOk(cfg, w, s) && Good(cfg, w, s) && s.unacked != []
    ensures Good(cfg, w, Requeued(s))
  {
    assert SndOk(cfg, w, Requeued(s)) by { RtoKeeps(cfg, w, s, Out(0, true, false, 0)); }
    RequeueClose(s);
  }

  /** What decides the course of tcp_output. */
  function OutOf(s: Snd, sndWnd: int, cwnd: int, inInput: bool, ackNow: bool, route: bool, budget: nat): Out {
    var wnd := Min(sndWnd, cwnd);
    var fits := s.unsent != [] && FitsWindow(s, s.unsent[0], wnd);
    Out(wnd, inInput || (ackNow && !fits) || !route,
        s.unsent != [] && !fits && wnd > 0 && wnd == sndWnd && s.unacked == [], budget)
  }

  /** What sending the head of `unsent` needs. */
  predicate Ready(s: Snd) {
    && Tight(s) && Sorted(s.unacked)
    && (s.unacked != [] && s.unsent != [] ==> s.unacked[|s.unacked|-1].pos != s.unsent[0].pos)
  }

  lemma GoodStep(cfg: Config, w: seq<Byte>, s: Snd, wnd: int)
    requires Good(cfg, w, s) && s.unsent != []
    ensures Ready(s) && (FitsWindow(s, s.unsent[0], wnd) ==> Good(cfg, w, Sent(s)))
  {
    GoodBand(cfg, w, s);
    if s.unacked != [] { StartsDiffer(cfg, w, s); }
    if FitsWindow(s, s.unsent[0], wnd) { GoodSent(cfg, w, s, wnd); }
  }

  /** `seqno - lastack + len` of 32-bit numbers. */
  function Reach(pos: int, una: int, len: int): int {
    Wrap(Sub(Wrap(pos), Wrap(una)) + len)
  }

  lemma ReachIs(pos: int, una: int, len: nat, wnd: int)
    requires -FAR <= pos - una && pos + len - una <= FAR && 0 <= wnd < 0x1_0000
    ensures Reach(pos, una, len) <= wnd <==> 0 <= pos + len - una <= wnd
  {
    WrapSub(pos, una);
    WrapShift(pos - una, len);
    var d := pos - una + len;
    assert Reach(pos, una, len) == Wrap(d);
    if d < 0 { assert Wrap(d) == d + M32; } else { assert Wrap(d) == d; }
  }

  /** The queue that phases 1 to 3 arrive at. */
  function Plan(cfg: Config, s: Snd, r: Req): Built
    requires cfg.Valid() && MssLocal(s) > 0
  {
    if s.unsent == [] then Build(cfg, s, MssLocal(s), r, s.lbb, r.data, true, 0, s.qlen, r.budget)
    else
      var t := ExtendTail(cfg, s, MssLocal(s), r, s.unsent[|s.unsent|-1]);
      if t.TailFailed? then Failed
      else Behind(s.unsent[..|s.unsent|-1] + [t.seg],
             Build(cfg, s, MssLocal(s), r, s.lbb + t.taken, r.data[t.taken..], true, t.oversize, t.qlen, t.budget))
  }

  lemma WriteIsPlan(cfg: Config, s: Snd, r: Req)
    requires cfg.Valid() && MssLocal(s) > 0
    ensures Write(cfg, s, r) ==
      if !s.fin.NoFin? then (s, ErrConn)
      else
        var b := Plan(cfg, s, r);
        if Refuses(cfg, s, |r.data|) || b.Failed? then (s.(memErr := true), ErrMem)
        else (Commit(s, b.segs, |r.data|, b.oversize, b.qlen), ErrOk)
  {
  }

  method PlanWrite(cfg: Config, s: Snd, r: Req) returns (b: Built)
    requires cfg.Valid() && InRange(s) && s.fin.NoFin?
    ensures b == Plan(cfg, s, r)
  {
    var m := MssLocal(s);
    if s.unsent == [] {
      b := BuildQueue(cfg, s, m, r, 0, 0, s.qlen, r.budget);
      assert r.data[0..] == r.data;
    } else {
      var last := s.unsent[|s.unsent|-1];
      var t := PlanTail(cfg, s, m, r, last);
      if t.TailFailed? { return Failed; }
      b := BuildQueue(cfg, s, m, r, t.taken, t.oversize, t.qlen, t.budget);
      if b.Built? {
        b := b.(segs := s.unsent[..|s.unsent|-1] + [t.seg] + b.segs);
      }
    }
  }
}
