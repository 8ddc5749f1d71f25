/**
  The sending side of one connection, on stream positions: tcp_write, the FIN,
  tcp_output, acknowledgements, fast retransmit, RTO retransmit and the zero
  window probe, as steps on the queues `unsent` and `unacked`.

  The handshake is over: the first byte written has position 0, and no segment
  carries a SYN or options. Windows and the outcome of every allocation and of
  every transmission are inputs of a step.
 */
module SendSpec {

  type Byte = bv8

  /** A queued segment; `bufs` is pbuf_clen of its chain, `rom` says that the last pbuf is PBUF_ROM. */
  datatype Seg = Seg(pos: int, data: seq<Byte>, fin: bool, bufs: int, rom: bool) {
    /** TCP_TCPLEN */
    function Len(): nat { |data| + if fin then 1 else 0 }
    function DataEnd(): int { pos + |data| }
    function End(): int { pos + Len() }
    predicate Has(p: int) { pos <= p < DataEnd() }
  }

  /** How our FIN was queued: not at all, as a segment of its own, or on the last data segment. */
  datatype Fin = NoFin | Alone | Riding

  /** TCP_SND_BUF, TCP_SND_QUEUELEN, TCP_OVERSIZE and MEM_ALIGNMENT. */
  datatype Config = Config(sndBuf: int, sndQueue: int, extra: int, align: int) {
    predicate Valid() { 0 < sndBuf < 0x1_0000 && 0 < sndQueue < 0x1_0000 && 0 <= extra && 0 < align }
  }

  /**
    `una` is lastack; `buf`, `qlen` and `oversize` are snd_buf, snd_queuelen and
    unsent_oversize; `inFr`, `memErr` and `noDelay` are flags. `wire` records what was
    handed to IP with data or a FIN, in order; no step reads it.
   */
  datatype Snd = Snd(una: int, nxt: int, lbb: int, buf: int, qlen: int,
                     unacked: seq<Seg>, unsent: seq<Seg>, oversize: int,
                     wndMax: int, mss: int, fin: Fin, inFr: bool, memErr: bool, noDelay: bool,
                     wire: seq<Packet>)

  /** What of a segment goes over the network. */
  datatype Packet = Packet(pos: int, data: seq<Byte>, fin: bool) {
    function End(): int { pos + |data| + if fin then 1 else 0 }
  }

  function OnWire(x: Seg): Packet {
    Packet(x.pos, x.data, x.fin)
  }

  datatype Err = ErrOk | ErrMem | ErrConn | ErrRte

  function Min(a: int, b: int): int { if a < b then a else b }

  /** The segment size tcp_write uses: at most half the largest window ever announced, if there was one. */
  function LocalMss(mss: int, wndMax: int): int {
    var m := Min(mss, wndMax / 2);
    if m == 0 then mss else m
  }

  function MssLocal(s: Snd): int {
    LocalMss(s.mss, s.wndMax)
  }

  // ---------------------------------------------------------------------------
  // tcp_write
  // ---------------------------------------------------------------------------

  /** What the caller passes and what the environment decides. `budget` allocations succeed. */
  datatype Req = Req(data: seq<Byte>, copy: bool, more: bool, adjacent: bool, budget: nat)

  function AlignUp(n: int, a: int): int
    requires a > 0
  {
    (n + a - 1) / a * a
  }

  /** The size tcp_pbuf_prealloc asks for. */
  function AllocLen(cfg: Config, s: Snd, len: int, max: int, more: bool, first: bool): int
    requires cfg.Valid()
  {
    if len < max && (more || (!s.noDelay && (!first || s.unsent != [] || s.unacked != [])))
    then Min(max, AlignUp(len + cfg.extra, cfg.align)) else len
  }

  predicate QueueFull(cfg: Config, qlen: int) {
    qlen > cfg.sndQueue || qlen > 0xfffc
  }

  datatype Built = Failed | Built(segs: seq<Seg>, oversize: int, qlen: int)

  /** Phase 3: new segments for `data`, which starts at position `pos`. */
  function Build(cfg: Config, s: Snd, m: int, r: Req, pos: int, data: seq<Byte>, first: bool,
                 oversize: int, qlen: int, budget: int): Built
    requires cfg.Valid() && m > 0
    decreases |data|
  {
    if data == [] then Built([], oversize, qlen)
    else
      var n := Min(|data|, m);
      var bufs := if r.copy then 1 else 2;
      // one allocation per pbuf and one for the segment
      if budget < bufs || QueueFull(cfg, qlen + bufs) || budget < bufs + 1 then Failed
      else
        var over := if r.copy then AllocLen(cfg, s, n, m, r.more, first) - n else oversize;
        var rest := Build(cfg, s, m, r, pos + n, data[n..], false, over, qlen + bufs, budget - bufs - 1);
        if rest.Failed? then Failed
        else Built([Seg(pos, data[..n], false, bufs, !r.copy)] + rest.segs, rest.oversize, rest.qlen)
  }

  /** What phases 1 and 2 add to the last unsent segment. */
  datatype Tail = TailFailed | Tail(seg: Seg, taken: int, oversize: int, qlen: int, budget: int)

  /** Usable space behind a segment of `len` bytes: `mss_local - len` in a u16_t, which wraps for a longer segment. */
  function Space(m: int, len: nat): nat {
    if len <= m then m - len else if len <= m + 0x1_0000 then m + 0x1_0000 - len else 0
  }

  function ExtendTail(cfg: Config, s: Snd, m: int, r: Req, last: Seg): (t: Tail)
    requires cfg.Valid()
    ensures t.Tail? ==> 0 <= t.taken <= |r.data|
  {
    var space := Space(m, |last.data|);
    var used := if s.oversize > 0 then Min(space, Min(s.oversize, |r.data|)) else 0;
    var over := s.oversize - used;
    var n := Min(space - used, |r.data| - used);
    if used < |r.data| && space - used > 0 && |last.data| > 0 then
      var seg := last.(data := last.data + r.data[..used + n]);
      if !r.copy && last.rom && r.adjacent then Tail(seg, used + n, over, s.qlen, r.budget)
      else if r.budget == 0 then TailFailed
      else if r.copy then
        Tail(seg.(bufs := last.bufs + 1, rom := false), used + n,
             AllocLen(cfg, s, n, space - used, r.more, true) - n, s.qlen + 1, r.budget - 1)
      else Tail(seg.(bufs := last.bufs + 1, rom := true), used + n, over, s.qlen + 1, r.budget - 1)
    else Tail(last.(data := last.data + r.data[..used]), used, over, s.qlen, r.budget)
  }

  predicate Refuses(cfg: Config, s: Snd, len: int) {
    len > 0 && (len > s.buf || s.qlen >= cfg.sndQueue || s.qlen > 0xfffc)
  }

  function Write(cfg: Config, s: Snd, r: Req): (Snd, Err)
    requires cfg.Valid() && MssLocal(s) > 0
  {
    var len := |r.data|;
    if !s.fin.NoFin? then (s, ErrConn)
    else if Refuses(cfg, s, len) then (s.(memErr := true), ErrMem)
    else
      var m := MssLocal(s);
      if s.unsent == [] then
        var b := Build(cfg, s, m, r, s.lbb, r.data, true, 0, s.qlen, r.budget);
        if b.Failed? then (s.(memErr := true), ErrMem)
        else (Commit(s, b.segs, len, b.oversize, b.qlen), ErrOk)
      else
        var k := |s.unsent| - 1;
        var t := ExtendTail(cfg, s, m, r, s.unsent[k]);
        if t.TailFailed? then (s.(memErr := true), ErrMem)
        else
          var b := Build(cfg, s, m, r, s.lbb + t.taken, r.data[t.taken..], true, t.oversize, t.qlen, t.budget);
          if b.Failed? then (s.(memErr := true), ErrMem)
          else (Commit(s, s.unsent[..k] + [t.seg] + b.segs, len, b.oversize, b.qlen), ErrOk)
  }

  function Commit(s: Snd, unsent: seq<Seg>, len: int, oversize: int, qlen: int): Snd {
    s.(unsent := unsent, oversize := oversize, lbb := s.lbb + len, buf := s.buf - len, qlen := qlen)
  }

  // ---------------------------------------------------------------------------
  // The other steps
  // ---------------------------------------------------------------------------

  /** tcp_send_fin, with tcp_enqueue_flags; needs two allocations for a segment of its own. */
  function SendFin(s: Snd, budget: nat): (Snd, Err) {
    if !s.fin.NoFin? then (s, ErrOk)
    else if s.unsent != [] && !s.unsent[|s.unsent|-1].fin then
      var k := |s.unsent| - 1;
      (s.(unsent := s.unsent[..k] + [s.unsent[k].(fin := true)], fin := Riding), ErrOk)
    else if budget < 2 then (s.(memErr := true), ErrMem)
    else (s.(unsent := s.unsent + [Seg(s.lbb, [], true, 1, false)], oversize := 0, lbb := s.lbb + 1,
             qlen := s.qlen + 1, fin := Alone), ErrOk)
  }

  /** Sorted insertion by sequence number, in front of the first segment that is not lower. */
  function Insert(q: seq<Seg>, x: Seg): seq<Seg> {
    if q != [] && q[0].pos < x.pos then [q[0]] + Insert(q[1..], x) else [x] + q
  }

  /** `seqno - lastack + len <= wnd` in unsigned arithmetic. */
  predicate FitsWindow(s: Snd, x: Seg, wnd: int) {
    0 <= x.DataEnd() - s.una <= wnd
  }

  /** tcp_do_output_nagle, or one of the flags that overrule it. */
  predicate MaySend(cfg: Config, s: Snd)
    requires s.unsent != []
  {
    || s.unacked == [] || s.noDelay || s.inFr
    || |s.unsent| > 1 || |s.unsent[0].data| >= s.mss
    || s.buf == 0 || s.qlen >= cfg.sndQueue
    || s.memErr || !s.fin.NoFin?
  }

  /** One segment leaves `unsent`. */
  function Sent(s: Snd): Snd
    requires s.unsent != []
  {
    var x := s.unsent[0];
    s.(unsent := s.unsent[1..], nxt := if s.nxt < x.End() then x.End() else s.nxt,
       unacked := if x.Len() > 0 then Insert(s.unacked, x) else s.unacked, wire := s.wire + [OnWire(x)])
  }

  /** The loop of tcp_output; `budget` transmissions succeed. */
  function SendLoop(cfg: Config, s: Snd, wnd: int, budget: nat): (Snd, bool)
    decreases |s.unsent|
  {
    if s.unsent == [] || !FitsWindow(s, s.unsent[0], wnd) || !MaySend(cfg, s) then (s, true)
    else if budget == 0 then (s.(memErr := true), false)
    else SendLoop(cfg, Sent(s), wnd, budget - 1)
  }

  /** What the environment of tcp_output decides. `hold`: an empty ACK is sent instead, or there is no route. */
  datatype Out = Out(wnd: int, hold: bool, persist: bool, budget: nat)

  function Output(cfg: Config, s: Snd, o: Out): Snd {
    if o.hold then s
    else
      var (t, done) := if o.persist then (s, true) else SendLoop(cfg, s, o.wnd, o.budget);
      if done then t.(memErr := false, oversize := if t.unsent == [] then 0 else t.oversize) else t
  }

  /** Leading segments that end at or before `ack` are removed. */
  function DropAcked(q: seq<Seg>, ack: int): seq<Seg> {
    if q != [] && q[0].End() <= ack then DropAcked(q[1..], ack) else q
  }

  /** tcp_rexmit: the first unacknowledged segment goes back to `unsent`. */
  function Rexmit(s: Snd): Snd {
    if s.unacked == [] then s
    else
      s.(unacked := s.unacked[1..], unsent := Insert(s.unsent, s.unacked[0]),
         oversize := if AllLower(s.unsent, s.unacked[0]) then 0 else s.oversize)
  }

  /** `x` sorts behind all of `q`. */
  predicate AllLower(q: seq<Seg>, x: Seg) {
    q != [] ==> q[0].pos < x.pos && AllLower(q[1..], x)
  }

  /** The first part of Ack: before `unsent` is looked at. */
  function AckUnacked(s: Snd, ack: int, third: bool): Snd {
    if ack <= s.una then
      if third && ack == s.una && !s.inFr && s.unacked != [] then Rexmit(s).(inFr := true) else s
    else if ack <= s.nxt then
      var q := DropAcked(s.unacked, ack);
      s.(una := ack, inFr := false, unacked := q, buf := s.buf + SumLen(s.unacked) - SumLen(q),
         qlen := s.qlen - SumBufs(s.unacked) + SumBufs(q))
    else s
  }

  /** The second part: acknowledged segments at the head of `unsent`. */
  function AckUnsent(s: Snd, ack: int): Snd {
    if ack > s.nxt then s
    else
      var q := DropAcked(s.unsent, ack);
      s.(unsent := q, oversize := if q == [] && s.unsent != [] then 0 else s.oversize,
         buf := s.buf + SumLen(s.unsent) - SumLen(q), qlen := s.qlen - SumBufs(s.unsent) + SumBufs(q))
  }

  /** The ACK half of tcp_receive. `third`: this is the third duplicate; `wndMax`: after the window update. */
  function Ack(s: Snd, ack: int, wndMax: int, third: bool): Snd {
    AckUnsent(AckUnacked(s.(wndMax := wndMax), ack, third), ack)
  }

  /** tcp_rexmit_rto */
  function Rto(cfg: Config, s: Snd, o: Out): Snd {
    if s.unacked == [] then s
    else Output(cfg, s.(unsent := s.unacked + s.unsent, unacked := []), o)
  }

  /** One byte, or the FIN, of a segment. */
  function ProbeOf(x: Seg): Packet {
    if x.data == [] then Packet(x.pos, [], true) else Packet(x.pos, x.data[..1], false)
  }

  /** tcp_zero_window_probe; `sent`: the probe could be handed to IP. */
  function Probe(s: Snd, sent: bool): Snd {
    var q := s.unacked + s.unsent;
    if q == [] then s
    else s.(nxt := if s.nxt < q[0].pos + 1 then q[0].pos + 1 else s.nxt,
            wire := if sent then s.wire + [ProbeOf(q[0])] else s.wire)
  }

  // ---------------------------------------------------------------------------
  // Invariants
  // ---------------------------------------------------------------------------

  function SumLen(q: seq<Seg>): int {
    if q == [] then 0 else |q[0].data| + SumLen(q[1..])
  }

  function SumBufs(q: seq<Seg>): int {
    if q == [] then 0 else q[0].bufs + SumBufs(q[1..])
  }

  /** How many segments of `q` hold the byte at `p`. */
  function Cnt(q: seq<Seg>, p: int): nat {
    if q == [] then 0 else (if q[0].Has(p) then 1 else 0) + Cnt(q[1..], p)
  }

  function FinCnt(q: seq<Seg>): nat {
    if q == [] then 0 else (if q[0].fin then 1 else 0) + FinCnt(q[1..])
  }

  /** A segment holds bytes of `w`, the bytes written so far, at their positions; one without data comes last. */
  predicate SegOk(w: seq<Byte>, m: int, x: Seg) {
    && 0 <= x.pos && x.DataEnd() <= |w| && x.data == w[x.pos..x.DataEnd()]
    && 0 < x.Len() && 0 < x.bufs && |x.data| <= m && (x.data == [] ==> x.pos == |w|)
  }

  predicate AllOk(w: seq<Byte>, m: int, q: seq<Seg>) {
    q != [] ==> SegOk(w, m, q[0]) && AllOk(w, m, q[1..])
  }

  predicate Sorted(q: seq<Seg>) {
    |q| > 1 ==> q[0].pos <= q[1].pos && Sorted(q[1..])
  }

  /** Every segment of `q` ends at or before `e`. */
  predicate AllBelow(q: seq<Seg>, e: int) {
    q != [] ==> q[0].End() <= e && AllBelow(q[1..], e)
  }

  /** Every byte is held by at most one segment, and every byte not acknowledged by exactly one. */
  ghost predicate HeldOnce(w: seq<Byte>, s: Snd) {
    && (forall p {:trigger Cnt(s.unsent, p)} :: Cnt(s.unacked, p) + Cnt(s.unsent, p) <= 1)
    && (forall p {:trigger Cnt(s.unsent, p)} :: s.una <= p < |w| ==> Cnt(s.unacked, p) + Cnt(s.unsent, p) == 1)
  }

  predicate Totals(cfg: Config, s: Snd) {
    && 0 <= s.buf && s.buf + SumLen(s.unacked) + SumLen(s.unsent) == cfg.sndBuf
    && s.qlen == SumBufs(s.unacked) + SumBufs(s.unsent)
  }

  /** One more than snd_lbb may be sent when the FIN rides on a data segment. */
  function Limit(s: Snd): int {
    s.lbb + if s.fin.Riding? then 1 else 0
  }

  predicate Numbers(w: seq<Byte>, s: Snd) {
    && 0 <= s.una <= s.nxt <= Limit(s)
    && s.lbb == |w| + (if s.fin.Alone? then 1 else 0)
    && Sorted(s.unacked) && AllBelow(s.unacked, s.nxt)
    && FinCnt(s.unacked) + FinCnt(s.unsent) <= if s.fin.NoFin? then 0 else 1
  }

  /** Room is recorded behind the last unsent segment only where that ends at snd_lbb. */
  predicate TailFits(w: seq<Byte>, s: Snd) {
    s.unsent != [] ==> 0 <= s.oversize && (s.oversize > 0 ==> s.unsent[|s.unsent|-1].DataEnd() == |w|)
  }

  /** Everything but the oversize of an empty `unsent`. */
  ghost predicate Core(cfg: Config, w: seq<Byte>, s: Snd) {
    && 0 < s.mss && 0 <= s.wndMax
    && AllOk(w, cfg.sndBuf, s.unacked) && AllOk(w, cfg.sndBuf, s.unsent)
    && HeldOnce(w, s) && Totals(cfg, s) && Numbers(w, s) && TailFits(w, s)
  }

  /** The invariant of the sender when `w` was written so far. */
  ghost predicate SndOk(cfg: Config, w: seq<Byte>, s: Snd) {
    Core(cfg, w, s) && (s.unsent == [] ==> s.oversize == 0)
  }

  // ---------------------------------------------------------------------------
  // Sequences of segments
  // ---------------------------------------------------------------------------

  lemma {:induction false} Split(a: seq<Seg>, b: seq<Seg>)
    ensures SumLen(a + b) == SumLen(a) + SumLen(b)
    ensures SumBufs(a + b) == SumBufs(a) + SumBufs(b)
    ensures FinCnt(a + b) == FinCnt(a) + FinCnt(b)
  {
    if a == [] {
      assert a + b == b;
    } else {
      Split(a[1..], b);
      assert (a + b)[1..] == a[1..] + b;
    }
  }

  lemma {:induction false} CntSplit(a: seq<Seg>, b: seq<Seg>, p: int)
    ensures Cnt(a + b, p) == Cnt(a, p) + Cnt(b, p)
  {
    if a == [] {
      assert a + b == b;
    } else {
      CntSplit(a[1..], b, p);
      assert (a + b)[1..] == a[1..] + b;
    }
  }

  lemma {:induction false} AllOkSplit(w: seq<Byte>, m: int, a: seq<Seg>, b: seq<Seg>)
    ensures AllOk(w, m, a + b) <==> AllOk(w, m, a) && AllOk(w, m, b)
  {
    if a == [] {
      assert a + b == b;
    } else {
      AllOkSplit(w, m, a[1..], b);
      assert (a + b)[1..] == a[1..] + b;
    }
  }

  /** What was right stays right when more is written and the segment size grows. */
  lemma {:induction false} AllOkGrows(w: seq<Byte>, more: seq<Byte>, m: int, m': int, q: seq<Seg>)
    requires AllOk(w, m, q) && m <= m' && (more == [] || FinCnt(q) == 0)
    ensures AllOk(w + more, m', q)
  {
    if q != [] {
      assert (w + more)[q[0].pos..q[0].DataEnd()] == w[q[0].pos..q[0].DataEnd()];
      AllOkGrows(w, more, m, m', q[1..]);
    }
  }

  lemma {:induction false} CntOutside(w: seq<Byte>, m: int, q: seq<Seg>, p: int)
    requires AllOk(w, m, q) && (p < 0 || p >= |w|)
    ensures Cnt(q, p) == 0
  {
    if q != [] { CntOutside(w, m, q[1..], p); }
  }

  lemma {:induction false} InsertFacts(w: seq<Byte>, m: int, q: seq<Seg>, x: Seg)
    ensures SumLen(Insert(q, x)) == SumLen(q) + |x.data|
    ensures SumBufs(Insert(q, x)) == SumBufs(q) + x.bufs
    ensures FinCnt(Insert(q, x)) == FinCnt(q) + if x.fin then 1 else 0
    ensures AllOk(w, m, q) && SegOk(w, m, x) ==> AllOk(w, m, Insert(q, x))
    ensures Insert(q, x) != [] && (q != [] && q[0].pos < x.pos ==> Insert(q, x)[0] == q[0])
    ensures Sorted(q) ==> Sorted(Insert(q, x))
  {
    var r := Insert(q, x);
    if q != [] && q[0].pos < x.pos {
      InsertFacts(w, m, q[1..], x);
      assert r[1..] == Insert(q[1..], x);
    } else {
      assert r[1..] == q;
    }
  }

  lemma {:induction false} InsertCnt(q: seq<Seg>, x: Seg, p: int)
    ensures Cnt(Insert(q, x), p) == Cnt(q, p) + if x.Has(p) then 1 else 0
  {
    var r := Insert(q, x);
    if q != [] && q[0].pos < x.pos {
      InsertCnt(q[1..], x, p);
      assert r[1..] == Insert(q[1..], x);
    } else {
      assert r[1..] == q;
    }
  }

  lemma {:induction false} InsertBelow(q: seq<Seg>, x: Seg, e: int)
    requires AllBelow(q, e) && x.End() <= e
    ensures AllBelow(Insert(q, x), e)
  {
    var r := Insert(q, x);
    if q != [] && q[0].pos < x.pos {
      InsertBelow(q[1..], x, e);
      assert r[1..] == Insert(q[1..], x);
    } else {
      assert r[1..] == q;
    }
  }

  /** The last segment is the new one exactly if all others are lower, else it is the old last one. */
  lemma {:induction false} InsertLast(q: seq<Seg>, x: Seg)
    ensures var r := Insert(q, x);
      r != [] && r[|r|-1] == if AllLower(q, x) then x else q[|q|-1]
  {
    var r := Insert(q, x);
    if q != [] && q[0].pos < x.pos {
      InsertLast(q[1..], x);
      var r1 := Insert(q[1..], x);
      assert r == [q[0]] + r1;
      assert !AllLower(q[1..], x) ==> q[1..] != [];
    } else if q != [] {
      assert r == [x] + q;
    }
  }

  lemma AllBelowWeaken(q: seq<Seg>, e: int, e': int)
    requires AllBelow(q, e) && e <= e'
    ensures AllBelow(q, e')
  {
  }

  /** Dropping acknowledged segments removes a prefix, and only bytes below `ack`. */
  lemma {:induction false} DropFacts(w: seq<Byte>, m: int, q: seq<Seg>, ack: int, e: int)
    requires AllOk(w, m, q)
    ensures var r := DropAcked(q, ack);
      && AllOk(w, m, r) && SumLen(r) <= SumLen(q) && FinCnt(r) <= FinCnt(q) && |r| <= |q|
      && r == q[|q|-|r|..]
      && (Sorted(q) ==> Sorted(r)) && (AllBelow(q, e) ==> AllBelow(r, e))
      && (r != [] ==> r[0].End() > ack)
  {
    if q != [] && q[0].End() <= ack {
      DropFacts(w, m, q[1..], ack, e);
      var r := DropAcked(q, ack);
      assert q[1..][|q|-1-|r|..] == q[|q|-|r|..];
    } else {
      assert q[0..] == q;
    }
  }

  lemma {:induction false} DropCnt(q: seq<Seg>, ack: int, p: int)
    ensures Cnt(DropAcked(q, ack), p) <= Cnt(q, p)
    ensures p >= ack ==> Cnt(DropAcked(q, ack), p) == Cnt(q, p)
  {
    if q != [] && q[0].End() <= ack { DropCnt(q[1..], ack, p); }
  }

  // ---------------------------------------------------------------------------
  // tcp_output, retransmission, acknowledgement
  // ---------------------------------------------------------------------------

  lemma {:induction false} AllOkMember(w: seq<Byte>, m: int, q: seq<Seg>, x: Seg)
    requires AllOk(w, m, q) && x in q
    ensures SegOk(w, m, x) && (x.fin ==> FinCnt(q) > 0)
  {
    if q[0] != x { AllOkMember(w, m, q[1..], x); }
  }

  /** No queued segment reaches past the limit, and none is empty: tcp_output never frees one. */
  lemma SegmentBounds(cfg: Config, w: seq<Byte>, s: Snd, x: Seg)
    requires Core(cfg, w, s) && (x in s.unacked || x in s.unsent)
    ensures x.Len() > 0 && x.End() <= Limit(s)
  {
    if x in s.unsent { AllOkMember(w, cfg.sndBuf, s.unsent, x); } else { AllOkMember(w, cfg.sndBuf, s.unacked, x); }
  }

  lemma SentKeeps(cfg: Config, w: seq<Byte>, s: Snd)
    requires Core(cfg, w, s) && s.unsent != []
    ensures Core(cfg, w, Sent(s))
  {
    var x := s.unsent[0];
    var s' := Sent(s);
    SegmentBounds(cfg, w, s, x);
    InsertFacts(w, cfg.sndBuf, s.unacked, x);
    AllBelowWeaken(s.unacked, s.nxt, s'.nxt);
    InsertBelow(s.unacked, x, s'.nxt);
    forall p ensures Cnt(s'.unacked, p) + Cnt(s'.unsent, p) == Cnt(s.unacked, p) + Cnt(s.unsent, p) {
      InsertCnt(s.unacked, x, p);
    }
    assert s'.unsent != [] ==> s'.unsent[|s'.unsent|-1] == s.unsent[|s.unsent|-1];
  }

  lemma {:induction false} SendLoopKeeps(cfg: Config, w: seq<Byte>, s: Snd, wnd: int, budget: nat)
    requires Core(cfg, w, s)
    ensures Core(cfg, w, SendLoop(cfg, s, wnd, budget).0)
    ensures !SendLoop(cfg, s, wnd, budget).1 ==> SendLoop(cfg, s, wnd, budget).0.unsent != []
    decreases |s.unsent|
  {
    if s.unsent == [] || !FitsWindow(s, s.unsent[0], wnd) || !MaySend(cfg, s) {
    } else if budget == 0 {
      assert Core(cfg, w, s.(memErr := true));
    } else {
      SentKeeps(cfg, w, s);
      SendLoopKeeps(cfg, w, Sent(s), wnd, budget - 1);
    }
  }

  lemma OutputKeeps(cfg: Config, w: seq<Byte>, s: Snd, o: Out)
    requires SndOk(cfg, w, s)
    ensures SndOk(cfg, w, Output(cfg, s, o))
  {
    SendLoopKeeps(cfg, w, s, o.wnd, o.budget);
  }

  lemma RexmitHeld(w: seq<Byte>, s: Snd)
    requires s.unacked != [] && HeldOnce(w, s)
    ensures HeldOnce(w, Rexmit(s))
  {
    var s' := Rexmit(s);
    forall p ensures Cnt(s'.unacked, p) + Cnt(s'.unsent, p) == Cnt(s.unacked, p) + Cnt(s.unsent, p) {
      InsertCnt(s.unsent, s.unacked[0], p);
    }
  }

  lemma RexmitKeeps(cfg: Config, w: seq<Byte>, s: Snd)
    requires SndOk(cfg, w, s)
    ensures SndOk(cfg, w, Rexmit(s))
  {
    if s.unacked != [] {
      InsertFacts(w, cfg.sndBuf, s.unsent, s.unacked[0]);
      InsertLast(s.unsent, s.unacked[0]);
      RexmitHeld(w, s);
    }
  }

  lemma RtoKeeps(cfg: Config, w: seq<Byte>, s: Snd, o: Out)
    requires SndOk(cfg, w, s)
    ensures SndOk(cfg, w, Rto(cfg, s, o))
  {
    if s.unacked != [] {
      var s1 := s.(unsent := s.unacked + s.unsent, unacked := []);
      Split(s.unacked, s.unsent);
      AllOkSplit(w, cfg.sndBuf, s.unacked, s.unsent);
      forall p ensures Cnt(s1.unacked, p) + Cnt(s1.unsent, p) == Cnt(s.unacked, p) + Cnt(s.unsent, p) {
        CntSplit(s.unacked, s.unsent, p);
      }
      RtoTail(w, s);
      OutputKeeps(cfg, w, s1, o);
    }
  }

  lemma RtoTail(w: seq<Byte>, s: Snd)
    requires s.unacked != [] && TailFits(w, s) && (s.unsent == [] ==> s.oversize == 0)
    ensures TailFits(w, s.(unsent := s.unacked + s.unsent, unacked := []))
  {
    var q := s.unacked + s.unsent;
    if s.unsent != [] {
      assert q[|q|-1] == s.unsent[|s.unsent|-1];
    }
  }

  lemma {:induction false} AllOkLast(w: seq<Byte>, m: int, q: seq<Seg>)
    requires AllOk(w, m, q) && q != []
    ensures SegOk(w, m, q[|q|-1])
  {
    if |q| > 1 { AllOkLast(w, m, q[1..]); }
  }

  lemma ProbeKeeps(cfg: Config, w: seq<Byte>, s: Snd, sent: bool)
    requires SndOk(cfg, w, s)
    ensures SndOk(cfg, w, Probe(s, sent))
  {
    var q := s.unacked + s.unsent;
    if q != [] && s.nxt < q[0].pos + 1 {
      AllBelowWeaken(s.unacked, s.nxt, q[0].pos + 1);
    }
  }

  /** The largest window seen is no part of the invariant. */
  lemma WindowKeeps(cfg: Config, w: seq<Byte>, s: Snd, wndMax: int)
    requires SndOk(cfg, w, s) && 0 <= wndMax
    ensures SndOk(cfg, w, s.(wndMax := wndMax))
  {
  }

  lemma NewAckKeeps(cfg: Config, w: seq<Byte>, s: Snd, ack: int)
    requires SndOk(cfg, w, s) && s.una < ack <= s.nxt
    ensures SndOk(cfg, w, AckUnacked(s, ack, false))
  {
    var s' := AckUnacked(s, ack, false);
    DropFacts(w, cfg.sndBuf, s.unacked, ack, s.nxt);
    forall p
      ensures Cnt(s'.unacked, p) <= Cnt(s.unacked, p) && (p >= ack ==> Cnt(s'.unacked, p) == Cnt(s.unacked, p))
    {
      DropCnt(s.unacked, ack, p);
    }
    assert HeldOnce(w, s');
  }

  lemma AckUnackedKeeps(cfg: Config, w: seq<Byte>, s: Snd, ack: int, third: bool)
    requires SndOk(cfg, w, s)
    ensures SndOk(cfg, w, AckUnacked(s, ack, third))
    ensures ack <= s.nxt ==> ack <= AckUnacked(s, ack, third).una
  {
    if ack <= s.una {
      RexmitKeeps(cfg, w, s);
    } else if ack <= s.nxt {
      NewAckKeeps(cfg, w, s, ack);
    }
  }

  lemma AckUnsentKeeps(cfg: Config, w: seq<Byte>, s: Snd, ack: int)
    requires SndOk(cfg, w, s) && (ack <= s.nxt ==> ack <= s.una)
    ensures SndOk(cfg, w, AckUnsent(s, ack))
  {
    if ack <= s.nxt {
      var s' := AckUnsent(s, ack);
      DropFacts(w, cfg.sndBuf, s.unsent, ack, s.nxt);
      forall p
        ensures Cnt(s'.unsent, p) <= Cnt(s.unsent, p) && (p >= ack ==> Cnt(s'.unsent, p) == Cnt(s.unsent, p))
      {
        DropCnt(s.unsent, ack, p);
      }
      assert s'.unsent != [] ==> s'.unsent[|s'.unsent|-1] == s.unsent[|s.unsent|-1];
    }
  }

  lemma AckKeeps(cfg: Config, w: seq<Byte>, s: Snd, ack: int, wndMax: int, third: bool)
    requires SndOk(cfg, w, s) && 0 <= wndMax
    ensures SndOk(cfg, w, Ack(s, ack, wndMax, third))
  {
    WindowKeeps(cfg, w, s, wndMax);
    AckUnackedKeeps(cfg, w, s.(wndMax := wndMax), ack, third);
    AckUnsentKeeps(cfg, w, AckUnacked(s.(wndMax := wndMax), ack, third), ack);
  }

  lemma SendFinKeeps(cfg: Config, w: seq<Byte>, s: Snd, budget: nat)
    requires SndOk(cfg, w, s)
    ensures SndOk(cfg, w, SendFin(s, budget).0)
  {
    if !s.fin.NoFin? {
    } else if s.unsent != [] && !s.unsent[|s.unsent|-1].fin {
      FinRidesKeeps(cfg, w, s);
    } else if budget >= 2 {
      FinAloneKeeps(cfg, w, s);
    }
  }

  lemma FinRidesKeeps(cfg: Config, w: seq<Byte>, s: Snd)
    requires SndOk(cfg, w, s) && s.fin.NoFin? && s.unsent != [] && !s.unsent[|s.unsent|-1].fin
    ensures var k := |s.unsent| - 1;
      SndOk(cfg, w, s.(unsent := s.unsent[..k] + [s.unsent[k].(fin := true)], fin := Riding))
  {
    var k := |s.unsent| - 1;
    var x, x' := s.unsent[k], s.unsent[k].(fin := true);
    var q := s.unsent[..k] + [x'];
    RideTotals(w, cfg.sndBuf, s.unsent, x');
    forall p ensures Cnt(q, p) == Cnt(s.unsent, p) {
      CntSplit(s.unsent[..k], [x], p);
      CntSplit(s.unsent[..k], [x'], p);
      assert s.unsent == s.unsent[..k] + [x];
    }
  }

  lemma FinAloneKeeps(cfg: Config, w: seq<Byte>, s: Snd)
    requires SndOk(cfg, w, s) && s.fin.NoFin?
    ensures SndOk(cfg, w, s.(unsent := s.unsent + [Seg(s.lbb, [], true, 1, false)], oversize := 0,
                             lbb := s.lbb + 1, qlen := s.qlen + 1, fin := Alone))
  {
    var x := Seg(s.lbb, [], true, 1, false);
    assert SegOk(w, cfg.sndBuf, x);
    Split(s.unsent, [x]);
    AllOkSplit(w, cfg.sndBuf, s.unsent, [x]);
    forall p ensures Cnt(s.unsent + [x], p) == Cnt(s.unsent, p) { CntSplit(s.unsent, [x], p); }
  }

  lemma RideTotals(w: seq<Byte>, m: int, q: seq<Seg>, x': Seg)
    requires q != [] && AllOk(w, m, q) && x' == q[|q|-1].(fin := true) && !q[|q|-1].fin
    ensures var q' := q[..|q|-1] + [x'];
      AllOk(w, m, q') && SumLen(q') == SumLen(q) && SumBufs(q') == SumBufs(q) && FinCnt(q') == FinCnt(q) + 1
  {
    var a, x := q[..|q|-1], q[|q|-1];
    assert q == a + [x];
    Split(a, [x]);
    Split(a, [x']);
    AllOkSplit(w, m, a, [x]);
    AllOkSplit(w, m, a, [x']);
  }

  // ---------------------------------------------------------------------------
  // tcp_write
  // ---------------------------------------------------------------------------

  lemma AllocLenFacts(cfg: Config, s: Snd, len: int, max: int, more: bool, first: bool)
    requires cfg.Valid() && 0 <= len <= max
    ensures len <= AllocLen(cfg, s, len, max, more, first) <= max
  {
    var n, a := len + cfg.extra, cfg.align;
    assert n + a - 1 == (n + a - 1) / a * a + (n + a - 1) % a;
  }

  /** More data is announced, or Nagle's rule will let the segment wait for more. */
  predicate MoreExpected(s: Snd, more: bool, first: bool) {
    more || (!s.noDelay && !(first && s.unsent == [] && s.unacked == []))
  }

  /** Spare room is asked for exactly where more data is expected and fits: TCP_OVERSIZE bytes at least, or all there is. */
  lemma AllocSpareIff(cfg: Config, s: Snd, len: int, max: int, more: bool, first: bool)
    requires cfg.Valid() && cfg.extra > 0 && 0 <= len <= max
    ensures var a := AllocLen(cfg, s, len, max, more, first);
      && (a > len <==> len < max && MoreExpected(s, more, first))
      && (a > len ==> a >= Min(max, len + cfg.extra))
  {
    var n, a := len + cfg.extra, cfg.align;
    assert n + a - 1 == (n + a - 1) / a * a + (n + a - 1) % a;
  }

  /** The segments of phase 3 hold exactly `data`, each byte once. */
  predicate BuiltOk(w: seq<Byte>, k: int, len: int, b: Built) {
    b.Built? ==>
      && AllOk(w, k, b.segs) && SumLen(b.segs) == len && FinCnt(b.segs) == 0
      && (b.segs == [] <==> len == 0)
  }

  lemma {:induction false} BuildFacts(cfg: Config, s: Snd, m: int, r: Req, pos: int, data: seq<Byte>, first: bool,
                                      oversize: int, qlen: int, budget: int, w: seq<Byte>, k: int)
    requires cfg.Valid() && m > 0 && 0 <= pos && pos + |data| == |w| && data == w[pos..] && |data| <= k
    ensures BuiltOk(w, k, |data|, Build(cfg, s, m, r, pos, data, first, oversize, qlen, budget))
    decreases |data|
  {
    var b := Build(cfg, s, m, r, pos, data, first, oversize, qlen, budget);
    if data != [] && b.Built? {
      var n := Min(|data|, m);
      var bufs := if r.copy then 1 else 2;
      var over := if r.copy then AllocLen(cfg, s, n, m, r.more, first) - n else oversize;
      assert data[n..] == w[pos + n..];
      BuildFacts(cfg, s, m, r, pos + n, data[n..], false, over, qlen + bufs, budget - bufs - 1, w, k);
      var x := Seg(pos, data[..n], false, bufs, !r.copy);
      assert data[..n] == w[pos..pos + n];
      assert SegOk(w, k, x);
      assert b.segs[1..] == Build(cfg, s, m, r, pos + n, data[n..], false, over, qlen + bufs, budget - bufs - 1).segs;
    }
  }

  lemma {:induction false} BuildCnt(cfg: Config, s: Snd, m: int, r: Req, pos: int, data: seq<Byte>, first: bool,
                                    oversize: int, qlen: int, budget: int, p: int)
    requires cfg.Valid() && m > 0
    ensures var b := Build(cfg, s, m, r, pos, data, first, oversize, qlen, budget);
      b.Built? ==>
        && b.qlen == qlen + SumBufs(b.segs)
        && Cnt(b.segs, p) == if pos <= p < pos + |data| then 1 else 0
    decreases |data|
  {
    var b := Build(cfg, s, m, r, pos, data, first, oversize, qlen, budget);
    if data != [] && b.Built? {
      var n := Min(|data|, m);
      var bufs := if r.copy then 1 else 2;
      var over := if r.copy then AllocLen(cfg, s, n, m, r.more, first) - n else oversize;
      BuildCnt(cfg, s, m, r, pos + n, data[n..], false, over, qlen + bufs, budget - bufs - 1, p);
      assert b.segs[1..] == Build(cfg, s, m, r, pos + n, data[n..], false, over, qlen + bufs, budget - bufs - 1).segs;
    }
  }

  /** The last new segment ends where the data ends. */
  predicate BuiltTail(end: int, none: bool, oversize: int, b: Built) {
    b.Built? ==>
      if none then b.segs == [] && b.oversize == oversize
      else b.segs != [] && b.segs[|b.segs|-1].DataEnd() == end && 0 <= b.oversize
  }

  lemma {:induction false} BuildTail(cfg: Config, s: Snd, m: int, r: Req, pos: int, data: seq<Byte>, first: bool,
                                     oversize: int, qlen: int, budget: int)
    requires cfg.Valid() && m > 0 && 0 <= oversize
    ensures BuiltTail(pos + |data|, data == [], oversize, Build(cfg, s, m, r, pos, data, first, oversize, qlen, budget))
    decreases |data|
  {
    var b := Build(cfg, s, m, r, pos, data, first, oversize, qlen, budget);
    if data != [] && b.Built? {
      var n := Min(|data|, m);
      var bufs := if r.copy then 1 else 2;
      AllocLenFacts(cfg, s, n, m, r.more, first);
      var over := if r.copy then AllocLen(cfg, s, n, m, r.more, first) - n else oversize;
      BuildTail(cfg, s, m, r, pos + n, data[n..], false, over, qlen + bufs, budget - bufs - 1);
      var rest := Build(cfg, s, m, r, pos + n, data[n..], false, over, qlen + bufs, budget - bufs - 1);
      assert b.segs == [b.segs[0]] + rest.segs;
    }
  }

  /**
    The last unsent segment ends at snd_lbb, or is full. After a fast retransmit
    that could not be sent this may fail: the last unsent segment is then an old one.
   */
  predicate TailAtEnd(w: seq<Byte>, s: Snd) {
    s.unsent != [] ==>
      var last := s.unsent[|s.unsent|-1];
      last.DataEnd() == |w| || |last.data| == MssLocal(s)
  }

  /** What phases 1 and 2 do to the last unsent segment: how much they take, and that they take nothing from a full one. */
  predicate TailGood(s: Snd, r: Req, last: Seg, t: Tail) {
    t.Tail? ==>
      && 0 <= t.taken <= |r.data| && t.seg.data == last.data + r.data[..t.taken]
      && t.seg.pos == last.pos && t.seg.fin == last.fin && t.seg.bufs == last.bufs + t.qlen - s.qlen
      && t.seg.bufs >= last.bufs && 0 <= t.oversize
      && (t.taken > 0 <==> r.data != [] && |last.data| != MssLocal(s))
      && (r.data == [] ==> t.seg == last && t.oversize == s.oversize && t.qlen == s.qlen)
  }

  lemma TailFacts(cfg: Config, w: seq<Byte>, s: Snd, r: Req)
    requires cfg.Valid() && SndOk(cfg, w, s) && s.fin.NoFin? && s.unsent != []
    ensures var last := s.unsent[|s.unsent|-1];
      TailGood(s, r, last, ExtendTail(cfg, s, MssLocal(s), r, last))
  {
    var last, m := s.unsent[|s.unsent|-1], MssLocal(s);
    AllOkLast(w, cfg.sndBuf, s.unsent);
    NoFins(s.unsent);
    TailIsGood(cfg, s, r, last);
  }

  lemma TailIsGood(cfg: Config, s: Snd, r: Req, last: Seg)
    requires cfg.Valid() && 0 < |last.data| < 0x1_0000 && 0 < MssLocal(s) && 0 <= s.oversize
    ensures TailGood(s, r, last, ExtendTail(cfg, s, MssLocal(s), r, last))
  {
    var space := Space(MssLocal(s), |last.data|);
    var used := if s.oversize > 0 then Min(space, Min(s.oversize, |r.data|)) else 0;
    var n := Min(space - used, |r.data| - used);
    if used < |r.data| && space - used > 0 {
      AllocLenFacts(cfg, s, n, space - used, r.more, true);
    }
  }

  lemma {:induction false} SumNonNegative(q: seq<Seg>)
    ensures SumLen(q) >= 0
    ensures q != [] ==> SumLen(q) >= |q[|q|-1].data|
  {
    if q != [] { SumNonNegative(q[1..]); }
  }

  /** What is written fits the buffer together with the segment it is added to. */
  lemma WriteBound(cfg: Config, s: Snd)
    requires Totals(cfg, s)
    ensures s.buf <= cfg.sndBuf && (s.unsent != [] ==> |s.unsent[|s.unsent|-1].data| + s.buf <= cfg.sndBuf)
  {
    SumNonNegative(s.unacked);
    SumNonNegative(s.unsent);
  }

  lemma {:induction false} NoFins(q: seq<Seg>)
    requires q != []
    ensures FinCnt(q) == 0 ==> !q[|q|-1].fin
  {
    if |q| > 1 { NoFins(q[1..]); }
  }

  lemma FirstWriteKeeps(cfg: Config, w: seq<Byte>, s: Snd, r: Req)
    requires cfg.Valid() && SndOk(cfg, w, s) && s.fin.NoFin? && s.unsent == [] && |r.data| <= s.buf
    ensures var b := Build(cfg, s, MssLocal(s), r, s.lbb, r.data, true, 0, s.qlen, r.budget);
      b.Built? ==> SndOk(cfg, w + r.data, Commit(s, b.segs, |r.data|, b.oversize, b.qlen))
  {
    var m, w' := MssLocal(s), w + r.data;
    var b := Build(cfg, s, m, r, s.lbb, r.data, true, 0, s.qlen, r.budget);
    if b.Built? {
      WriteBound(cfg, s);
      BuildFacts(cfg, s, m, r, s.lbb, r.data, true, 0, s.qlen, r.budget, w', cfg.sndBuf);
      BuildTail(cfg, s, m, r, s.lbb, r.data, true, 0, s.qlen, r.budget);
      AllOkGrows(w, r.data, cfg.sndBuf, cfg.sndBuf, s.unacked);
      assert w'[|w|..] == r.data;
      forall p
        ensures b.qlen == s.qlen + SumBufs(b.segs)
        ensures Cnt(s.unacked, p) + Cnt(b.segs, p) <= 1
        ensures s.una <= p < |w'| ==> Cnt(s.unacked, p) + Cnt(b.segs, p) == 1
      {
        BuildCnt(cfg, s, m, r, s.lbb, r.data, true, 0, s.qlen, r.budget, p);
        assert Cnt(s.unsent, p) == 0;
        if p < 0 || p >= |w| { CntOutside(w, cfg.sndBuf, s.unacked, p); }
      }
    }
  }

  /** The queue after a successful write, when the last segment was extended. */
  function Extended(s: Snd, seg: Seg, segs: seq<Seg>): seq<Seg>
    requires s.unsent != []
  {
    s.unsent[..|s.unsent|-1] + [seg] + segs
  }

  lemma ExtendedTotals(w: seq<Byte>, m: int, s: Snd, seg: Seg, segs: seq<Seg>)
    requires s.unsent != []
    ensures var last, q := s.unsent[|s.unsent|-1], Extended(s, seg, segs);
      && SumLen(q) == SumLen(s.unsent) - |last.data| + |seg.data| + SumLen(segs)
      && SumBufs(q) == SumBufs(s.unsent) - last.bufs + seg.bufs + SumBufs(segs)
      && (seg.fin == last.fin ==> FinCnt(q) == FinCnt(s.unsent) + FinCnt(segs))
      && (AllOk(w, m, s.unsent) && SegOk(w, m, seg) && AllOk(w, m, segs) ==> AllOk(w, m, q))
  {
    var a, last := s.unsent[..|s.unsent|-1], s.unsent[|s.unsent|-1];
    assert s.unsent == a + [last];
    Split(a, [last]);
    Split(a, [seg]);
    Split(a + [seg], segs);
    AllOkSplit(w, m, a, [last]);
    AllOkSplit(w, m, a, [seg]);
    AllOkSplit(w, m, a + [seg], segs);
  }

  lemma ExtendedCnt(s: Snd, seg: Seg, segs: seq<Seg>, p: int)
    requires s.unsent != []
    ensures var last := s.unsent[|s.unsent|-1];
      Cnt(Extended(s, seg, segs), p) ==
        Cnt(s.unsent, p) - (if last.Has(p) then 1 else 0) + (if seg.Has(p) then 1 else 0) + Cnt(segs, p)
  {
    var a, last := s.unsent[..|s.unsent|-1], s.unsent[|s.unsent|-1];
    assert s.unsent == a + [last];
    CntSplit(a, [last], p);
    CntSplit(a, [seg], p);
    CntSplit(a + [seg], segs, p);
  }

  /** Which bytes are held after a write that extended the last unsent segment by `taken` bytes. */
  lemma ExtendedHeld(cfg: Config, w: seq<Byte>, s: Snd, r: Req, seg: Seg, taken: nat, b: Built, p: int)
    requires SndOk(cfg, w, s) && s.fin.NoFin? && s.unsent != [] && taken <= |r.data| && b.Built?
    requires var last := s.unsent[|s.unsent|-1]; seg.pos == last.pos && seg.data == last.data + r.data[..taken]
    requires Cnt(b.segs, p) == if |w| + taken <= p < |w| + |r.data| then 1 else 0
    ensures var last := s.unsent[|s.unsent|-1];
      var held := Cnt(s.unacked, p) + Cnt(Extended(s, seg, b.segs), p);
      && (last.DataEnd() == |w| || taken == 0 ==>
            held <= 1 && (s.una <= p < |w| + |r.data| ==> held == 1))
      && (last.DataEnd() < |w| && taken > 0 && p == |w| + taken - 1 ==> held == 0)
  {
    var m := cfg.sndBuf;
    ExtendedCnt(s, seg, b.segs, p);
    AllOkLast(w, m, s.unsent);
    if p < 0 || p >= |w| {
      CntOutside(w, m, s.unacked, p);
      CntOutside(w, m, s.unsent, p);
    }
  }

  /** The facts about phase 3 that the invariant needs. */
  ghost predicate BuiltGood(w': seq<Byte>, k: int, pos: int, qlen: int, oversize: int, b: Built)
    requires 0 <= pos <= |w'|
  {
    && BuiltOk(w', k, |w'| - pos, b) && BuiltTail(|w'|, pos == |w'|, oversize, b)
    && (b.Built? ==> b.qlen == qlen + SumBufs(b.segs))
    && (b.Built? ==> forall p :: Cnt(b.segs, p) == if pos <= p < |w'| then 1 else 0)
  }

  lemma BuildIsGood(cfg: Config, s: Snd, m: int, r: Req, pos: int, data: seq<Byte>,
                    oversize: int, qlen: int, budget: int, w': seq<Byte>, k: int)
    requires cfg.Valid() && m > 0 && 0 <= pos && pos + |data| == |w'| && data == w'[pos..]
    requires 0 <= oversize && |data| <= k
    ensures BuiltGood(w', k, pos, qlen, oversize, Build(cfg, s, m, r, pos, data, true, oversize, qlen, budget))
  {
    BuildFacts(cfg, s, m, r, pos, data, true, oversize, qlen, budget, w', k);
    BuildTail(cfg, s, m, r, pos, data, true, oversize, qlen, budget);
    BuildCnt(cfg, s, m, r, pos, data, true, oversize, qlen, budget, 0);
    forall p
      ensures var b := Build(cfg, s, m, r, pos, data, true, oversize, qlen, budget);
        b.Built? ==> b.qlen == qlen + SumBufs(b.segs) && Cnt(b.segs, p) == if pos <= p < |w'| then 1 else 0
    {
      BuildCnt(cfg, s, m, r, pos, data, true, oversize, qlen, budget, p);
    }
  }

  /** The extended segment holds the right bytes if it ended at snd_lbb. */
  lemma ExtendedSeg(w: seq<Byte>, k: int, s: Snd, r: Req, last: Seg, t: Tail)
    requires SegOk(w, k, last) && |last.data| + |r.data| <= k && !last.fin && t.Tail? && TailGood(s, r, last, t)
    requires last.DataEnd() == |w| || |last.data| == MssLocal(s)
    ensures SegOk(w + r.data, k, t.seg)
  {
    var w' := w + r.data;
    if t.taken == 0 {
      assert t.seg.data == last.data;
      assert w'[last.pos..last.DataEnd()] == w[last.pos..last.DataEnd()];
    } else {
      assert w'[last.pos..t.seg.DataEnd()] == w[last.pos..] + r.data[..t.taken];
    }
  }

  /** Content after a write that extended the last unsent segment. */
  lemma ExtendedContent(cfg: Config, w: seq<Byte>, s: Snd, r: Req, t: Tail, b: Built)
    requires SndOk(cfg, w, s) && s.fin.NoFin? && s.unsent != [] && TailAtEnd(w, s) && |r.data| <= s.buf
    requires t.Tail? && TailGood(s, r, s.unsent[|s.unsent|-1], t)
    requires b.Built? && AllOk(w + r.data, cfg.sndBuf, b.segs)
    ensures AllOk(w + r.data, cfg.sndBuf, s.unacked)
    ensures AllOk(w + r.data, cfg.sndBuf, Extended(s, t.seg, b.segs))
  {
    var m, w' := cfg.sndBuf, w + r.data;
    WriteBound(cfg, s);
    AllOkGrows(w, r.data, m, m, s.unacked);
    AllOkGrows(w, r.data, m, m, s.unsent);
    AllOkLast(w, m, s.unsent);
    NoFins(s.unsent);
    ExtendedSeg(w, m, s, r, s.unsent[|s.unsent|-1], t);
    ExtendedTotals(w', m, s, t.seg, b.segs);
  }

  /** Totals and numbers after a write that extended the last unsent segment. */
  lemma ExtendedNumbers(cfg: Config, w: seq<Byte>, s: Snd, r: Req, t: Tail, b: Built)
    requires SndOk(cfg, w, s) && s.fin.NoFin? && s.unsent != [] && |r.data| <= s.buf
    requires t.Tail? && TailGood(s, r, s.unsent[|s.unsent|-1], t)
    requires b.Built? && BuiltGood(w + r.data, cfg.sndBuf, s.lbb + t.taken, t.qlen, t.oversize, b)
    ensures var s' := Commit(s, Extended(s, t.seg, b.segs), |r.data|, b.oversize, b.qlen);
      Totals(cfg, s') && Numbers(w + r.data, s')
  {
    ExtendedTotals(w, cfg.sndBuf, s, t.seg, b.segs);
  }

  lemma ExtendedTail(cfg: Config, w: seq<Byte>, s: Snd, r: Req, t: Tail, b: Built)
    requires SndOk(cfg, w, s) && s.fin.NoFin? && s.unsent != [] && TailAtEnd(w, s)
    requires t.Tail? && TailGood(s, r, s.unsent[|s.unsent|-1], t)
    requires b.Built? && BuiltGood(w + r.data, cfg.sndBuf, s.lbb + t.taken, t.qlen, t.oversize, b)
    ensures TailFits(w + r.data, Commit(s, Extended(s, t.seg, b.segs), |r.data|, b.oversize, b.qlen))
  {
    var q := Extended(s, t.seg, b.segs);
    if b.segs == [] {
      assert q[|q|-1] == t.seg;
    } else {
      assert q[|q|-1] == b.segs[|b.segs|-1];
    }
  }

  lemma ExtendedHeldOnce(cfg: Config, w: seq<Byte>, s: Snd, r: Req, t: Tail, b: Built)
    requires SndOk(cfg, w, s) && s.fin.NoFin? && s.unsent != []
    requires t.Tail? && TailGood(s, r, s.unsent[|s.unsent|-1], t)
    requires b.Built? && BuiltGood(w + r.data, cfg.sndBuf, s.lbb + t.taken, t.qlen, t.oversize, b)
    ensures var s' := Commit(s, Extended(s, t.seg, b.segs), |r.data|, b.oversize, b.qlen);
      HeldOnce(w + r.data, s') <==> TailAtEnd(w, s) || r.data == []
  {
    var last := s.unsent[|s.unsent|-1];
    var s' := Commit(s, Extended(s, t.seg, b.segs), |r.data|, b.oversize, b.qlen);
    AllOkLast(w, cfg.sndBuf, s.unsent);
    if TailAtEnd(w, s) || r.data == [] {
      forall p
        ensures Cnt(s'.unacked, p) + Cnt(s'.unsent, p) <= 1
        ensures s.una <= p < |w + r.data| ==> Cnt(s'.unacked, p) + Cnt(s'.unsent, p) == 1
      {
        ExtendedHeld(cfg, w, s, r, t.seg, t.taken, b, p);
      }
    } else {
      ExtendedHeld(cfg, w, s, r, t.seg, t.taken, b, |w| + t.taken - 1);
    }
  }

  lemma NextWriteKeeps(cfg: Config, w: seq<Byte>, s: Snd, r: Req, t: Tail, b: Built)
    requires SndOk(cfg, w, s) && s.fin.NoFin? && s.unsent != [] && |r.data| <= s.buf
    requires t.Tail? && TailGood(s, r, s.unsent[|s.unsent|-1], t)
    requires b.Built? && BuiltGood(w + r.data, cfg.sndBuf, s.lbb + t.taken, t.qlen, t.oversize, b)
    ensures var s' := Commit(s, Extended(s, t.seg, b.segs), |r.data|, b.oversize, b.qlen);
      SndOk(cfg, w + r.data, s') <==> TailAtEnd(w, s) || r.data == []
  {
    ExtendedHeldOnce(cfg, w, s, r, t, b);
    if TailAtEnd(w, s) {
      ExtendedContent(cfg, w, s, r, t, b);
      ExtendedNumbers(cfg, w, s, r, t, b);
      ExtendedTail(cfg, w, s, r, t, b);
    } else if r.data == [] {
      NothingWritten(cfg, w, s, r, t, b);
    }
  }

  /** A write of no bytes changes nothing. */
  lemma NothingWritten(cfg: Config, w: seq<Byte>, s: Snd, r: Req, t: Tail, b: Built)
    requires SndOk(cfg, w, s) && s.fin.NoFin? && s.unsent != [] && r.data == []
    requires t.Tail? && TailGood(s, r, s.unsent[|s.unsent|-1], t)
    requires b.Built? && BuiltGood(w + r.data, cfg.sndBuf, s.lbb + t.taken, t.qlen, t.oversize, b)
    ensures Commit(s, Extended(s, t.seg, b.segs), |r.data|, b.oversize, b.qlen) == s && w + r.data == w
  {
    assert s.unsent == s.unsent[..|s.unsent|-1] + [t.seg] + [];
  }

  /**
    tcp_write. On an error nothing changes, but TF_NAGLEMEMERR is set for ERR_MEM. On success the bytes
    are queued behind the bytes written before, each once, and every counter is
    right, if and only if the last unsent segment ended at snd_lbb or was full.
   */
  lemma WriteTheorem(cfg: Config, w: seq<Byte>, s: Snd, r: Req)
    requires cfg.Valid() && SndOk(cfg, w, s)
    ensures var (s', e) := Write(cfg, s, r);
      if e.ErrOk? then SndOk(cfg, w + r.data, s') <==> TailAtEnd(w, s) || r.data == []
      else s' == s.(memErr := s.memErr || e.ErrMem?)
  {
    if s.fin.NoFin? && !Refuses(cfg, s, |r.data|) {
      if s.unsent == [] {
        FirstWriteKeeps(cfg, w, s, r);
      } else {
        TailFacts(cfg, w, s, r);
        AppendedWrite(cfg, w, s, r, ExtendTail(cfg, s, MssLocal(s), r, s.unsent[|s.unsent|-1]));
      }
    }
  }

  /** Phase 3 behind a last segment that phases 1 and 2 have filled up. */
  lemma AppendedWrite(cfg: Config, w: seq<Byte>, s: Snd, r: Req, t: Tail)
    requires cfg.Valid() && SndOk(cfg, w, s) && s.fin.NoFin? && s.unsent != [] && |r.data| <= s.buf
    requires TailGood(s, r, s.unsent[|s.unsent|-1], t)
    ensures t.Tail? ==>
      var b := Build(cfg, s, MssLocal(s), r, s.lbb + t.taken, r.data[t.taken..], true, t.oversize, t.qlen, t.budget);
      b.Built? ==>
        (SndOk(cfg, w + r.data, Commit(s, Extended(s, t.seg, b.segs), |r.data|, b.oversize, b.qlen)) <==>
         TailAtEnd(w, s) || r.data == [])
  {
    if t.Tail? {
      var rest, w' := r.data[t.taken..], w + r.data;
      assert rest == w'[s.lbb + t.taken..];
      WriteBound(cfg, s);
      BuildIsGood(cfg, s, MssLocal(s), r, s.lbb + t.taken, rest, t.oversize, t.qlen, t.budget, w', cfg.sndBuf);
      var b := Build(cfg, s, MssLocal(s), r, s.lbb + t.taken, rest, true, t.oversize, t.qlen, t.budget);
      if b.Built? {
        NextWriteKeeps(cfg, w, s, r, t, b);
      }
    }
  }
}
