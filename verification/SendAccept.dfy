/**
  When tcp_write accepts data: never while there is room in the buffer, in the queue
  and in memory does it refuse, and it uses as few new segments as the size allows.
 */
module SendAccept {

  import opened SendSpec
  import opened Sender

  /** How many pieces of at most `m` bytes `len` bytes take. */
  function Pieces(len: int, m: int): nat
    requires m > 0
    decreases len
  {
    if len <= 0 then 0 else 1 + Pieces(len - m, m)
  }

  /** No fewer would do. */
  lemma {:induction false} PiecesFewest(len: int, m: int)
    requires m > 0 && len > 0
    ensures (Pieces(len, m) - 1) * m < len <= Pieces(len, m) * m
    decreases len
  {
    var n := Pieces(len, m);
    assert n * m == (n - 1) * m + m;
    if len > m {
      PiecesFewest(len - m, m);
      assert (n - 1) * m == (n - 2) * m + m;
    } else {
      assert Pieces(len - m, m) == 0;
    }
  }

  function BufsPer(r: Req): nat { if r.copy then 1 else 2 }

  /** Phase 3 succeeds exactly if the queue has room and memory suffices for all pieces. */
  lemma {:induction false} BuildIff(cfg: Config, s: Snd, m: int, r: Req, pos: int, data: seq<Byte>, first: bool,
                                    oversize: int, qlen: int, budget: int)
    requires cfg.Valid() && m > 0
    ensures var b, n := Build(cfg, s, m, r, pos, data, first, oversize, qlen, budget), Pieces(|data|, m);
      && (b.Built? <==> n == 0 || (budget >= n * (BufsPer(r) + 1) && !QueueFull(cfg, qlen + n * BufsPer(r))))
      && (b.Built? ==> |b.segs| == n)
    decreases |data|
  {
    if data != [] {
      var n := Min(|data|, m);
      var bufs := BufsPer(r);
      var over := if r.copy then AllocLen(cfg, s, n, m, r.more, first) - n else oversize;
      if |data| <= m { assert Pieces(|data| - m, m) == 0 && Pieces(|data[n..]|, m) == 0; }
      assert Pieces(|data[n..]|, m) == Pieces(|data| - m, m);
      BuildIff(cfg, s, m, r, pos + n, data[n..], false, over, qlen + bufs, budget - bufs - 1);
    }
  }

  /** How much of the data goes into the last unsent segment. */
  function IntoTail(s: Snd, r: Req): int {
    if s.unsent == [] then 0 else Min(Space(MssLocal(s), |s.unsent[|s.unsent|-1].data|), |r.data|)
  }

  /** Whether that takes a pbuf more: it is beyond the spare room, and not simply adjacent in memory. */
  function TailBufs(s: Snd, r: Req): nat {
    if IntoTail(s, r) <= s.oversize || s.unsent == [] then 0
    else if !r.copy && s.unsent[|s.unsent|-1].rom && r.adjacent then 0
    else 1
  }

  lemma TailIff(cfg: Config, s: Snd, r: Req)
    requires cfg.Valid() && s.unsent != [] && 0 < |s.unsent[|s.unsent|-1].data| && 0 <= s.oversize
    ensures var t := ExtendTail(cfg, s, MssLocal(s), r, s.unsent[|s.unsent|-1]);
      && (t.Tail? <==> r.budget >= TailBufs(s, r))
      && (t.Tail? ==> t.taken == IntoTail(s, r) && t.qlen == s.qlen + TailBufs(s, r) && t.budget == r.budget - TailBufs(s, r))
  {
  }

  /** How many new segments the data takes. */
  function NewSegs(s: Snd, r: Req): nat
    requires MssLocal(s) > 0
  {
    Pieces(|r.data| - IntoTail(s, r), MssLocal(s))
  }

  /** There are enough allocations, and the queue is not too long afterwards. */
  predicate HasMemory(cfg: Config, s: Snd, r: Req)
    requires MssLocal(s) > 0
  {
    var tail, n, bufs := TailBufs(s, r), NewSegs(s, r), BufsPer(r);
    r.budget >= tail + n * (bufs + 1) && (n > 0 ==> !QueueFull(cfg, s.qlen + tail + n * bufs))
  }

  /**
    tcp_write accepts the data if and only if the sending side is open, the data fits the
    send buffer, the queue is not full, and the memory it needs is there; it then queues
    the fewest new segments.
   */
  lemma WriteAcceptsIff(cfg: Config, w: seq<Byte>, s: Snd, r: Req)
    requires cfg.Valid() && SndOk(cfg, w, s)
    ensures var (s', e) := Write(cfg, s, r);
      && (e.ErrOk? <==>
            && s.fin.NoFin?
            && (r.data != [] ==> |r.data| <= s.buf && s.qlen < cfg.sndQueue && s.qlen <= 0xfffc)
            && HasMemory(cfg, s, r))
      && (e.ErrOk? ==> |s'.unsent| == |s.unsent| + NewSegs(s, r))
  {
    if s.fin.NoFin? && s.unsent != [] {
      AllOkLast(w, cfg.sndBuf, s.unsent);
      NoFins(s.unsent);
    }
    AcceptsIff(cfg, s, r);
  }

  /** All that matters of the invariant is the last unsent segment. */
  lemma AcceptsIff(cfg: Config, s: Snd, r: Req)
    requires cfg.Valid() && MssLocal(s) > 0
    requires s.fin.NoFin? && s.unsent != [] ==> 0 <= s.oversize && 0 < |s.unsent[|s.unsent|-1].data|
    ensures var (s', e) := Write(cfg, s, r);
      && (e.ErrOk? <==>
            && s.fin.NoFin?
            && (r.data != [] ==> |r.data| <= s.buf && s.qlen < cfg.sndQueue && s.qlen <= 0xfffc)
            && HasMemory(cfg, s, r))
      && (e.ErrOk? ==> |s'.unsent| == |s.unsent| + NewSegs(s, r))
  {
    if s.fin.NoFin? && s.unsent == [] {
      BuildIff(cfg, s, MssLocal(s), r, s.lbb, r.data, true, 0, s.qlen, r.budget);
    } else if s.fin.NoFin? {
      NextAcceptsIff(cfg, s, r);
    }
  }

  lemma NextAcceptsIff(cfg: Config, s: Snd, r: Req)
    requires cfg.Valid() && s.unsent != [] && 0 < |s.unsent[|s.unsent|-1].data| && 0 <= s.oversize && MssLocal(s) > 0
    ensures var t := ExtendTail(cfg, s, MssLocal(s), r, s.unsent[|s.unsent|-1]);
      if t.TailFailed? then !HasMemory(cfg, s, r)
      else
        var b := Build(cfg, s, MssLocal(s), r, s.lbb + t.taken, r.data[t.taken..], true, t.oversize, t.qlen, t.budget);
        (b.Built? <==> HasMemory(cfg, s, r)) && (b.Built? ==> |b.segs| == NewSegs(s, r))
  {
    var t := ExtendTail(cfg, s, MssLocal(s), r, s.unsent[|s.unsent|-1]);
    TailIff(cfg, s, r);
    if t.Tail? {
      BuildIff(cfg, s, MssLocal(s), r, s.lbb + t.taken, r.data[t.taken..], true, t.oversize, t.qlen, t.budget);
    }
  }
}
