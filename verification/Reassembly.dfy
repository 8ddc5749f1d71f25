/**
  What the receive half of tcp_receive computes, on stream positions: trimming,
  the out-of-sequence queue, and the bytes handed up.

  The peer sends one fixed byte stream followed by a FIN. Position `p` is the
  `p`-th byte; the FIN sits at position `|stream|`. Segments may be cut from it
  in any way.
 */
module Reassembly {

  type Byte = bv8

  /** A TCP segment: `data` starts at position `pos`; `fin` follows the data. */
  datatype Seg = Seg(pos: int, data: seq<Byte>, fin: bool) {
    /** TCP_TCPLEN: sequence space used by the segment (SYN is not modelled). */
    function Len(): nat { |data| + if fin then 1 else 0 }
    /** First position after the data (`seqno + len`). */
    function DataEnd(): int { pos + |data| }
    /** First position after the whole segment. */
    function End(): int { pos + Len() }
    /** `len` cut to end at position `e`, and pbuf_realloc on the data. */
    function Before(e: int): Seg
      requires pos <= e <= DataEnd()
    {
      this.(data := data[..e - pos])
    }
  }

  /** The receive state: next expected position, receive window (16 bits), queue. */
  datatype Rcv = Rcv(nxt: int, wnd: int, ooseq: seq<Seg>)

  /** What one segment hands up: bytes, and whether the FIN was reached. */
  datatype Up = Up(data: seq<Byte>, fin: bool)

  // ---------------------------------------------------------------------------
  // Specification functions
  // ---------------------------------------------------------------------------

  /**
    tcp_oos_insert_segment: `c` swallows the queued segments it covers, takes over
    their FIN, and is cut where the first one left starts.
   */
  function Swallow(c: Seg, q: seq<Seg>): (m: seq<Seg>)
    ensures m != []
    decreases |q|
  {
    if c.fin then [c]
    else if q != [] && c.DataEnd() >= q[0].DataEnd() then Swallow(c.(fin := q[0].fin), q[1..])
    else if q != [] && c.pos <= q[0].pos < c.DataEnd() then [c.Before(q[0].pos)] + q
    else [c] + q
  }

  /** `s` cut back to the right window edge, with its FIN removed if that goes over. */
  function ClipToWindow(s: Seg, edge: int): Seg
    requires s.pos <= edge
  {
    if s.End() > edge then s.(data := s.data[..edge - s.pos], fin := false) else s
  }

  /** `s` cut where a later segment starts. */
  function CutAt(s: Seg, p: int): Seg
    requires s.pos <= p
  {
    if s.DataEnd() > p then s.Before(p) else s
  }

  /** A segment that starts where `q[0]` starts replaces it only if it is longer. */
  function Replace(q: seq<Seg>, s: Seg): seq<Seg>
    requires q != []
  {
    if |s.data| > |q[0].data| then Swallow(s, q) else q
  }

  /** The out-of-sequence branch when a segment copy could be allocated. */
  function Queue(q: seq<Seg>, s: Seg, edge: int): seq<Seg>
    requires s.pos <= edge
  {
    if q == [] then [s]
    else if s.pos == q[0].pos then Replace(q, s)
    else if s.pos < q[0].pos then Swallow(s, q)
    else QueueAfter(q, s, edge)
  }

  /** The walk along the queue once `q[0]` is known to start before `s`. */
  function QueueAfter(q: seq<Seg>, s: Seg, edge: int): seq<Seg>
    requires q != [] && q[0].pos < s.pos <= edge
  {
    if |q| == 1 then
      if q[0].fin then q else [CutAt(q[0], s.pos), ClipToWindow(s, edge)]
    else if s.pos == q[1].pos then [q[0]] + Replace(q[1..], s)
    else if s.pos < q[1].pos then [CutAt(q[0], s.pos)] + Swallow(s, q[1..])
    else [q[0]] + QueueAfter(q[1..], s, edge)
  }

  /** The loop that hands up queued segments that are now in sequence. */
  function Drain(r: Rcv, up: Up): (Rcv, Up)
    decreases |r.ooseq|
  {
    if r.ooseq != [] && r.ooseq[0].pos == r.nxt then
      Drain(Advance(r, r.ooseq[0], r.ooseq[1..]), Append(up, r.ooseq[0]))
    else (r, up)
  }

  /** `c` is accepted in order and `q` stays queued; rcv_wnd is a 16-bit field. */
  function Advance(r: Rcv, c: Seg, q: seq<Seg>): Rcv {
    Rcv(r.nxt + c.Len(), (r.wnd - c.Len()) % 0x1_0000, q)
  }

  function Append(up: Up, c: Seg): Up {
    Up(up.data + c.data, up.fin || c.fin)
  }

  /** `s` without what lies before `nxt`, if only part of it does. */
  function TrimFront(s: Seg, nxt: int): Seg {
    if s.pos < nxt < s.End() then Seg(nxt, s.data[nxt - s.pos..], s.fin) else s
  }

  /** An in-order segment (already inside the window) meets the queue. */
  function Accept(r: Rcv, s: Seg): (Rcv, Up) {
    var m := Swallow(s, r.ooseq);
    Drain(Advance(r, m[0], m[1..]), Append(Up([], false), m[0]))
  }

  /** A segment whose left edge was trimmed: out of the window, next in order, or ahead of a gap. */
  function ReceiveTrimmed(r: Rcv, t: Seg, alloc: bool): (Rcv, Up) {
    if !(r.nxt <= t.pos < r.nxt + r.wnd) then (r, Up([], false))
    else if t.pos == r.nxt then Accept(r, ClipToWindow(t, r.nxt + r.wnd))
    else if alloc then (r.(ooseq := Queue(r.ooseq, t, r.nxt + r.wnd)), Up([], false))
    else (r, Up([], false))
  }

  /** The data half of tcp_receive; `alloc` says whether tcp_seg_copy succeeds. */
  function Receive(r: Rcv, s: Seg, alloc: bool): (Rcv, Up) {
    if s.Len() == 0 then (r, Up([], false)) else ReceiveTrimmed(r, TrimFront(s, r.nxt), alloc)
  }

  // ---------------------------------------------------------------------------
  // Invariants
  // ---------------------------------------------------------------------------

  /** `s` is cut from the peer's stream. */
  predicate CutFrom(stream: seq<Byte>, s: Seg) {
    && 0 <= s.pos && s.DataEnd() <= |stream|
    && s.data == stream[s.pos..s.DataEnd()]
    && (s.fin ==> s.DataEnd() == |stream|)
  }

  /** Cut from the stream, sorted and disjoint at or above `lo`, never empty, FIN only at the end. */
  predicate Ordered(stream: seq<Byte>, q: seq<Seg>, lo: int) {
    q != [] ==>
      && lo <= q[0].pos && q[0].Len() > 0 && CutFrom(stream, q[0])
      && (q[0].fin ==> |q| == 1)
      && Ordered(stream, q[1..], q[0].End())
  }

  /** Everything queued lies before `edge`. */
  predicate Within(q: seq<Seg>, edge: int) {
    q != [] ==> q[0].End() <= edge && Within(q[1..], edge)
  }

  /** Some queued segment holds position `p`. */
  predicate Holds(q: seq<Seg>, p: int) {
    q != [] && (q[0].pos <= p < q[0].End() || Holds(q[1..], p))
  }

  /** The receive state invariant for a peer that sends `stream`. */
  predicate RcvOk(stream: seq<Byte>, r: Rcv) {
    && 0 <= r.nxt <= |stream| + 1
    && 0 <= r.wnd < 0x1_0000
    && Ordered(stream, r.ooseq, r.nxt + 1)
  }

  /** The bytes of the stream that lie before position `nxt`. */
  function Prefix(stream: seq<Byte>, nxt: int): seq<Byte>
    requires 0 <= nxt <= |stream| + 1
  {
    if nxt <= |stream| then stream[..nxt] else stream
  }

  // ---------------------------------------------------------------------------
  // Lemmas
  // ---------------------------------------------------------------------------

  /** The invariant spelled out index by index. */
  lemma {:induction false} OrderedSpelledOut(stream: seq<Byte>, q: seq<Seg>, lo: int)
    requires Ordered(stream, q, lo)
    ensures forall i :: 0 <= i < |q| ==> lo <= q[i].pos && q[i].Len() > 0 && CutFrom(stream, q[i])
    ensures forall i, j :: 0 <= i < j < |q| ==> q[i].End() <= q[j].pos
    ensures forall i :: 0 <= i < |q| - 1 ==> !q[i].fin
  {
    if q != [] {
      OrderedSpelledOut(stream, q[1..], q[0].End());
      assert forall i :: 1 <= i < |q| ==> q[i] == q[1..][i - 1];
    }
  }

  lemma OrderedWeaken(stream: seq<Byte>, q: seq<Seg>, lo: int, lo': int)
    requires Ordered(stream, q, lo) && lo' <= lo
    ensures Ordered(stream, q, lo')
  {
  }

  lemma Cons(stream: seq<Byte>, c: Seg, q: seq<Seg>, lo: int)
    requires lo <= c.pos && c.Len() > 0 && CutFrom(stream, c) && (c.fin ==> q == [])
    requires Ordered(stream, q, c.End())
    ensures Ordered(stream, [c] + q, lo)
    ensures forall e :: c.End() <= e && Within(q, e) ==> Within([c] + q, e)
    ensures forall p :: (c.pos <= p < c.End() || Holds(q, p)) ==> Holds([c] + q, p)
  {
    assert ([c] + q)[1..] == q;
  }

  /** A segment put in front of the queue keeps it ordered, cut from the stream, and inside the window. */
  lemma {:induction false} SwallowKeeps(stream: seq<Byte>, c: Seg, q: seq<Seg>, edge: int)
    requires CutFrom(stream, c) && c.Len() > 0
    requires Ordered(stream, q, c.pos)
    requires q != [] && q[0].pos == c.pos ==> |q[0].data| < |c.data|
    ensures var m := Swallow(c, q);
      && Ordered(stream, m, c.pos) && m[0].pos == c.pos
      && (c.End() <= edge && Within(q, edge) ==> Within(m, edge))
    decreases |q|
  {
    if c.fin {
      Cons(stream, c, [], c.pos);
      assert [c] + [] == [c];
    } else if q != [] && c.DataEnd() >= q[0].DataEnd() {
      OrderedWeaken(stream, q[1..], q[0].End(), c.pos);
      if |q| > 1 {
        assert q[1..][0].pos > c.pos;
      }
      SwallowKeeps(stream, c.(fin := q[0].fin), q[1..], edge);
    } else if q != [] && c.pos <= q[0].pos < c.DataEnd() {
      assert Ordered(stream, q, q[0].pos);
      Cons(stream, c.Before(q[0].pos), q, c.pos);
    } else {
      Cons(stream, c, q, c.pos);
    }
  }

  /** `p` is a byte, or the FIN, of `s`. */
  predicate Covers(s: Seg, p: int) {
    s.pos <= p < s.End()
  }

  /** Merging loses no position that the segment or the queue held, and makes up none. */
  lemma {:induction false} SwallowHolds(stream: seq<Byte>, c: Seg, q: seq<Seg>, p: int)
    requires CutFrom(stream, c) && Ordered(stream, q, c.pos)
    ensures Holds(Swallow(c, q), p) <==> Covers(c, p) || Holds(q, p)
    decreases |q|
  {
    var m := Swallow(c, q);
    assert m[1..] == [] ==> (Holds(m, p) <==> Covers(m[0], p));
    if c.fin {
      HoldsBelow(stream, q, c.pos, p);
    } else if q != [] && c.DataEnd() >= q[0].DataEnd() {
      OrderedWeaken(stream, q[1..], q[0].End(), c.pos);
      SwallowHolds(stream, c.(fin := q[0].fin), q[1..], p);
    } else if q != [] && c.pos <= q[0].pos < c.DataEnd() {
      assert m[1..] == q;
    } else {
      assert m[1..] == q;
    }
  }

  /** Everything queued lies between `lo` and the end of the stream. */
  lemma {:induction false} HoldsBelow(stream: seq<Byte>, q: seq<Seg>, lo: int, p: int)
    requires Ordered(stream, q, lo)
    ensures Holds(q, p) ==> lo <= p <= |stream|
  {
    if q != [] { HoldsBelow(stream, q[1..], q[0].End(), p); }
  }

  // ---------------------------------------------------------------------------
  // What queueing loses
  // ---------------------------------------------------------------------------

  /** A queued segment that starts before `s` and reaches beyond the data of `s` loses `p`: it is cut where `s` starts. */
  predicate CutOff(q: seq<Seg>, s: Seg, p: int) {
    q != [] && ((q[0].pos < s.pos && !q[0].fin && s.DataEnd() <= p < q[0].DataEnd()) || CutOff(q[1..], s, p))
  }

  /** A queued segment that starts where `s` starts, and is as long, keeps the FIN of `s` out. */
  predicate FinIgnored(q: seq<Seg>, s: Seg) {
    q != [] && ((q[0].pos == s.pos && s.fin && |s.data| <= |q[0].data|) || FinIgnored(q[1..], s))
  }

  /** Position `p` is lost when `s` is queued: a test on the queue and the segment before the call. */
  predicate Loses(q: seq<Seg>, s: Seg, p: int) {
    CutOff(q, s, p) || (FinIgnored(q, s) && p == s.DataEnd() && !Holds(q, p))
  }

  lemma {:induction false} NoneBefore(stream: seq<Byte>, q: seq<Seg>, lo: int, s: Seg, p: int)
    requires Ordered(stream, q, lo) && s.pos <= lo
    ensures !CutOff(q, s, p) && (s.pos < lo ==> !FinIgnored(q, s))
  {
    if q != [] { NoneBefore(stream, q[1..], q[0].End(), s, p); }
  }

  lemma {:induction false} LossIsBehind(q: seq<Seg>, s: Seg, p: int)
    ensures CutOff(q, s, p) ==> s.DataEnd() <= p
  {
    if q != [] { LossIsBehind(q[1..], s, p); }
  }

  lemma ReplaceLosesIff(stream: seq<Byte>, q: seq<Seg>, s: Seg, p: int)
    requires q != [] && CutFrom(stream, s) && s.Len() > 0 && s.pos == q[0].pos && Ordered(stream, q, s.pos)
    ensures Holds(Replace(q, s), p) <==> (Covers(s, p) || Holds(q, p)) && !Loses(q, s, p)
  {
    NoneBefore(stream, q, s.pos, s, p);
    NoneBefore(stream, q[1..], q[0].End(), s, p);
    if |s.data| > |q[0].data| {
      SwallowHolds(stream, s, q, p);
    }
  }

  lemma TailLosesIff(stream: seq<Byte>, c: Seg, s: Seg, edge: int, p: int)
    requires CutFrom(stream, c) && CutFrom(stream, s) && c.Len() > 0 && s.Len() > 0 && c.pos < s.pos < edge && p < edge
    ensures Holds(QueueAfter([c], s, edge), p) <==> (Covers(s, p) || Holds([c], p)) && !Loses([c], s, p)
  {
    var q := [c];
    assert q[1..] == [] && (Holds(q, p) <==> Covers(c, p));
    assert !FinIgnored(q[1..], s) && !CutOff(q[1..], s, p);
    if c.fin {
      assert QueueAfter(q, s, edge) == q;
    } else {
      var a, b := CutAt(c, s.pos), ClipToWindow(s, edge);
      var m := QueueAfter(q, s, edge);
      assert m[1..] == [b] && [b][1..] == [];
      assert Holds([b], p) <==> Covers(b, p);
      assert Holds(m, p) <==> Covers(a, p) || Covers(b, p);
    }
  }

  lemma MiddleLosesIff(stream: seq<Byte>, q: seq<Seg>, s: Seg, p: int)
    requires |q| > 1 && Ordered(stream, q, q[0].pos) && CutFrom(stream, s) && s.Len() > 0 && q[0].pos < s.pos < q[1].pos
    ensures Holds([CutAt(q[0], s.pos)] + Swallow(s, q[1..]), p) <==>
      (Covers(s, p) || Holds(q, p)) && !Loses(q, s, p)
  {
    var a, m := CutAt(q[0], s.pos), Swallow(s, q[1..]);
    assert ([a] + m)[1..] == m;
    SwallowHolds(stream, s, q[1..], p);
    NoneBefore(stream, q[1..], q[1].pos, s, p);
    HoldsBelow(stream, q[1..], q[0].End(), p);
  }

  /**
    Queueing an out-of-sequence segment: a position inside the window that the
    segment or the queue held is lost exactly if Loses says so.
   */
  lemma {:induction false} QueueAfterLosesIff(stream: seq<Byte>, q: seq<Seg>, s: Seg, edge: int, p: int)
    requires q != [] && q[0].pos < s.pos < edge && CutFrom(stream, s) && s.Len() > 0 && p < edge
    requires Ordered(stream, q, q[0].pos)
    ensures Holds(QueueAfter(q, s, edge), p) <==> (Covers(s, p) || Holds(q, p)) && !Loses(q, s, p)
    decreases |q|
  {
    if |q| == 1 {
      assert q == [q[0]];
      TailLosesIff(stream, q[0], s, edge, p);
    } else if s.pos < q[1].pos {
      MiddleLosesIff(stream, q, s, p);
    } else {
      var m := if s.pos == q[1].pos then Replace(q[1..], s) else QueueAfter(q[1..], s, edge);
      assert QueueAfter(q, s, edge) == [q[0]] + m && ([q[0]] + m)[1..] == m;
      if s.pos == q[1].pos {
        ReplaceLosesIff(stream, q[1..], s, p);
      } else {
        QueueAfterLosesIff(stream, q[1..], s, edge, p);
      }
      HoldsBelow(stream, q[1..], q[0].End(), p);
      LossIsBehind(q[1..], s, p);
    }
  }

  lemma QueueLosesIff(stream: seq<Byte>, q: seq<Seg>, s: Seg, lo: int, edge: int, p: int)
    requires CutFrom(stream, s) && s.Len() > 0 && lo <= s.pos < edge && p < edge
    requires Ordered(stream, q, lo)
    ensures Holds(Queue(q, s, edge), p) <==> (Covers(s, p) || Holds(q, p)) && !Loses(q, s, p)
  {
    if q == [] {
      assert [s][1..] == [];
    } else if s.pos == q[0].pos {
      ReplaceLosesIff(stream, q, s, p);
    } else if s.pos < q[0].pos {
      SwallowHolds(stream, s, q, p);
      NoneBefore(stream, q, q[0].pos, s, p);
    } else {
      QueueAfterLosesIff(stream, q, s, edge, p);
    }
  }

  /** A byte in the middle of four queued ones arrives again: the two behind it are thrown away. */
  lemma RepeatedByteCutsQueue(b: seq<Byte>)
    requires |b| == 4
    ensures var q, s := [Seg(2, b, false)], Seg(3, b[1..2], false);
      Holds(q, 5) && !Holds(Queue(q, s, 8), 5)
  {
    var q, s := [Seg(2, b, false)], Seg(3, b[1..2], false);
    var m := [Seg(2, b[..1], false), s];
    assert Queue(q, s, 8) == m;
    assert m[1..] == [s] && [s][1..] == [] && q[1..] == [];
    assert !Holds([s][1..], 5) && !Holds(m[1..], 5);
  }

  /** The last byte arrives again, now with the FIN: the FIN is not kept. */
  lemma RepeatedByteDropsFin(b: Byte)
    ensures var q, s := [Seg(2, [b], false)], Seg(2, [b], true);
      Covers(s, 3) && Queue(q, s, 8) == q && !Holds(Queue(q, s, 8), 3)
  {
    assert [Seg(2, [b], false)][1..] == [];
  }

  /** Cutting a queued segment where a later one starts keeps it a non-empty piece of the stream. */
  lemma CutKeeps(stream: seq<Byte>, s: Seg, p: int)
    requires CutFrom(stream, s) && s.Len() > 0 && s.pos < p && (s.fin ==> s.End() <= p)
    ensures var c := CutAt(s, p);
      CutFrom(stream, c) && c.pos == s.pos && c.Len() > 0 && c.fin == s.fin && c.End() <= p && c.End() <= s.End()
  {
  }

  lemma ClipKeeps(stream: seq<Byte>, s: Seg, edge: int)
    requires CutFrom(stream, s) && s.Len() > 0 && s.pos < edge
    ensures var c := ClipToWindow(s, edge);
      && CutFrom(stream, c) && c.pos == s.pos && c.Len() > 0
      && c.End() == (if s.End() <= edge then s.End() else edge)
  {
  }

  lemma ReplaceKeeps(stream: seq<Byte>, q: seq<Seg>, s: Seg, edge: int)
    requires q != [] && CutFrom(stream, s) && s.Len() > 0 && s.pos == q[0].pos
    requires Ordered(stream, q, s.pos)
    ensures var q' := Replace(q, s);
      && Ordered(stream, q', s.pos) && Holds(q', s.pos)
      && (s.End() <= edge && Within(q, edge) ==> Within(q', edge))
  {
    if |s.data| > |q[0].data| {
      SwallowKeeps(stream, s, q, edge);
    }
  }

  lemma {:induction false} QueueAfterKeeps(stream: seq<Byte>, q: seq<Seg>, s: Seg, edge: int)
    requires q != [] && q[0].pos < s.pos < edge
    requires CutFrom(stream, s) && s.Len() > 0
    requires Ordered(stream, q, q[0].pos)
    ensures var q' := QueueAfter(q, s, edge);
      && Ordered(stream, q', q[0].pos) && Holds(q', s.pos)
      && (s.End() <= edge && Within(q, edge) ==> Within(q', edge))
    decreases |q|
  {
    var p := q[0].pos;
    if |q| == 1 {
      if !q[0].fin {
        CutKeeps(stream, q[0], s.pos);
        ClipKeeps(stream, s, edge);
        var c := ClipToWindow(s, edge);
        Cons(stream, c, [], c.pos);
        assert [c] + [] == [c];
        Cons(stream, CutAt(q[0], s.pos), [c], p);
        assert [CutAt(q[0], s.pos), c] == [CutAt(q[0], s.pos)] + [c];
      }
    } else if s.pos == q[1].pos {
      ReplaceKeeps(stream, q[1..], s, edge);
      Cons(stream, q[0], Replace(q[1..], s), p);
    } else if s.pos < q[1].pos {
      SwallowKeeps(stream, s, q[1..], edge);
      var c, m := CutAt(q[0], s.pos), Swallow(s, q[1..]);
      CutKeeps(stream, q[0], s.pos);
      OrderedWeaken(stream, m, s.pos, c.End());
      Cons(stream, c, m, p);
    } else {
      QueueAfterKeeps(stream, q[1..], s, edge);
      Cons(stream, q[0], QueueAfter(q[1..], s, edge), p);
    }
  }

  /** Queueing keeps the invariant, and the first byte of the segment ends up held. */
  lemma QueueKeeps(stream: seq<Byte>, q: seq<Seg>, s: Seg, lo: int, edge: int)
    requires CutFrom(stream, s) && s.Len() > 0 && lo <= s.pos < edge
    requires Ordered(stream, q, lo)
    ensures var q' := Queue(q, s, edge);
      && Ordered(stream, q', lo) && Holds(q', s.pos)
      && (s.End() <= edge && Within(q, edge) ==> Within(q', edge))
  {
    if q == [] {
      Cons(stream, s, [], lo);
      assert [s] + [] == [s];
    } else if s.pos == q[0].pos {
      ReplaceKeeps(stream, q, s, edge);
    } else if s.pos < q[0].pos {
      SwallowKeeps(stream, s, q, edge);
    } else {
      QueueAfterKeeps(stream, q, s, edge);
    }
  }

  /** `up'` is `up` continued by the stream bytes from `nxt` to `nxt'`, with the FIN if it lies in between. */
  predicate Continues(stream: seq<Byte>, nxt: int, up: Up, nxt': int, up': Up)
    requires 0 <= nxt <= nxt' <= |stream| + 1
  {
    && up'.data == up.data + Prefix(stream, nxt')[|Prefix(stream, nxt)|..]
    && (up'.fin <==> up.fin || nxt <= |stream| < nxt')
  }

  /** One accepted segment continues the stream. */
  lemma AppendContinues(stream: seq<Byte>, up: Up, c: Seg)
    requires CutFrom(stream, c)
    ensures Continues(stream, c.pos, up, c.End(), Append(up, c)) || c.Len() == 0
  {
  }

  lemma ContinuesTrans(stream: seq<Byte>, n0: int, u0: Up, n1: int, u1: Up, n2: int, u2: Up)
    requires 0 <= n0 <= n1 <= n2 <= |stream| + 1
    requires Continues(stream, n0, u0, n1, u1) && Continues(stream, n1, u1, n2, u2)
    ensures Continues(stream, n0, u0, n2, u2)
  {
    var p0, p1, p2 := Prefix(stream, n0), Prefix(stream, n1), Prefix(stream, n2);
    assert p2[|p0|..] == p1[|p0|..] + p2[|p1|..];
  }

  /** Handing up queued segments continues the stream and leaves a gap in front of the rest. */
  lemma {:induction false} DrainKeeps(stream: seq<Byte>, r: Rcv, up: Up)
    requires 0 <= r.nxt <= |stream| + 1 && 0 <= r.wnd < 0x1_0000
    requires Ordered(stream, r.ooseq, r.nxt)
    ensures var (r', up') := Drain(r, up);
      RcvOk(stream, r') && r.nxt <= r'.nxt && Continues(stream, r.nxt, up, r'.nxt, up')
    decreases |r.ooseq|
  {
    if r.ooseq != [] && r.ooseq[0].pos == r.nxt {
      var c := r.ooseq[0];
      var r1, up1 := Advance(r, c, r.ooseq[1..]), Append(up, c);
      DrainKeeps(stream, r1, up1);
      AppendContinues(stream, up, c);
      var (r', up') := Drain(r1, up1);
      ContinuesTrans(stream, r.nxt, up, r1.nxt, up1, r'.nxt, up');
    } else {
      assert Prefix(stream, r.nxt)[|Prefix(stream, r.nxt)|..] == [];
    }
  }

  /** While the queue lies inside the window, handing it up moves rcv_nxt and rcv_wnd in step. */
  lemma {:induction false} DrainKeepsEdge(stream: seq<Byte>, r: Rcv, up: Up)
    requires Ordered(stream, r.ooseq, r.nxt) && 0 <= r.wnd < 0x1_0000
    requires Within(r.ooseq, r.nxt + r.wnd)
    ensures SameEdge(r, Drain(r, up).0)
    decreases |r.ooseq|
  {
    if r.ooseq != [] && r.ooseq[0].pos == r.nxt {
      DrainKeepsEdge(stream, Advance(r, r.ooseq[0], r.ooseq[1..]), Append(up, r.ooseq[0]));
    }
  }

  lemma TrimKeeps(stream: seq<Byte>, s: Seg, nxt: int)
    requires CutFrom(stream, s) && s.Len() > 0
    ensures var t := TrimFront(s, nxt);
      && CutFrom(stream, t) && t.Len() > 0 && t.End() == s.End()
      && (s.pos <= nxt < s.End() <==> t.pos == nxt)
  {
  }

  /**
    One arriving segment: the invariant is kept, what is handed up is exactly the
    next piece of the stream, and the FIN is reported exactly when it is passed.
   */
  lemma ReceiveKeeps(stream: seq<Byte>, r: Rcv, s: Seg, alloc: bool)
    requires RcvOk(stream, r) && CutFrom(stream, s)
    ensures var (r', up) := Receive(r, s, alloc);
      RcvOk(stream, r') && r.nxt <= r'.nxt && Continues(stream, r.nxt, Up([], false), r'.nxt, up)
  {
    var none := Up([], false);
    assert Prefix(stream, r.nxt)[|Prefix(stream, r.nxt)|..] == [];
    if s.Len() > 0 {
      TrimKeeps(stream, s, r.nxt);
      var t := TrimFront(s, r.nxt);
      if r.nxt <= t.pos < r.nxt + r.wnd {
        if t.pos == r.nxt {
          ClipKeeps(stream, t, r.nxt + r.wnd);
          AcceptKeeps(stream, r, ClipToWindow(t, r.nxt + r.wnd));
        } else if alloc {
          QueueKeeps(stream, r.ooseq, t, r.nxt + 1, r.nxt + r.wnd);
        }
      }
    }
  }

  lemma AcceptKeeps(stream: seq<Byte>, r: Rcv, s: Seg)
    requires RcvOk(stream, r) && CutFrom(stream, s) && s.pos == r.nxt && s.Len() > 0
    ensures var (r', up) := Accept(r, s);
      RcvOk(stream, r') && r.nxt <= r'.nxt && Continues(stream, r.nxt, Up([], false), r'.nxt, up)
  {
    var none := Up([], false);
    OrderedWeaken(stream, r.ooseq, r.nxt + 1, r.nxt);
    SwallowKeeps(stream, s, r.ooseq, 0);
    var m := Swallow(s, r.ooseq);
    var r1, up1 := Advance(r, m[0], m[1..]), Append(none, m[0]);
    DrainKeeps(stream, r1, up1);
    AppendContinues(stream, none, m[0]);
    var (r', up) := Drain(r1, up1);
    ContinuesTrans(stream, r.nxt, none, r1.nxt, up1, r'.nxt, up);
  }

  /** rcv_nxt and rcv_wnd moved in step, and everything queued still lies inside the window. */
  predicate SameEdge(r: Rcv, r': Rcv) {
    r'.nxt + r'.wnd == r.nxt + r.wnd && 0 <= r'.wnd <= r.wnd && Within(r'.ooseq, r.nxt + r.wnd)
  }

  lemma AcceptKeepsEdge(stream: seq<Byte>, r: Rcv, s: Seg)
    requires RcvOk(stream, r) && CutFrom(stream, s) && s.pos == r.nxt && s.Len() > 0
    requires Within(r.ooseq, r.nxt + r.wnd) && s.End() <= r.nxt + r.wnd
    ensures SameEdge(r, Accept(r, s).0)
  {
    OrderedWeaken(stream, r.ooseq, r.nxt + 1, r.nxt);
    SwallowKeeps(stream, s, r.ooseq, r.nxt + r.wnd);
    var m := Swallow(s, r.ooseq);
    var r1 := Advance(r, m[0], m[1..]);
    assert r1.nxt + r1.wnd == r.nxt + r.wnd;
    DrainKeepsEdge(stream, r1, Append(Up([], false), m[0]));
  }

  /** rcv_wnd modulo 2^16 always tells the right edge. */
  lemma {:induction false} DrainWindow(r: Rcv, up: Up)
    requires 0 <= r.wnd < 0x1_0000
    ensures var (r', _) := Drain(r, up);
      && 0 <= r'.wnd < 0x1_0000 && r.nxt <= r'.nxt
      && (r'.nxt + r'.wnd - r.nxt - r.wnd) % 0x1_0000 == 0
    decreases |r.ooseq|
  {
    if r.ooseq != [] && r.ooseq[0].pos == r.nxt {
      DrainWindow(Advance(r, r.ooseq[0], r.ooseq[1..]), Append(up, r.ooseq[0]));
    }
  }

  /** Where the segments of `q` that join on to `n` without a gap end. */
  function Reach(q: seq<Seg>, n: int): int {
    if q != [] && q[0].pos == n then Reach(q[1..], n + q[0].Len()) else n
  }

  lemma {:induction false} DrainReaches(r: Rcv, up: Up)
    ensures Drain(r, up).0.nxt == Reach(r.ooseq, r.nxt)
    decreases |r.ooseq|
  {
    if r.ooseq != [] && r.ooseq[0].pos == r.nxt {
      DrainReaches(Advance(r, r.ooseq[0], r.ooseq[1..]), Append(up, r.ooseq[0]));
    }
  }

  /**
    Handing up the queue leaves rcv_wnd right exactly when the segments that are now
    in sequence end left of the window edge; otherwise rcv_wnd has wrapped.
   */
  lemma EdgeKeptIff(r: Rcv, up: Up)
    requires 0 <= r.wnd < 0x1_0000
    ensures var (r', _) := Drain(r, up);
      r'.nxt + r'.wnd == r.nxt + r.wnd <==> Reach(r.ooseq, r.nxt) <= r.nxt + r.wnd
  {
    DrainWindow(r, up);
    DrainReaches(r, up);
  }

  /** The branches that put `s` on the queue without cutting it to the window: all but the one at the end. */
  predicate Unclipped(q: seq<Seg>, s: Seg) {
    || q == [] || s.pos < q[0].pos
    || (s.pos == q[0].pos && |s.data| > |q[0].data|)
    || (s.pos > q[0].pos && |q| > 1 && Unclipped(q[1..], s))
  }

  /** A segment that reaches past everything queued swallows the queue whole. */
  lemma {:induction false} SwallowReachesOut(stream: seq<Byte>, c: Seg, q: seq<Seg>, edge: int)
    requires CutFrom(stream, c) && Ordered(stream, q, c.pos) && Within(q, edge) && c.End() > edge
    ensures !Within(Swallow(c, q), edge)
    decreases |q|
  {
    if !c.fin && q != [] {
      OrderedWeaken(stream, q[1..], q[0].End(), c.pos);
      SwallowReachesOut(stream, c.(fin := q[0].fin), q[1..], edge);
    }
  }

  lemma {:induction false} QueueAfterEdgeIff(stream: seq<Byte>, q: seq<Seg>, s: Seg, edge: int)
    requires q != [] && q[0].pos < s.pos < edge && CutFrom(stream, s) && s.Len() > 0
    requires Ordered(stream, q, q[0].pos) && Within(q, edge)
    ensures Within(QueueAfter(q, s, edge), edge) <==> !(s.End() > edge && Unclipped(q, s))
    decreases |q|
  {
    if |q| == 1 {
      if !q[0].fin {
        CutKeeps(stream, q[0], s.pos);
        ClipKeeps(stream, s, edge);
        var b := ClipToWindow(s, edge);
        assert QueueAfter(q, s, edge)[1..] == [b] && [b][1..] == [] && Within([b][1..], edge);
      }
    } else if s.pos <= q[1].pos {
      var a := if s.pos == q[1].pos then q[0] else CutAt(q[0], s.pos);
      var m := if s.pos == q[1].pos then Replace(q[1..], s) else Swallow(s, q[1..]);
      assert QueueAfter(q, s, edge) == [a] + m && ([a] + m)[1..] == m;
      FrontEdgeIff(stream, q[1..], s, edge);
    } else {
      QueueAfterEdgeIff(stream, q[1..], s, edge);
      assert QueueAfter(q, s, edge)[1..] == QueueAfter(q[1..], s, edge);
    }
  }

  /** At the front of (the rest of) the queue. */
  lemma FrontEdgeIff(stream: seq<Byte>, q: seq<Seg>, s: Seg, edge: int)
    requires q != [] && s.pos <= q[0].pos && CutFrom(stream, s) && s.Len() > 0
    requires Ordered(stream, q, s.pos) && Within(q, edge)
    ensures var m := if s.pos == q[0].pos then Replace(q, s) else Swallow(s, q);
      Within(m, edge) <==> !(s.End() > edge && Unclipped(q, s))
  {
    if s.pos < q[0].pos || |s.data| > |q[0].data| {
      if s.End() > edge { SwallowReachesOut(stream, s, q, edge); } else { SwallowKeeps(stream, s, q, edge); }
    }
  }

  /** Queueing leaves everything inside the window exactly if the segment ends there or is cut. */
  lemma QueueEdgeIff(stream: seq<Byte>, q: seq<Seg>, s: Seg, lo: int, edge: int)
    requires CutFrom(stream, s) && s.Len() > 0 && lo <= s.pos < edge
    requires Ordered(stream, q, lo) && Within(q, edge)
    ensures Within(Queue(q, s, edge), edge) <==> !(s.End() > edge && Unclipped(q, s))
  {
    if q == [] {
      assert [s][1..] == [];
    } else if s.pos <= q[0].pos {
      OrderedWeaken(stream, q, q[0].pos, s.pos);
      FrontEdgeIff(stream, q, s, edge);
    } else {
      QueueAfterEdgeIff(stream, q, s, edge);
    }
  }

  /** This segment, once queued, will make rcv_wnd wrap. */
  predicate OverrunsQueue(r: Rcv, s: Seg, alloc: bool) {
    alloc && r.nxt < s.pos < r.nxt + r.wnd < s.End() && Unclipped(r.ooseq, s)
  }

  /**
    An arriving segment, also one that overruns the window, leaves the window edge and
    the queue right if and only if it is not queued uncut beyond the edge.
   */
  lemma ReceiveEdgeIff(stream: seq<Byte>, r: Rcv, s: Seg, alloc: bool)
    requires RcvOk(stream, r) && CutFrom(stream, s) && Within(r.ooseq, r.nxt + r.wnd)
    ensures SameEdge(r, Receive(r, s, alloc).0) <==> !OverrunsQueue(r, s, alloc)
  {
    var t, edge := TrimFront(s, r.nxt), r.nxt + r.wnd;
    if s.Len() > 0 && r.nxt <= t.pos < edge {
      TrimKeeps(stream, s, r.nxt);
      if t.pos == r.nxt {
        ClipKeeps(stream, t, edge);
        AcceptKeepsEdge(stream, r, ClipToWindow(t, edge));
      } else if alloc {
        QueueEdge(stream, r, t);
      }
    } else {
      assert Receive(r, s, alloc).0 == r;
    }
  }

  lemma QueueEdge(stream: seq<Byte>, r: Rcv, t: Seg)
    requires RcvOk(stream, r) && Within(r.ooseq, r.nxt + r.wnd)
    requires CutFrom(stream, t) && t.Len() > 0 && r.nxt < t.pos < r.nxt + r.wnd
    ensures SameEdge(r, r.(ooseq := Queue(r.ooseq, t, r.nxt + r.wnd))) <==> !(t.End() > r.nxt + r.wnd && Unclipped(r.ooseq, t))
  {
    QueueEdgeIff(stream, r.ooseq, t, r.nxt + 1, r.nxt + r.wnd);
  }

  /**
    The first segment put on an empty queue is not clipped to the window, so a FIN
    one past the edge (which lwIP's own sender may send) wraps rcv_wnd to 65535.
   */
  lemma FinPastEdgeWrapsWindow(a: Byte, b: Byte)
    ensures var (r1, _) := Receive(Rcv(0, 2, []), Seg(1, [b], true), true);
      var (r2, up) := Receive(r1, Seg(0, [a], false), true);
      r2 == Rcv(3, 0xffff, []) && up == Up([a, b], true)
  {
    var s := Seg(1, [b], true);
    var m := Swallow(Seg(0, [a], false), [s]);
    assert m == [Seg(0, [a], false), s];
    assert m[1..] == [s] && [s][1..] == [];
    var r1, u1 := Rcv(1, 1, [s]), Up([a], false);
    assert Advance(Rcv(0, 2, [s]), m[0], m[1..]) == r1 && Append(Up([], false), m[0]) == u1;
    assert Advance(r1, s, []) == Rcv(3, 0xffff, []);
    assert Append(u1, s) == Up([a, b], true);
    assert Drain(r1, u1) == Drain(Rcv(3, 0xffff, []), Up([a, b], true));
  }

  /** What is cut off the new segment is held by the queued segment that follows it directly. */
  lemma {:induction false} SwallowReaches(stream: seq<Byte>, c: Seg, q: seq<Seg>)
    requires CutFrom(stream, c) && c.Len() > 0 && Ordered(stream, q, c.pos)
    ensures var m := Swallow(c, q);
      m[0].End() >= c.End() || (|m| > 1 && m[1].pos == m[0].End() && m[1].End() >= c.End())
    decreases |q|
  {
    if !c.fin && q != [] && c.DataEnd() >= q[0].DataEnd() {
      OrderedWeaken(stream, q[1..], q[0].End(), c.pos);
      SwallowReaches(stream, c.(fin := q[0].fin), q[1..]);
    }
  }

  lemma AcceptProgress(stream: seq<Byte>, r: Rcv, s: Seg)
    requires RcvOk(stream, r) && CutFrom(stream, s) && s.pos == r.nxt && s.Len() > 0
    ensures Accept(r, s).0.nxt >= s.End()
  {
    OrderedWeaken(stream, r.ooseq, r.nxt + 1, r.nxt);
    SwallowKeeps(stream, s, r.ooseq, 0);
    SwallowReaches(stream, s, r.ooseq);
    var m := Swallow(s, r.ooseq);
    var r1, u1 := Advance(r, m[0], m[1..]), Append(Up([], false), m[0]);
    if m[0].End() >= s.End() {
      DrainWindow(r1, u1);
    } else {
      DrainWindow(Advance(r1, m[1], m[1..][1..]), Append(u1, m[1]));
    }
  }

  /** An in-order segment is never wasted: rcv_nxt reaches its end, or the window edge if that comes first. */
  lemma ReceiveProgress(stream: seq<Byte>, r: Rcv, s: Seg, alloc: bool)
    requires RcvOk(stream, r) && CutFrom(stream, s)
    requires s.pos <= r.nxt < s.End() && r.wnd > 0
    ensures Receive(r, s, alloc).0.nxt >= if s.End() <= r.nxt + r.wnd then s.End() else r.nxt + r.wnd
  {
    TrimKeeps(stream, s, r.nxt);
    var t := TrimFront(s, r.nxt);
    ClipKeeps(stream, t, r.nxt + r.wnd);
    AcceptProgress(stream, r, ClipToWindow(t, r.nxt + r.wnd));
    assert Receive(r, s, alloc) == Accept(r, ClipToWindow(t, r.nxt + r.wnd));
  }

  /** Data that all lies left of `edge` leaves rcv_nxt and the queue left of `edge`. */
  lemma {:induction false} DrainStaysLeft(stream: seq<Byte>, r: Rcv, up: Up, edge: int)
    requires Ordered(stream, r.ooseq, r.nxt) && Within(r.ooseq, edge) && r.nxt <= edge
    ensures Drain(r, up).0.nxt <= edge && Within(Drain(r, up).0.ooseq, edge)
    decreases |r.ooseq|
  {
    if r.ooseq != [] && r.ooseq[0].pos == r.nxt {
      DrainStaysLeft(stream, Advance(r, r.ooseq[0], r.ooseq[1..]), Append(up, r.ooseq[0]), edge);
    }
  }

  lemma AcceptStaysLeft(stream: seq<Byte>, r: Rcv, s: Seg, edge: int)
    requires RcvOk(stream, r) && CutFrom(stream, s) && s.pos == r.nxt && s.Len() > 0
    requires Within(r.ooseq, edge) && s.End() <= edge
    ensures Accept(r, s).0.nxt <= edge && Within(Accept(r, s).0.ooseq, edge)
  {
    OrderedWeaken(stream, r.ooseq, r.nxt + 1, r.nxt);
    SwallowKeeps(stream, s, r.ooseq, edge);
    var m := Swallow(s, r.ooseq);
    DrainStaysLeft(stream, Advance(r, m[0], m[1..]), Append(Up([], false), m[0]), edge);
  }

  /** A peer that stays left of `edge` keeps rcv_nxt and the queue left of `edge`. */
  lemma ReceiveStaysLeft(stream: seq<Byte>, r: Rcv, s: Seg, alloc: bool, edge: int)
    requires RcvOk(stream, r) && CutFrom(stream, s)
    requires Within(r.ooseq, edge) && r.nxt <= edge
    requires s.pos < r.nxt + r.wnd ==> s.End() <= edge
    ensures Receive(r, s, alloc).0.nxt <= edge && Within(Receive(r, s, alloc).0.ooseq, edge)
  {
    var t := TrimFront(s, r.nxt);
    if s.Len() == 0 || !(r.nxt <= t.pos < r.nxt + r.wnd) {
      assert Receive(r, s, alloc).0 == r;
    } else {
      TrimKeeps(stream, s, r.nxt);
      if t.pos == r.nxt {
        ClipKeeps(stream, t, r.nxt + r.wnd);
        AcceptStaysLeft(stream, r, ClipToWindow(t, r.nxt + r.wnd), edge);
      } else {
        QueueWithin(stream, r.ooseq, t, r.nxt + 1, r.nxt + r.wnd, edge);
      }
    }
  }

  /** Queueing a segment that lies left of `edge` keeps the queue left of `edge`. */
  lemma {:induction false} QueueWithin(stream: seq<Byte>, q: seq<Seg>, s: Seg, lo: int, wedge: int, edge: int)
    requires CutFrom(stream, s) && s.Len() > 0 && lo <= s.pos < wedge
    requires Ordered(stream, q, lo) && Within(q, edge) && s.End() <= edge
    ensures Within(Queue(q, s, wedge), edge)
  {
    if q == [] {
    } else if s.pos > q[0].pos {
      QueueAfterWithin(stream, q, s, wedge, edge);
    } else if s.pos < q[0].pos || |s.data| > |q[0].data| {
      SwallowKeeps(stream, s, q, edge);
    }
  }

  lemma {:induction false} QueueAfterWithin(stream: seq<Byte>, q: seq<Seg>, s: Seg, wedge: int, edge: int)
    requires q != [] && q[0].pos < s.pos < wedge
    requires CutFrom(stream, s) && s.Len() > 0
    requires Ordered(stream, q, q[0].pos) && Within(q, edge) && s.End() <= edge
    ensures Within(QueueAfter(q, s, wedge), edge)
    decreases |q|
  {
    if |q| == 1 {
      ClipKeeps(stream, s, wedge);
      assert QueueAfter(q, s, wedge)[1..] == if q[0].fin then [] else [ClipToWindow(s, wedge)];
    } else if s.pos < q[1].pos || (s.pos == q[1].pos && |s.data| > |q[1].data|) {
      SwallowKeeps(stream, s, q[1..], edge);
      assert QueueAfter(q, s, wedge)[1..] == Swallow(s, q[1..]);
    } else if s.pos == q[1].pos {
      assert QueueAfter(q, s, wedge)[1..] == q[1..];
    } else {
      QueueAfterWithin(stream, q[1..], s, wedge, edge);
      assert QueueAfter(q, s, wedge)[1..] == QueueAfter(q[1..], s, wedge);
    }
  }
}
