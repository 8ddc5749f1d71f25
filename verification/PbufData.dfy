/**
  Reading and writing packets that are cut into pbufs in different ways (pbuf.c).
  A chain is the sequence of its payloads and stands for their concatenation;
  tot_len of a pbuf is the length from there to the end.
 */
module PbufData {

  type Byte = bv8
  type Chain = seq<seq<Byte>>

  datatype Err = Ok | ErrArg | ErrMem | ErrVal

  function Flat(c: Chain): seq<Byte> {
    if c == [] then [] else c[0] + Flat(c[1..])
  }

  /** tot_len of pbuf `i`. */
  function Tot(c: Chain, i: nat): nat
    requires i <= |c|
  {
    |Flat(c[i..])|
  }

  /** The two chains are cut alike. */
  predicate SameCuts(c: Chain, d: Chain) {
    |c| == |d| && forall i :: 0 <= i < |c| ==> |c[i]| == |d[i]|
  }

  /** Overwriting from `at` on. */
  function Put(s: seq<Byte>, at: nat, data: seq<Byte>): seq<Byte>
    requires at + |data| <= |s|
  {
    s[..at] + data + s[at + |data|..]
  }

  /** Up to `n` bytes from `at` on, as far as there are any. */
  function Get(s: seq<Byte>, at: nat, n: nat): seq<Byte> {
    if at >= |s| then [] else if at + n <= |s| then s[at..at + n] else s[at..]
  }

  lemma {:induction false} FlatSplit(a: Chain, b: Chain)
    ensures Flat(a + b) == Flat(a) + Flat(b)
  {
    if a == [] { assert a + b == b; } else {
      assert (a + b)[1..] == a[1..] + b;
      FlatSplit(a[1..], b);
    }
  }

  lemma FlatPrefix(c: Chain, i: nat)
    requires i < |c|
    ensures Flat(c[..i+1]) == Flat(c[..i]) + c[i]
  {
    var x := [c[i]];
    assert c[..i+1] == c[..i] + x;
    assert x[1..] == [] && Flat(x) == x[0] + Flat(x[1..]);
    FlatSplit(c[..i], x);
  }

  lemma FlatSuffix(c: Chain, i: nat)
    requires i < |c|
    ensures Flat(c[i..]) == c[i] + Flat(c[i+1..])
  {
    assert c[i..][1..] == c[i+1..];
  }

  /** The bytes before pbuf `i`, of pbuf `i`, and after it. */
  lemma FlatAt(c: Chain, i: nat)
    requires i < |c|
    ensures Flat(c) == Flat(c[..i]) + c[i] + Flat(c[i+1..])
    ensures Flat(c[..i+1]) == Flat(c[..i]) + c[i]
    ensures Flat(c[i..]) == c[i] + Flat(c[i+1..])
  {
    FlatPrefix(c, i);
    FlatSuffix(c, i);
    FlatCut(c, i + 1);
  }

  lemma FlatCut(c: Chain, i: nat)
    requires i <= |c|
    ensures Flat(c) == Flat(c[..i]) + Flat(c[i..])
  {
    assert c == c[..i] + c[i..];
    FlatSplit(c[..i], c[i..]);
  }

  lemma {:induction false} SameCutsFlat(c: Chain, d: Chain, i: nat)
    requires SameCuts(c, d) && i <= |c|
    ensures |Flat(c[..i])| == |Flat(d[..i])|
  {
    if i > 0 {
      SameCutsFlat(c, d, i - 1);
      FlatAt(c, i - 1);
      FlatAt(d, i - 1);
    } else {
      assert c[..0] == [] && d[..0] == [];
    }
  }

  /** MEMCPY into pbuf `i` at offset `o` overwrites that part of the packet. */
  lemma PutPiece(c: Chain, i: nat, o: nat, data: seq<Byte>)
    requires i < |c| && o + |data| <= |c[i]|
    ensures var d := c[i := Put(c[i], o, data)];
      && SameCuts(c, d) && |Flat(c[..i])| + o + |data| <= |Flat(c)|
      && Flat(d) == Put(Flat(c), |Flat(c[..i])| + o, data)
  {
    var d := c[i := Put(c[i], o, data)];
    FlatAt(c, i);
    FlatAt(d, i);
    assert d[..i] == c[..i] && d[i+1..] == c[i+1..];
    var a, z := Flat(c[..i]), Flat(c[i+1..]);
    PutInside(a, c[i], z, o, data);
    assert Flat(d) == a + Put(c[i], o, data) + z;
  }

  lemma PutInside(a: seq<Byte>, b: seq<Byte>, c: seq<Byte>, o: nat, data: seq<Byte>)
    requires o + |data| <= |b|
    ensures Put(a + b + c, |a| + o, data) == a + Put(b, o, data) + c
  {
    var s := a + b + c;
    assert s[..|a| + o] == a + b[..o];
    assert s[|a| + o + |data|..] == b[o + |data|..] + c;
  }

  method Store(c: Chain, i: nat, o: nat, data: seq<Byte>) returns (d: Chain)
    requires i < |c| && o + |data| <= |c[i]|
    ensures SameCuts(c, d) && |Flat(c[..i])| + o + |data| <= |Flat(c)|
    ensures Flat(d) == Put(Flat(c), |Flat(c[..i])| + o, data)
  {
    PutPiece(c, i, o, data);
    d := c[i := Put(c[i], o, data)];
  }

  // ---------------------------------------------------------------------------
  // pbuf_copy_partial, pbuf_skip, pbuf_take, pbuf_take_at
  // ---------------------------------------------------------------------------

  /** pbuf_copy_partial: whatever the cuts, the bytes from `offset0` on, at most `len0` of them. */
  method CopyPartial(buf: Chain, len0: nat, offset0: nat) returns (data: seq<Byte>)
    ensures data == Get(Flat(buf), offset0, len0)
  {
    var p, len, offset := buf, len0, offset0;
    data := [];
    while len != 0 && p != []
      invariant 0 <= len && 0 <= offset
      invariant data + Get(Flat(p), offset, len) == Get(Flat(buf), offset0, len0)
      decreases |p|
    {
      if offset != 0 && offset >= |p[0]| {
        GetSkip(p[0], Flat(p[1..]), offset, len);
        offset := offset - |p[0]|;
      } else {
        var n := if |p[0]| - offset > len then len else |p[0]| - offset;
        GetPiece(data, p[0], Flat(p[1..]), offset, len, n);
        data, len, offset := data + p[0][offset..offset + n], len - n, 0;
      }
      p := p[1..];
    }
    assert Get(Flat(p), offset, len) == [];
  }

  lemma GetSkip(a: seq<Byte>, b: seq<Byte>, at: nat, n: nat)
    requires at >= |a|
    ensures Get(a + b, at, n) == Get(b, at - |a|, n)
  {
  }

  lemma GetPiece(data: seq<Byte>, a: seq<Byte>, b: seq<Byte>, at: nat, len: nat, n: nat)
    requires at <= |a| && n == (if |a| - at > len then len else |a| - at)
    ensures (data + a[at..at + n]) + Get(b, 0, len - n) == data + Get(a + b, at, len)
  {
    var s := a + b;
    if at >= |s| {
      assert b == [] && a[at..at + n] == [];
    } else if at + len <= |s| {
      assert s[at..at + len] == a[at..at + n] + b[..len - n];
    } else {
      assert s[at..] == a[at..] + b;
    }
  }

  /** pbuf_skip: the pbuf that holds byte `offset`, if there is one, and where in it. */
  method Skip(buf: Chain, offset: nat) returns (i: nat, left: nat)
    ensures i <= |buf| && offset == |Flat(buf[..i])| + left
    ensures i < |buf| <==> offset < |Flat(buf)|
    ensures i < |buf| ==> left < |buf[i]|
  {
    i, left := 0, offset;
    assert buf[..0] == [];
    while i < |buf| && |buf[i]| <= left
      invariant i <= |buf| && offset == |Flat(buf[..i])| + left
    {
      FlatAt(buf, i);
      left := left - |buf[i]|;
      i := i + 1;
    }
    if i < |buf| { FlatAt(buf, i); } else { assert buf[..i] == buf; }
  }

  /** The loop of pbuf_take from pbuf `i0` on. */
  method Fill(buf: Chain, i0: nat, data: seq<Byte>) returns (d: Chain)
    requires i0 <= |buf| && |data| <= Tot(buf, i0)
    ensures SameCuts(buf, d) && |Flat(buf[..i0])| + |data| <= |Flat(buf)|
    ensures Flat(d) == Put(Flat(buf), |Flat(buf[..i0])|, data)
  {
    d := buf;
    var i, done := i0, 0;
    ghost var at := |Flat(buf[..i0])|;
    StartOfTail(buf, i0);
    while done != |data|
      invariant i0 <= i <= |buf| && 0 <= done <= |data| && SameCuts(buf, d)
      invariant done == |data| || at + done == |Flat(buf[..i])|
      invariant at + |data| <= |Flat(buf)| == |Flat(d)| && Flat(d) == Put(Flat(buf), at, data[..done])
      decreases |buf| - i
    {
      assert buf[..|buf|] == buf;
      var n := |data| - done;
      if n > |d[i]| { n := |d[i]|; }
      FlatAt(buf, i);
      d := FillPiece(d, i, data, done, n, buf, at);
      done, i := done + n, i + 1;
    }
    assert data[..done] == data;
  }

  method FillPiece(c: Chain, i: nat, data: seq<Byte>, done: nat, n: nat, ghost buf: Chain, ghost at: nat) returns (d: Chain)
    requires SameCuts(buf, c) && i < |c| && done + n <= |data| && n <= |c[i]|
    requires at + |data| <= |Flat(buf)| && at + done == |Flat(buf[..i])| && Flat(c) == Put(Flat(buf), at, data[..done])
    ensures SameCuts(buf, d) && Flat(d) == Put(Flat(buf), at, data[..done + n])
  {
    SameCutsFlat(buf, c, i);
    PutMore(Flat(buf), at, data, done, n);
    d := Store(c, i, 0, data[done..done + n]);
    SameCutsTrans(buf, c, d);
  }

  lemma StartOfTail(buf: Chain, i: nat)
    requires i <= |buf|
    ensures |Flat(buf[..i])| + Tot(buf, i) == |Flat(buf)|
    ensures Put(Flat(buf), |Flat(buf[..i])|, []) == Flat(buf)
  {
    FlatCut(buf, i);
  }

  lemma PutPut(s: seq<Byte>, at: nat, a: seq<Byte>, b: seq<Byte>)
    requires at + |a| + |b| <= |s|
    ensures Put(Put(s, at, a), at + |a|, b) == Put(s, at, a + b)
  {
  }

  lemma PutMore(s: seq<Byte>, at: nat, data: seq<Byte>, done: nat, n: nat)
    requires at + |data| <= |s| && done + n <= |data|
    ensures Put(Put(s, at, data[..done]), at + done, data[done..done + n]) == Put(s, at, data[..done + n])
  {
    PutPut(s, at, data[..done], data[done..done + n]);
    assert data[..done] + data[done..done + n] == data[..done + n];
  }

  /** pbuf_take */
  method Take(buf: Chain, data: seq<Byte>) returns (d: Chain, e: Err)
    ensures SameCuts(buf, d)
    ensures e == if buf == [] then ErrArg else if |Flat(buf)| < |data| then ErrMem else Ok
    ensures e == Ok ==> |data| <= |Flat(buf)| && Flat(d) == Put(Flat(buf), 0, data)
    ensures e != Ok ==> d == buf
  {
    d := buf;
    if buf == [] { return d, ErrArg; }
    assert buf[0..] == buf && buf[..0] == [];
    if Tot(buf, 0) < |data| { return d, ErrMem; }
    d := Fill(buf, 0, data);
    e := Ok;
  }

  /** pbuf_take_at: it fails when the last byte does not fit, and also for no bytes at the very end. */
  method TakeAt(buf: Chain, data: seq<Byte>, offset: nat) returns (d: Chain, e: Err)
    ensures SameCuts(buf, d)
    ensures e == if offset < |Flat(buf)| && offset + |data| <= |Flat(buf)| then Ok else ErrMem
    ensures e == Ok ==> offset + |data| <= |Flat(buf)| && Flat(d) == Put(Flat(buf), offset, data)
    ensures e != Ok ==> d == buf
  {
    d := buf;
    var i, left := Skip(buf, offset);
    StartOfTail(buf, i);
    if i == |buf| || Tot(buf, i) < left + |data| { return d, ErrMem; }
    var first := |buf[i]| - left;
    if first > |data| { first := |data|; }
    d := Store(buf, i, left, data[..first]);
    if |data| > first {
      FlatAt(buf, i);
      FlatAt(d, i);
      SameCutsFlat(buf, d, i + 1);
      SameCutsFlat(buf, d, |buf|);
      assert buf[..|buf|] == buf && d[..|d|] == d;
      StartOfTail(d, i + 1);
      PutPut(Flat(buf), offset, data[..first], data[first..]);
      assert data[..first] + data[first..] == data;
      d := Fill(d, i + 1, data[first..]);
    } else {
      assert data[..first] == data;
    }
    e := Ok;
  }

  /** What pbuf_take_at wrote, pbuf_copy_partial reads back; all other bytes are untouched. */
  lemma ReadBack(s: seq<Byte>, at: nat, data: seq<Byte>, from: nat, n: nat)
    requires at + |data| <= |s|
    ensures Get(Put(s, at, data), at, |data|) == data
    ensures from + n <= at || at + |data| <= from ==> Get(Put(s, at, data), from, n) == Get(s, from, n)
  {
    var t := Put(s, at, data);
    assert |t| == |s|;
    if data == [] { assert t == s; }
    if from + n <= at {
      assert t[from..from + n] == s[from..from + n];
    } else if at + |data| <= from <= |s| {
      assert t[from..] == s[from..];
      if from + n <= |s| { assert t[from..from + n] == t[from..][..n] && s[from..from + n] == s[from..][..n]; }
    }
  }

  // ---------------------------------------------------------------------------
  // pbuf_copy
  // ---------------------------------------------------------------------------

  function Min(a: nat, b: nat): nat { if a < b then a else b }

  /** `len == tot_len` although there is a successor: lwIP takes this for the end of a packet in a queue. */
  predicate Stuck(c: Chain, i: nat)
    requires i < |c|
  {
    i + 1 < |c| && |c[i]| == Tot(c, i)
  }

  /** Where the copy loop is: pbuf and offset in the target and in the source. */
  datatype Cursor = Cursor(i: nat, oi: nat, j: nat, oj: nat)

  predicate Inside(to: Chain, from: Chain, c: Cursor) {
    c.i < |to| && c.oi <= |to[c.i]| && c.j < |from| && c.oj <= |from[c.j]|
  }

  /** The size of the next piece. */
  function Piece(to: Chain, from: Chain, c: Cursor): nat
    requires Inside(to, from, c)
  {
    Min(|to[c.i]| - c.oi, |from[c.j]| - c.oj)
  }

  function Next(to: Chain, from: Chain, c: Cursor): Cursor
    requires Inside(to, from, c)
  {
    var oi, oj := c.oi + Piece(to, from, c), c.oj + Piece(to, from, c);
    Cursor(if oi == |to[c.i]| then c.i + 1 else c.i, if oi == |to[c.i]| then 0 else oi,
           if oj == |from[c.j]| then c.j + 1 else c.j, if oj == |from[c.j]| then 0 else oj)
  }

  /** The outcome of the copy loop from `c` on. */
  function Outcome(to: Chain, from: Chain, c: Cursor): Err
    requires Inside(to, from, c)
    decreases |to| - c.i + |from| - c.j
  {
    var d := Next(to, from, c);
    if d.i == |to| && d.j < |from| then ErrArg
    else if d.j < |from| && Stuck(from, d.j) then ErrVal
    else if d.i < |to| && Stuck(to, d.i) then ErrVal
    else if d.j == |from| then Ok
    else Outcome(to, from, d)
  }

  /** How far a cursor has come. */
  function Pos(c: Chain, i: nat, o: nat): nat
    requires i <= |c|
  {
    |Flat(c[..i])| + o
  }

  /** One pbuf further, when the end of pbuf `i` is reached. */
  lemma PosStep(c: Chain, i: nat, o: nat)
    requires i < |c| && o <= |c[i]|
    ensures o == |c[i]| ==> Pos(c, i, o) == Pos(c, i + 1, 0)
    ensures Pos(c, i, o) + (|c[i]| - o) + Tot(c, i + 1) == |Flat(c)|
  {
    FlatAt(c, i);
  }

  /** The first `k` bytes of the target are those of the source, the others are as they were. */
  predicate Copied(to: Chain, out: Chain, from: Chain, k: nat) {
    && SameCuts(to, out) && k <= |Flat(from)| <= |Flat(to)|
    && Flat(out) == Put(Flat(to), 0, Flat(from)[..k])
  }

  /** The two cursors stand at the same place `k` of the packet. */
  predicate Level(to: Chain, from: Chain, c: Cursor, k: nat) {
    Inside(to, from, c) && k == Pos(to, c.i, c.oi) == Pos(from, c.j, c.oj)
  }

  /** The piece that fits both pbufs is copied. */
  method CopyPiece(out: Chain, c: Cursor, from: Chain, ghost to: Chain, ghost k: nat) returns (d: Chain, len: nat)
    requires Copied(to, out, from, k) && Level(to, from, c, k)
    ensures len == Piece(to, from, c) && Copied(to, d, from, k + len)
  {
    var room, left := |out[c.i]| - c.oi, |from[c.j]| - c.oj;
    len := if room >= left then left else room;
    SameCutsFlat(to, out, c.i);
    PieceOf(from, c.j, c.oj, len);
    var piece := from[c.j][c.oj..c.oj + len];
    PutPut(Flat(to), 0, Flat(from)[..k], piece);
    d := Store(out, c.i, c.oi, piece);
    assert Flat(d) == Put(Flat(to), 0, Flat(from)[..k] + piece);
    SameCutsTrans(to, out, d);
  }

  lemma SameCutsTrans(a: Chain, b: Chain, c: Chain)
    requires SameCuts(a, b) && SameCuts(b, c)
    ensures SameCuts(a, c)
  {
  }

  lemma PieceOf(c: Chain, j: nat, o: nat, len: nat)
    requires j < |c| && o + len <= |c[j]|
    ensures Pos(c, j, o) + len <= |Flat(c)|
    ensures Flat(c)[..Pos(c, j, o)] + c[j][o..o + len] == Flat(c)[..Pos(c, j, o) + len]
  {
    FlatAt(c, j);
    var a, b, s := Flat(c[..j]), c[j], Flat(c);
    assert s[..|a| + o] == a + b[..o];
    assert s[..|a| + o + len] == a + b[..o + len];
    assert b[..o] + b[o..o + len] == b[..o + len];
  }

  lemma NextLevel(to: Chain, from: Chain, c: Cursor, k: nat)
    requires Level(to, from, c, k)
    ensures var d := Next(to, from, c); var k' := k + Piece(to, from, c);
      && k' <= |Flat(from)| && d.i <= |to| && d.j <= |from|
      && Pos(to, d.i, d.oi) == k' == Pos(from, d.j, d.oj)
      && (d.i < |to| && d.j < |from| ==> Level(to, from, d, k'))
      && (d.j == |from| ==> k' == |Flat(from)|) && (d.i == |to| ==> k' == |Flat(to)|)
  {
    PosStep(to, c.i, c.oi + Piece(to, from, c));
    PosStep(from, c.j, c.oj + Piece(to, from, c));
    assert from[..|from|] == from && to[..|to|] == to;
  }

  /** The cursors move on, and the two checks for packet queues. */
  method Advance(to: Chain, from: Chain, c: Cursor, len: nat) returns (more: bool, e: Err, d: Cursor)
    requires Inside(to, from, c) && len == Piece(to, from, c)
    ensures d == Next(to, from, c)
    ensures more ==> Inside(to, from, d) && Outcome(to, from, c) == Outcome(to, from, d)
    ensures !more ==> e == Outcome(to, from, c) && (e == Ok ==> d.j == |from|)
  {
    var i, oi, j, oj := c.i, c.oi + len, c.j, c.oj + len;
    var over := false;
    if oj >= |from[j]| { j, oj := j + 1, 0; }
    if oi == |to[i]| {
      i, oi := i + 1, 0;
      over := i == |to| && j < |from|;
    }
    d := Cursor(i, oi, j, oj);
    more, e := false, Ok;
    if over {
      e := ErrArg;
    } else if j < |from| && Stuck(from, j) {
      e := ErrVal;
    } else if i < |to| && Stuck(to, i) {
      e := ErrVal;
    } else {
      more := j < |from|;
    }
  }

  /**
    pbuf_copy. On success exactly a prefix is overwritten with the source packet; on
    an error part of that may have happened. The loop always ends.
   */
  method Copy(to: Chain, from: Chain) returns (out: Chain, e: Err, ghost k: nat)
    ensures to == [] || from == [] || |Flat(to)| < |Flat(from)| ==> e == ErrArg && out == to
    ensures to != [] && from != [] && |Flat(from)| <= |Flat(to)| ==>
      e == Outcome(to, from, START) && Copied(to, out, from, k) && (e == Ok ==> k == |Flat(from)|)
  {
    out, e, k := to, Ok, 0;
    if to == [] || from == [] || |Flat(to)| < |Flat(from)| { return out, ErrArg, 0; }
    var c, more := Cursor(0, 0, 0, 0), true;
    CopyStart(to, from);
    ghost var outcome := Outcome(to, from, c);
    while more
      invariant Copied(to, out, from, k)
      invariant more ==> Level(to, from, c, k) && Outcome(to, from, c) == outcome
      invariant !more ==> e == outcome && (e == Ok ==> k == |Flat(from)|)
      decreases more, |to| - c.i + |from| - c.j
    {
      out, more, e, c, k := Turn(to, out, from, c, k);
    }
  }

  /** One turn of the loop. */
  method Turn(to: Chain, out: Chain, from: Chain, c: Cursor, ghost k: nat)
      returns (out': Chain, more: bool, e: Err, d: Cursor, ghost k': nat)
    requires Copied(to, out, from, k) && Level(to, from, c, k)
    ensures Copied(to, out', from, k')
    ensures more ==> Level(to, from, d, k') && Outcome(to, from, d) == Outcome(to, from, c)
    ensures more ==> |to| - d.i + |from| - d.j < |to| - c.i + |from| - c.j
    ensures !more ==> e == Outcome(to, from, c) && (e == Ok ==> k' == |Flat(from)|)
  {
    NextLevel(to, from, c, k);
    var len;
    out', len := CopyPiece(out, c, from, to, k);
    k' := k + len;
    more, e, d := Advance(to, from, c, len);
  }

  lemma CopyStart(to: Chain, from: Chain)
    requires |Flat(from)| <= |Flat(to)|
    ensures Copied(to, to, from, 0)
    ensures to != [] && from != [] ==> Level(to, from, Cursor(0, 0, 0, 0), 0)
  {
    assert to[..0] == [] && from[..0] == [] && Put(Flat(to), 0, []) == Flat(to);
  }

  /** The last pbuf holds something, or there is only one. */
  predicate Solid(c: Chain) {
    |c| <= 1 || |c[|c|-1]| > 0
  }

  lemma {:induction false} SolidTot(c: Chain, i: nat)
    requires Solid(c) && 0 < i < |c|
    ensures Tot(c, i) > 0
    decreases |c| - i
  {
    FlatSuffix(c, i);
    if i + 1 < |c| { SolidTot(c, i + 1); }
  }

  lemma NotStuck(c: Chain, i: nat)
    requires Solid(c) && i < |c|
    ensures !Stuck(c, i)
  {
    FlatSuffix(c, i);
    if i + 1 < |c| { SolidTot(c, i + 1); }
  }

  /** While the source is not finished, some of it is left. */
  lemma SourceLeft(from: Chain, j: nat, oj: nat)
    requires Solid(from) && j < |from| && oj <= |from[j]| && (oj < |from[j]| || (j > 0 && oj == 0))
    ensures Pos(from, j, oj) < |Flat(from)|
  {
    PosStep(from, j, oj);
    if j + 1 < |from| { SolidTot(from, j + 1); }
  }

  /** Between packets that do not end in an empty pbuf the copy succeeds, however they are cut. */
  lemma {:induction false} CopySucceedsFrom(to: Chain, from: Chain, c: Cursor, k: nat)
    requires Solid(to) && Solid(from) && |Flat(from)| <= |Flat(to)| && Level(to, from, c, k)
    ensures Outcome(to, from, c) == Ok
    decreases |to| - c.i + |from| - c.j
  {
    var d := Next(to, from, c);
    NextLevel(to, from, c, k);
    if d.j < |from| {
      SourceLeft(from, d.j, d.oj);
      NotStuck(from, d.j);
    }
    if d.i < |to| { NotStuck(to, d.i); }
    if d.j < |from| { CopySucceedsFrom(to, from, d, k + Piece(to, from, c)); }
  }

  lemma CopySucceeds(to: Chain, from: Chain)
    requires to != [] && from != [] && Solid(to) && Solid(from) && |Flat(from)| <= |Flat(to)|
    ensures Outcome(to, from, START) == Ok
  {
    CopyStart(to, from);
    CopySucceedsFrom(to, from, Cursor(0, 0, 0, 0), 0);
  }

  // When it fails. ---------------------------------------------------------------

  /** The last pbuf that holds something (the first one if none does). */
  function LastFull(c: Chain): nat
    requires c != []
    ensures LastFull(c) < |c|
  {
    if |c| == 1 || c[|c|-1] != [] then |c| - 1 else LastFull(c[..|c|-1])
  }

  lemma {:induction false} LastFullTot(c: Chain, i: nat)
    requires c != [] && i <= |c|
    ensures Tot(c, i) == 0 <==> LastFull(c) < i || (i == 0 && LastFull(c) == 0 && c[0] == [])
  {
    if i == |c| {
      assert c[i..] == [];
    } else if |c| == 1 {
      FlatSuffix(c, 0);
    } else {
      var b, x := c[..|c|-1], c[|c|-1..];
      assert x[1..] == [];
      assert Flat(x) == x[0];
      assert c[i..] == b[i..] + x;
      FlatSplit(b[i..], x);
      LastFullTot(b, i);
    }
  }

  lemma StuckIff(c: Chain, i: nat)
    requires i < |c|
    ensures Stuck(c, i) <==> LastFull(c) <= i < |c| - 1
  {
    FlatSuffix(c, i);
    LastFullTot(c, i + 1);
  }

  /** Room in the target before its last full pbuf. */
  function Before(c: Chain): nat
    requires c != []
  {
    |Flat(c[..LastFull(c)])|
  }

  lemma {:induction false} PrefixGrows(c: Chain, i: nat, j: nat)
    requires i <= j <= |c|
    ensures |Flat(c[..i])| <= |Flat(c[..j])|
    ensures i < j && |Flat(c[..i])| == |Flat(c[..j])| ==> c[j-1] == []
    decreases j
  {
    if i < j {
      PrefixGrows(c, i, j - 1);
      FlatPrefix(c, j - 1);
    }
  }

  /** The target ends in empty pbufs: the copy succeeds exactly if it stops short of its last full pbuf. */
  predicate StopsShort(to: Chain, n: nat)
    requires to != []
  {
    var z := LastFull(to);
    n < Before(to) || (n == Before(to) && z > 0 && to[z-1] == [])
  }

  /** Before the last full pbuf of the target, the turn after which the source is finished. */
  lemma StoppedShort(to: Chain, from: Chain, c: Cursor, k: nat)
    requires to != [] && Level(to, from, c, k) && c.i < LastFull(to)
    requires var d := Next(to, from, c); d.j == |from| && d.i < LastFull(to)
    ensures StopsShort(to, |Flat(from)|)
  {
    NextLevel(to, from, c, k);
    var d := Next(to, from, c);
    PrefixGrows(to, d.i + 1, LastFull(to));
    PrefixGrows(to, d.i, LastFull(to));
    FlatPrefix(to, d.i);
  }

  /** The turn that reaches the last full pbuf, while something is left to copy. */
  lemma ReachedLast(to: Chain, from: Chain, c: Cursor, k: nat)
    requires to != [] && Level(to, from, c, k) && k < |Flat(from)|
    requires c.i + 1 == LastFull(to) == Next(to, from, c).i
    ensures !StopsShort(to, |Flat(from)|)
  {
    NextLevel(to, from, c, k);
    FlatPrefix(to, c.i);
  }

  lemma {:induction false} CopyIntoTail(to: Chain, from: Chain, c: Cursor, k: nat)
    requires to != [] && !Solid(to) && Solid(from) && |Flat(from)| <= |Flat(to)|
    requires Level(to, from, c, k) && c.i < LastFull(to) && k < |Flat(from)|
    ensures Outcome(to, from, c) == Ok <==> StopsShort(to, |Flat(from)|)
    decreases |to| - c.i + |from| - c.j
  {
    var d := Next(to, from, c);
    NextLevel(to, from, c, k);
    StuckIff(to, d.i);
    if d.j < |from| {
      NotStuck(from, d.j);
      SourceLeft(from, d.j, d.oj);
    }
    if d.i == LastFull(to) {
      LastFullOpen(to);
      ReachedLast(to, from, c, k);
    } else if d.j < |from| {
      CopyIntoTail(to, from, d, k + Piece(to, from, c));
    } else {
      StoppedShort(to, from, c, k);
    }
  }

  lemma {:induction false} LastFullOpen(c: Chain)
    requires c != [] && !Solid(c)
    ensures LastFull(c) < |c| - 1
  {
  }

  /** The target holds everything in its first pbuf and ends in one empty pbuf; the source is one pbuf just as long. */
  predicate ExactFit(to: Chain, from: Chain) {
    |to| == 2 && |from| == 1 && |from[0]| == |to[0]|
  }

  const START: Cursor := Cursor(0, 0, 0, 0)

  lemma CopyAtOnce(to: Chain, from: Chain)
    requires to != [] && from != [] && !Solid(to) && LastFull(to) == 0 && Solid(from)
    requires 0 < |Flat(from)| <= |Flat(to)|
    ensures Outcome(to, from, START) == Ok <==> ExactFit(to, from)
  {
    var d := Next(to, from, START);
    CopyStart(to, from);
    NextLevel(to, from, START, 0);
    StuckIff(to, d.i);
    OneFull(to, from);
    if d.j < |from| { NotStuck(from, d.j); }
  }

  /** All of the target's room is in its first pbuf. */
  lemma OneFull(to: Chain, from: Chain)
    requires to != [] && from != [] && LastFull(to) == 0 && Solid(from)
    ensures |Flat(to)| == |to[0]| && |Flat(from)| >= |from[0]| && (|from| > 1 ==> |Flat(from)| > |from[0]|)
  {
    FlatSuffix(to, 0);
    FlatSuffix(from, 0);
    assert to[0..] == to && from[0..] == from;
    LastFullTot(to, 1);
    if |from| > 1 { SolidTot(from, 1); }
  }

  /** One empty source pbuf: a single turn, which copies nothing. */
  predicate NothingFits(to: Chain)
    requires to != []
  {
    !(LastFull(to) <= (if to[0] == [] then 1 else 0) < |to| - 1)
  }

  lemma CopyNothing(to: Chain, from: Chain)
    requires to != [] && |from| == 1 && from[0] == []
    ensures Outcome(to, from, START) == Ok <==> NothingFits(to)
  {
    var d := Next(to, from, START);
    assert d.j == 1 && d.i == if to[0] == [] then 1 else 0;
    if d.i < |to| { StuckIff(to, d.i); }
  }

  /** A source that ends in an empty pbuf is refused, unless the first turn already gets past all that is full. */
  lemma {:induction false} SourceRefused(to: Chain, from: Chain, c: Cursor)
    requires from != [] && !Solid(from) && Inside(to, from, c) && Next(to, from, c).j <= |from| - 2
    ensures Outcome(to, from, c) != Ok
    decreases |to| - c.i + |from| - c.j
  {
    var d := Next(to, from, c);
    LastFullOpen(from);
    StuckIff(from, d.j);
    if d.i < |to| && d.j < LastFull(from) {
      if !Stuck(to, d.i) { SourceRefused(to, from, d); }
    }
  }

  /** The source is a full pbuf and an empty one; the full one fits the first pbuf of the target, and where that leads. */
  predicate PairFits(to: Chain, from: Chain)
    requires to != []
  {
    && |from| == 2 && from[1] == [] && |from[0]| <= |to[0]|
    && if |from[0]| < |to[0]| then |to| == 1 || LastFull(to) > 0
       else
         && |to| > 1 && !(LastFull(to) <= 1 < |to| - 1)
         && (to[1] == [] && |to| > 2 ==> !(LastFull(to) <= 2 < |to| - 1))
  }

  lemma CopyPair(to: Chain, from: Chain)
    requires to != [] && |from| == 2 && from[1] == [] && |from[0]| <= |to[0]|
    ensures Outcome(to, from, START) == Ok <==> PairFits(to, from)
  {
    var d := Next(to, from, START);
    assert d.j == 1 && d.oj == 0;
    assert !Stuck(from, 1);
    if d.i < |to| {
      StuckIff(to, d.i);
      var e := Next(to, from, d);
      assert e.j == 2;
      if e.i < |to| { StuckIff(to, e.i); }
    }
  }

  /**
    When pbuf_copy succeeds, for every source and every target that is large enough:
    neither packet ends in an empty pbuf, but for the cases spelled out above.
   */
  lemma CopyIff(to: Chain, from: Chain)
    requires to != [] && from != [] && |Flat(from)| <= |Flat(to)|
    ensures Outcome(to, from, START) == Ok <==>
      if !Solid(from) then PairFits(to, from)
      else Solid(to) || (if |Flat(from)| == 0 then NothingFits(to) else StopsShort(to, |Flat(from)|) || ExactFit(to, from))
  {
    CopyStart(to, from);
    if !Solid(from) {
      if |from| == 2 && |from[0]| <= |to[0]| {
        CopyPair(to, from);
      } else {
        SourceRefused(to, from, START);
      }
    } else if Solid(to) {
      CopySucceeds(to, from);
    } else if |Flat(from)| == 0 {
      SingleWhenEmpty(from);
      CopyNothing(to, from);
    } else if LastFull(to) == 0 {
      CopyAtOnce(to, from);
      assert to[..0] == [];
    } else {
      LastFullOpen(to);
      CopyIntoTail(to, from, START, 0);
    }
  }

  lemma SingleWhenEmpty(from: Chain)
    requires from != [] && Solid(from) && |Flat(from)| == 0
    ensures |from| == 1 && from[0] == []
  {
    assert from[0..] == from;
    FlatSuffix(from, 0);
    if |from| > 1 { SolidTot(from, 1); }
  }

  /** A trailing empty pbuf in the source is accepted behind one that fits, and refused behind two. */
  lemma TrailingEmptySource(x: Byte, y: Byte)
    ensures Outcome([[y, y]], [[x], []], START) == Ok
    ensures Outcome([[y, y, y]], [[x], [x], []], START) != Ok
  {
    var to, from := [[y, y]], [[x], []];
    assert from[1..] == [[]] && from[1..][1..] == [] && to[1..] == [];
    assert Flat(from[1..]) == [] + Flat([]) && Flat(from) == [x] + Flat(from[1..]) && Flat(to) == [y, y] + Flat(to[1..]);
    CopyIff(to, from);
    var from' := [[x], [x], []];
    SourceRefused([[y, y, y]], from', START);
  }
}
