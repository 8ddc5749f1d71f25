/**
  The timer list of timeouts.c: a list of differences that stands for absolute due
  times. Times are unbounded here; the source takes them modulo 2^32.
 */
module Timers {

  /** `who` is the pair of handler and argument. */
  datatype Timer = Timer(who: nat, time: nat)

  datatype Due = Due(who: nat, at: int)

  // ---------------------------------------------------------------------------
  // What the list means
  // ---------------------------------------------------------------------------

  /** Each difference counts from the timer before; the first one from `last`. */
  function Dues(q: seq<Timer>, last: int): seq<Due> {
    if q == [] then [] else [Due(q[0].who, last + q[0].time)] + Dues(q[1..], last + q[0].time)
  }

  function Sum(q: seq<Timer>): nat {
    if q == [] then 0 else q[0].time + Sum(q[1..])
  }

  /** Behind all timers that are not due later. */
  function Insert(d: seq<Due>, x: Due): seq<Due> {
    if d != [] && d[0].at <= x.at then [d[0]] + Insert(d[1..], x) else [x] + d
  }

  /** All timers are pushed back. */
  function Push(d: seq<Due>, shift: int): seq<Due> {
    if d == [] then [] else [d[0].(at := d[0].at + shift)] + Push(d[1..], shift)
  }

  /** The first timer of `who` is removed. */
  function Remove(d: seq<Due>, who: nat): seq<Due> {
    if d == [] then [] else if d[0].who == who then d[1..] else [d[0]] + Remove(d[1..], who)
  }

  /** The timers due at `now`, and the others. */
  function Expired(d: seq<Due>, now: int): seq<Due> {
    if d == [] then [] else (if d[0].at <= now then [d[0]] else []) + Expired(d[1..], now)
  }

  function Pending(d: seq<Due>, now: int): seq<Due> {
    if d == [] then [] else (if d[0].at <= now then [] else [d[0]]) + Pending(d[1..], now)
  }

  predicate InOrder(d: seq<Due>) {
    |d| > 1 ==> d[0].at <= d[1].at && InOrder(d[1..])
  }

  /** A list of differences is always in due order, none before `last`. */
  lemma {:induction false} DuesInOrder(q: seq<Timer>, last: int)
    ensures InOrder(Dues(q, last)) && (q != [] ==> Dues(q, last)[0].at >= last)
  {
    if q != [] {
      DuesInOrder(q[1..], last + q[0].time);
      var d := Dues(q, last);
      assert d[1..] == Dues(q[1..], last + q[0].time);
    }
  }

  lemma {:induction false} DuesSplit(a: seq<Timer>, b: seq<Timer>, last: int)
    ensures Dues(a + b, last) == Dues(a, last) + Dues(b, last + Sum(a))
  {
    if a == [] { assert a + b == b; } else {
      assert (a + b)[1..] == a[1..] + b;
      DuesSplit(a[1..], b, last + a[0].time);
    }
  }

  lemma {:induction false} SumSplit(a: seq<Timer>, b: seq<Timer>)
    ensures Sum(a + b) == Sum(a) + Sum(b)
  {
    if a == [] { assert a + b == b; } else {
      assert (a + b)[1..] == a[1..] + b;
      SumSplit(a[1..], b);
    }
  }

  lemma {:induction false} PushDues(q: seq<Timer>, last: int, shift: int)
    ensures Push(Dues(q, last), shift) == Dues(q, last + shift)
  {
    if q != [] { PushDues(q[1..], last + q[0].time, shift); }
  }

  // ---------------------------------------------------------------------------
  // sys_timeout
  // ---------------------------------------------------------------------------

  /** The new timer goes in front of all others: then they are pushed back by `now - last`. */
  predicate AtHead(q: seq<Timer>, msecs: nat) {
    q != [] && q[0].time > msecs
  }

  /** All queued timers are overdue, and the new one goes to the end. */
  predicate Clamped(q: seq<Timer>, msecs: nat, late: nat) {
    q != [] && q[0].time <= msecs && late > Sum(q)
  }

  /** When the new timer is due, if `late` milliseconds have passed since `last`. */
  function NewDue(q: seq<Timer>, last: int, late: nat, msecs: nat): int {
    if Clamped(q, msecs, late) then last + Sum(q) + msecs + q[0].time else last + late + msecs
  }

  /** Splitting a difference in two inserts a timer. */
  lemma SplitDifference(q: seq<Timer>, last: int, x: Timer)
    requires q != [] && x.time < q[0].time
    ensures Dues([x, q[0].(time := q[0].time - x.time)] + q[1..], last) == [Due(x.who, last + x.time)] + Dues(q, last)
  {
    var y := q[0].(time := q[0].time - x.time);
    var r := [x, y] + q[1..];
    assert r[1..] == [y] + q[1..] && ([y] + q[1..])[1..] == q[1..];
  }

  /** Skipping the timers that are not later. */
  lemma {:induction false} InsertSkips(q: seq<Timer>, last: int, x: Due, i: nat)
    requires i <= |q| && last + Sum(q[..i]) <= x.at
    ensures Insert(Dues(q, last), x) == Dues(q[..i], last) + Insert(Dues(q[i..], last + Sum(q[..i])), x)
    decreases i
  {
    if i == 0 {
      assert q[..0] == [] && q[0..] == q;
    } else {
      assert q[..i][1..] == q[1..][..i-1] && q[1..][i-1..] == q[i..];
      InsertSkips(q[1..], last + q[0].time, x, i - 1);
    }
  }

  lemma SumPrefix(q: seq<Timer>, i: nat)
    requires i < |q|
    ensures Sum(q[..i+1]) == Sum(q[..i]) + q[i].time
    ensures Sum(q[..i+1]) <= Sum(q)
  {
    assert q[..i+1] == q[..i] + [q[i]];
    assert Sum([q[i]]) == q[i].time + Sum([q[i]][1..]);
    SumSplit(q[..i], [q[i]]);
    assert q == q[..i+1] + q[i+1..];
    SumSplit(q[..i+1], q[i+1..]);
  }

  class List {
    var queue: seq<Timer>
    var last: int

    function Schedule(): seq<Due>
      reads this
    {
      Dues(queue, last)
    }

    constructor (now: int)
      ensures Schedule() == [] && last == now
    {
      queue, last := [], now;
    }

    /** sys_timeout */
    method Timeout(now: int, msecs: nat, who: nat, alloc: bool)
      requires last <= now
      modifies this
      ensures last <= now
      ensures !alloc ==> queue == old(queue) && last == old(last)
      ensures alloc && old(queue) == [] ==> Schedule() == [Due(who, now + msecs)] && last == now
      ensures alloc && old(queue) != [] ==>
        && last == old(last)
        && Schedule() == Insert(Push(old(Schedule()), if AtHead(old(queue), msecs) then now - last else 0),
                           Due(who, NewDue(old(queue), last, now - last, msecs)))
    {
      if !alloc { return; }
      if queue == [] {
        last := now;
        queue := [Timer(who, msecs)];
        assert queue[1..] == [] && Dues(queue[1..], now + msecs) == [];
        return;
      }
      var diff := now - last;
      PushDues(queue, last, if AtHead(queue, msecs) then diff else 0);
      if queue[0].time > msecs {
        HeadInsert(queue, last, diff, msecs, who);
        queue := [Timer(who, msecs + diff), queue[0].(time := queue[0].time - msecs)] + queue[1..];
      } else {
        queue := Place(queue, last, diff, msecs, who);
      }
    }

    /** sys_untimeout */
    method Untimeout(who: nat)
      modifies this`queue
      ensures Schedule() == Remove(old(Schedule()), who)
    {
      var i := 0;
      ghost var q := queue;
      assert q[..0] == [] && q[0..] == q;
      while i < |queue| && queue[i].who != who
        invariant queue == q && 0 <= i <= |q|
        invariant Remove(Dues(q, last), who) == Dues(q[..i], last) + Remove(Dues(q[i..], last + Sum(q[..i])), who)
      {
        RemoveSkips(q, last, who, i);
        i := i + 1;
      }
      if i < |queue| {
        Unlinked(queue, last, i);
        if i + 1 < |queue| {
          var next := queue[i+1].(time := queue[i+1].time + queue[i].time);
          queue := queue[..i] + ([next] + queue[i+2..]);
        } else {
          queue := queue[..i];
        }
      } else {
        assert q[..i] == q && q[i..] == [];
      }
    }

    /** sys_check_timeouts, with handlers that leave the list alone: who is called, in order. */
    method CheckTimeouts(now: int) returns (called: seq<nat>)
      requires last <= now
      modifies this
      ensures called == Whos(Expired(old(Schedule()), now))
      ensures Schedule() == Pending(old(Schedule()), now) && old(last) <= last <= now
    {
      called := [];
      ghost var d := Schedule();
      if queue == [] { return; }
      var diff := now - last;
      var more := true;
      while more
        invariant old(last) <= last && 0 <= diff == now - last
        invariant called + Whos(Expired(Schedule(), now)) == Whos(Expired(d, now))
        invariant Pending(Schedule(), now) == Pending(d, now)
        invariant !more ==> (queue == [] || queue[0].time > diff)
        decreases |queue|, more
      {
        more := queue != [] && queue[0].time <= diff;
        if more {
          var t := queue[0];
          FireHead(queue, last, now, called);
          last, diff, queue := last + t.time, diff - t.time, queue[1..];
          called := called + [t.who];
        }
      }
      NoneExpired(queue, last, now);
      assert called + [] == called;
    }
  }

  function Whos(d: seq<Due>): seq<nat> {
    if d == [] then [] else [d[0].who] + Whos(d[1..])
  }

  lemma FireHead(q: seq<Timer>, last: int, now: int, called: seq<nat>)
    requires q != [] && q[0].time <= now - last
    ensures var rest := Dues(q[1..], last + q[0].time);
      && called + Whos(Expired(Dues(q, last), now)) == (called + [q[0].who]) + Whos(Expired(rest, now))
      && Pending(Dues(q, last), now) == Pending(rest, now)
  {
    var d, rest := Dues(q, last), Dues(q[1..], last + q[0].time);
    assert d[1..] == rest;
    var e := Expired(d, now);
    assert e == [d[0]] + Expired(rest, now);
    assert e[1..] == Expired(rest, now);
  }

  /** In due order, nothing is due behind a timer that is not. */
  lemma {:induction false} NoneExpired(q: seq<Timer>, last: int, now: int)
    requires q == [] || q[0].time > now - last
    ensures Expired(Dues(q, last), now) == [] && Pending(Dues(q, last), now) == Dues(q, last)
  {
    if q != [] {
      var d := Dues(q, last);
      assert d[1..] == Dues(q[1..], last + q[0].time);
      NoneExpired(q[1..], last + q[0].time, now);
    }
  }

  lemma RemoveSkips(q: seq<Timer>, last: int, who: nat, i: nat)
    requires i < |q| && q[i].who != who
    ensures Dues(q[..i], last) + Remove(Dues(q[i..], last + Sum(q[..i])), who) ==
            Dues(q[..i+1], last) + Remove(Dues(q[i+1..], last + Sum(q[..i+1])), who)
  {
    var l := last + Sum(q[..i]);
    var d := Dues(q[i..], l);
    var x, rest := Due(q[i].who, l + q[i].time), Dues(q[i+1..], l + q[i].time);
    SumPrefix(q, i);
    assert q[i..][1..] == q[i+1..];
    assert d == [x] + rest && d[1..] == rest;
    PrefixDues(q, last, i);
    assert Dues(q[..i], last) + ([x] + Remove(rest, who)) == (Dues(q[..i], last) + [x]) + Remove(rest, who);
  }

  lemma PrefixDues(q: seq<Timer>, last: int, i: nat)
    requires i < |q|
    ensures Dues(q[..i+1], last) == Dues(q[..i], last) + [Due(q[i].who, last + Sum(q[..i]) + q[i].time)]
  {
    var b, l := [q[i]], last + Sum(q[..i]);
    assert q[..i+1] == q[..i] + b && b[1..] == [];
    DuesSplit(q[..i], b, last);
    assert Dues(b, l) == [Due(b[0].who, l + b[0].time)] + Dues(b[1..], l + b[0].time);
  }

  /** A removed timer gives its time to its successor, so that no other timer moves. */
  lemma Unlinked(q: seq<Timer>, last: int, i: nat)
    requires i < |q|
    ensures var rest := Dues(q[i..], last + Sum(q[..i]))[1..];
      && (i + 1 == |q| ==> Dues(q[..i], last) == Dues(q[..i], last) + rest)
      && (i + 1 < |q| ==>
            Dues(q[..i] + ([q[i+1].(time := q[i+1].time + q[i].time)] + q[i+2..]), last) == Dues(q[..i], last) + rest)
    ensures Dues(q[i..], last + Sum(q[..i])) != [] && Dues(q[i..], last + Sum(q[..i]))[0].who == q[i].who
  {
    var l := last + Sum(q[..i]);
    assert q[i..][1..] == q[i+1..];
    assert Dues(q[i..], l)[1..] == Dues(q[i+1..], l + q[i].time);
    if i + 1 < |q| {
      var y := q[i+1].(time := q[i+1].time + q[i].time);
      DuesSplit(q[..i], [y] + q[i+2..], last);
      assert ([y] + q[i+2..])[1..] == q[i+2..] && q[i+1..][1..] == q[i+2..];
    }
  }

  /** The new timer is due at `last + diff + msecs`, and all others `diff` later than before. */
  lemma HeadInsert(q: seq<Timer>, last: int, diff: nat, msecs: nat, who: nat)
    requires AtHead(q, msecs)
    ensures var x, y := Timer(who, msecs + diff), q[0].(time := q[0].time - msecs);
      Dues([x, y] + q[1..], last) == Insert(Dues(q, last + diff), Due(who, last + diff + msecs))
  {
    var x, y := Timer(who, msecs + diff), q[0].(time := q[0].time - msecs);
    var r := [x, y] + q[1..];
    assert r[1..] == [y] + q[1..] && ([y] + q[1..])[1..] == q[1..];
  }

  /** The loop of sys_timeout: the place behind the head where the new timer belongs. */
  method Place(q: seq<Timer>, last: int, diff: nat, msecs: nat, who: nat) returns (r: seq<Timer>)
    requires q != [] && q[0].time <= msecs
    ensures Dues(r, last) == Insert(Dues(q, last), Due(who, NewDue(q, last, diff, msecs)))
  {
    var i, time := 0, msecs + diff;
    assert q[..0] == [];
    while true
      invariant 0 <= i < |q| && q[i].time <= time && time == msecs + diff - Sum(q[..i])
      decreases |q| - i
    {
      SumPrefix(q, i);
      time := time - q[i].time;
      i := i + 1;
      if i == |q| || q[i].time > time { break; }
    }
    r := Settle(q, last, diff, msecs, who, i, time);
  }

  /** The new timer is put in front of timer `i`, or at the end. */
  method Settle(q: seq<Timer>, last: int, diff: nat, msecs: nat, who: nat, i: nat, time0: nat) returns (r: seq<Timer>)
    requires 0 < i <= |q| && q[0].time <= msecs && time0 == msecs + diff - Sum(q[..i])
    requires i < |q| ==> q[i].time > time0
    ensures Dues(r, last) == Insert(Dues(q, last), Due(who, NewDue(q, last, diff, msecs)))
  {
    if i < |q| {
      SettleBetween(q, last, diff, msecs, who, i);
      r := q[..i] + ([Timer(who, time0), q[i].(time := q[i].time - time0)] + q[i+1..]);
    } else {
      var time := time0;
      assert q[..i] == q;
      if time > msecs {
        time := msecs + q[0].time;
      }
      SettleLast(q, last, who, time, NewDue(q, last, diff, msecs));
      r := q + [Timer(who, time)];
    }
  }

  lemma SettleBetween(q: seq<Timer>, last: int, diff: nat, msecs: nat, who: nat, i: nat)
    requires 0 < i < |q| && Sum(q[..i]) <= msecs + diff < Sum(q[..i]) + q[i].time
    ensures var x := Timer(who, msecs + diff - Sum(q[..i]));
      Dues(q[..i] + ([x, q[i].(time := q[i].time - x.time)] + q[i+1..]), last) ==
      Insert(Dues(q, last), Due(who, NewDue(q, last, diff, msecs)))
  {
    var x := Timer(who, msecs + diff - Sum(q[..i]));
    SumPrefix(q, i);
    SplitAt(q, last, x, i);
    InsertSkips(q, last, Due(who, last + diff + msecs), i);
    assert Dues(q[i..], last + Sum(q[..i]))[0].at > last + diff + msecs;
  }

  lemma SplitAt(q: seq<Timer>, last: int, x: Timer, i: nat)
    requires i < |q| && x.time < q[i].time
    ensures var l := last + Sum(q[..i]);
      Dues(q[..i] + ([x, q[i].(time := q[i].time - x.time)] + q[i+1..]), last) ==
      Dues(q[..i], last) + ([Due(x.who, l + x.time)] + Dues(q[i..], l))
  {
    var b := q[i..];
    assert b[1..] == q[i+1..];
    SplitDifference(b, last + Sum(q[..i]), x);
    DuesSplit(q[..i], [x, q[i].(time := q[i].time - x.time)] + q[i+1..], last);
  }

  lemma SettleLast(q: seq<Timer>, last: int, who: nat, time: nat, at: int)
    requires at == last + Sum(q) + time
    ensures Dues(q + [Timer(who, time)], last) == Insert(Dues(q, last), Due(who, at))
  {
    var x := Timer(who, time);
    DuesSplit(q, [x], last);
    assert [x][1..] == [];
    assert q[..|q|] == q && q[|q|..] == [];
    InsertSkips(q, last, Due(who, at), |q|);
  }

  // ---------------------------------------------------------------------------
  // What the operations promise
  // ---------------------------------------------------------------------------

  /** Nothing is lost or doubled, and every timer that was queued keeps its time, or is later by `shift`. */
  lemma {:induction false} InsertKeeps(d: seq<Due>, x: Due)
    ensures multiset(Insert(d, x)) == multiset(d) + multiset{x}
    ensures InOrder(d) ==> InOrder(Insert(d, x))
    ensures Insert(d, x) != [] && Insert(d, x)[0] == if d != [] && d[0].at <= x.at then d[0] else x
  {
    var r := Insert(d, x);
    if d != [] && d[0].at <= x.at {
      InsertKeeps(d[1..], x);
      assert r[1..] == Insert(d[1..], x);
      assert d == [d[0]] + d[1..] && r == [d[0]] + r[1..];
    } else {
      assert r[1..] == d;
    }
  }

  lemma {:induction false} PushKeeps(d: seq<Due>, shift: int, i: nat)
    requires i < |d|
    ensures |Push(d, shift)| == |d| && Push(d, shift)[i] == d[i].(at := d[i].at + shift)
  {
    if |d| > 1 { PushKeeps(d[1..], shift, if i > 0 then i - 1 else 0); }
  }

  /** The new timer is on time exactly if it is not clamped, or the clamp happens to be right; it is early exactly as stated. */
  lemma OnTimeIff(q: seq<Timer>, last: int, late: nat, msecs: nat)
    ensures NewDue(q, last, late, msecs) == last + late + msecs <==> !Clamped(q, msecs, late) || late == Sum(q) + q[0].time
    ensures NewDue(q, last, late, msecs) < last + late + msecs <==> Clamped(q, msecs, late) && late > Sum(q) + q[0].time
  {
  }

  /** One timer, overdue for long: a timer for 100 ms is then due 79 ms before now. */
  lemma ClampedEarly()
    ensures NewDue([Timer(0, 10)], 0, 199, 100) == 120
  {
    assert [Timer(0, 10)][1..] == [];
  }

  /** Whoever is called is due, and whoever is due is called. */
  lemma {:induction false} ExpiredExactly(d: seq<Due>, now: int)
    ensures multiset(d) == multiset(Expired(d, now)) + multiset(Pending(d, now))
    ensures forall x :: x in Expired(d, now) ==> x.at <= now
    ensures forall x :: x in Pending(d, now) ==> x.at > now
  {
    if d != [] {
      ExpiredExactly(d[1..], now);
      var e, p := Expired(d[1..], now), Pending(d[1..], now);
      assert multiset(d) == multiset{d[0]} + multiset(d[1..]) by { assert d == [d[0]] + d[1..]; }
      if d[0].at <= now {
        assert Expired(d, now) == [d[0]] + e && Pending(d, now) == p;
      } else {
        assert Expired(d, now) == e && Pending(d, now) == [d[0]] + p;
      }
    }
  }

  /** They are called in the order of their due times. */
  lemma {:induction false} ExpiredInOrder(d: seq<Due>, now: int)
    requires InOrder(d)
    ensures InOrder(Expired(d, now)) && (Expired(d, now) != [] ==> d[0].at <= Expired(d, now)[0].at)
  {
    if d != [] {
      ExpiredInOrder(d[1..], now);
      var e := Expired(d[1..], now);
      assert e != [] ==> |d| > 1;
      if d[0].at <= now {
        assert Expired(d, now) == [d[0]] + e && ([d[0]] + e)[1..] == e;
      } else {
        assert Expired(d, now) == e;
      }
    }
  }

  /** Removing one timer moves no other. */
  lemma {:induction false} RemoveKeeps(d: seq<Due>, who: nat) returns (i: nat)
    ensures i <= |d| && (i < |d| ==> d[i].who == who) && forall j :: 0 <= j < i ==> d[j].who != who
    ensures Remove(d, who) == if i < |d| then d[..i] + d[i+1..] else d
  {
    if d == [] {
      i := 0;
    } else if d[0].who == who {
      i := 0;
      assert d[..0] + d[1..] == d[1..];
    } else {
      var k := RemoveKeeps(d[1..], who);
      i := k + 1;
      var r := d[1..];
      assert d == [d[0]] + r;
      forall j | 0 <= j < i ensures d[j].who != who {
        if j > 0 { assert d[j] == r[j-1]; }
      }
      if k < |r| {
        assert d[i] == r[k];
        assert [d[0]] + (r[..k] + r[k+1..]) == d[..i] + d[i+1..];
      }
    }
  }
}
