/**
  What a schedule of module Select does for the threads in it: which events the
  sockets have, that an event reaches every selector that waits for it, and that a
  callback which is let run ends after one walk along the list.
 */
module SelectRuns {

  import opened Common
  import opened Select

  // ---------------------------------------------------------------------------
  // The events of a socket
  // ---------------------------------------------------------------------------

  /** The events that were posted for a socket. */
  function Posted(s: State, acts: seq<Action>, fd: Fd): seq<Event> {
    if acts == [] then []
    else
      var pre, a := acts[..|acts|-1], acts[|acts|-1];
      Posted(s, pre, fd) + if a.Post? && a.fd == fd && Enabled(Exec(s, pre), a) then [a.evt] else []
  }

  /** Arrivals less reads. */
  function Balance(es: seq<Event>): int {
    if es == [] then 0
    else
      var e := es[|es|-1];
      Balance(es[..|es|-1]) + if e.RcvPlus? then 1 else if e.RcvMinus? then -1 else 0
  }

  /** What the last of the send events said. */
  function Sendable(es: seq<Event>, before: bool): bool {
    if es == [] then before
    else
      var e := es[|es|-1];
      if e.SendPlus? then true else if e.SendMinus? then false else Sendable(es[..|es|-1], before)
  }

  predicate SignedWord(x: int) { -0x8000 <= x < 0x8000 }

  lemma S16Step(x: int, d: int)
    requires -1 <= d <= 1
    ensures S16(S16(x) + d) == S16(x + d) && SignedWord(S16(x))
  {
  }

  /** A step changes the events of a socket only if it posts one for it. */
  lemma OnlyPostsCount(s: State, a: Action, fd: Fd)
    requires Enabled(s, a) && fd < |s.socks|
    ensures var s' := Apply(s, a);
      && |s'.socks| == |s.socks|
      && var k, k' := s.socks[fd], s'.socks[fd];
      if a.Post? && a.fd == fd then k' == SetEvent(k, a.evt)
      else k'.rcvevent == k.rcvevent && k'.sendevent == k.sendevent && k'.errevent == k.errevent
  {
  }

  /** Socket `k` is what the events `es` make of `k0`. */
  predicate EventsAre(k0: Sock, es: seq<Event>, k: Sock) {
    && k.rcvevent == S16(k0.rcvevent + Balance(es)) && k.sendevent == Sendable(es, k0.sendevent)
    && (k.errevent <==> k0.errevent || Error in es)
  }

  lemma OneMore(k0: Sock, es: seq<Event>, k: Sock, evt: Event)
    requires EventsAre(k0, es, k)
    ensures EventsAre(k0, es + [evt], SetEvent(k, evt))
  {
    var es' := es + [evt];
    assert es'[..|es'|-1] == es;
    var x := k0.rcvevent + Balance(es);
    S16Step(x, 1);
    S16Step(x, -1);
  }

  lemma StepEvents(s: State, a: Action, fd: Fd, k0: Sock, es: seq<Event>)
    requires fd < |s.socks| && EventsAre(k0, es, s.socks[fd]) && Enabled(s, a)
    ensures |Apply(s, a).socks| == |s.socks|
    ensures EventsAre(k0, es + (if a.Post? && a.fd == fd then [a.evt] else []), Apply(s, a).socks[fd])
  {
    OnlyPostsCount(s, a, fd);
    if a.Post? && a.fd == fd { OneMore(k0, es, s.socks[fd], a.evt); } else { assert es + [] == es; }
  }

  /**
    In every schedule: rcvevent is the balance of arrivals and reads, in 16 bits; the
    socket is writable if the last send event said so; an error stays.
   */
  lemma {:induction false} EventsTheorem(s: State, acts: seq<Action>, fd: Fd)
    requires fd < |s.socks| && SignedWord(s.socks[fd].rcvevent)
    ensures |Exec(s, acts).socks| == |s.socks|
    ensures EventsAre(s.socks[fd], Posted(s, acts, fd), Exec(s, acts).socks[fd])
  {
    if acts != [] {
      var pre, a := acts[..|acts|-1], acts[|acts|-1];
      EventsTheorem(s, pre, fd);
      var s1, es := Exec(s, pre), Posted(s, pre, fd);
      if Enabled(s1, a) { StepEvents(s1, a, fd, s.socks[fd], es); } else { assert es + [] == es; }
    }
  }

  // ---------------------------------------------------------------------------
  // From the event to the selector
  // ---------------------------------------------------------------------------

  /** The event makes the socket ready for a set that holds it. */
  predicate Concerns(k: Sock, sets: Sets, fd: Fd, evt: Event) {
    || (evt.RcvPlus? && fd in sets.read && 0 <= k.rcvevent < 0x7fff)
    || (evt.SendPlus? && fd in sets.write)
    || (evt.Error? && fd in sets.except)
  }

  /** Data, room or an error is posted: every selector asleep for it is signalled, or a callback is on its way to it. */
  lemma PostReaches(s: State, acts: seq<Action>, c: Tid, fd: Fd, evt: Event, t: Tid)
    requires Init(s) && FewAlong(s, acts) && Enabled(Exec(s, acts), Post(c, fd, evt))
    requires var e := Exec(s, acts);
      t in e.sel && e.sel[t].pc.Wait? && Concerns(e.socks[fd], e.sel[t].sets, fd, evt)
    ensures var e' := Apply(Exec(s, acts), Post(c, fd, evt));
      t in e'.sel && (e'.sel[t].signalled || Rescued(e', t, fd))
  {
    RunKeeps(s, acts);
    FewMeansNoneLost(s, acts);
    PostReachesFrom(Exec(s, acts), c, fd, evt, t);
  }

  lemma PostReachesFrom(e: State, c: Tid, fd: Fd, evt: Event, t: Tid)
    requires Inv(e) && WaitingOk(e) && NoneLost(e) && Enabled(e, Post(c, fd, evt))
    requires t in e.sel && e.sel[t].pc.Wait? && Concerns(e.socks[fd], e.sel[t].sets, fd, evt)
    ensures var e' := Apply(e, Post(c, fd, evt)); t in e'.sel && (e'.sel[t].signalled || Rescued(e', t, fd))
  {
    var a := Post(c, fd, evt);
    PostLosesNone(e, a);
    OnlyPostsCount(e, a, fd);
    PostFrame(e, a, t);
    ConcernedIsWanted(e.socks[fd], e.sel[t].sets, fd, evt);
    var e' := Apply(e, a);
    if !e'.sel[t].signalled { assert Missed(e', t, fd); }
  }

  lemma ConcernedIsWanted(k: Sock, sets: Sets, fd: Fd, evt: Event)
    requires Concerns(k, sets, fd, evt)
    ensures Wanted(SetEvent(k, evt), sets, fd)
  {
  }

  /** A callback does nothing to a selector but signal it. */
  lemma PostFrame(s: State, a: Action, t: Tid)
    requires Enabled(s, a) && (a.Post? || a.Resume?) && t in s.sel
    ensures var s' := Apply(s, a);
      t in s'.sel && s'.sel[t].pc == s.sel[t].pc && s'.sel[t].sets == s.sel[t].sets && s'.sel[t].ready == s.sel[t].ready
  {
  }

  /** The sets of a select call change only with the next call of the same thread. */
  lemma SetsStay(s: State, a: Action, t: Tid)
    requires Enabled(s, a) && t in s.sel
    ensures var s' := Apply(s, a);
      t in s'.sel && s'.sel[t].sets == if a.Begin? && a.t == t then a.sets else s.sel[t].sets
  {
  }

  /** A scan reports an event only if the socket has one, and a selector goes on only after that, a signal, or a timeout. */
  lemma GoesOnForCause(s: State, a: Action, t: Tid)
    requires Enabled(s, a) && t in s.sel && !s.sel[t].pc.Dec?
    ensures var x, x' := s.sel[t], Apply(s, a).sel[t];
      && (x'.ready && !x.ready ==> a == ScanOne(t) && x.pc.i < |s.socks| && Wanted(s.socks[x.pc.i], x.sets, x.pc.i))
      && (x'.pc.Dec? ==> (a == ScanOne(t) && x.ready) || (a == Wake(t) && x.sem > 0) || a == Timeout(t))
  {
  }

  // ---------------------------------------------------------------------------
  // A callback ends
  // ---------------------------------------------------------------------------

  /** How many entries come after `x`. */
  function Behind(l: seq<Tid>, x: Tid): nat {
    if l == [] then 0 else if l[0] == x then |l| - 1 else Behind(l[1..], x)
  }

  /** How many more steps the walk of a callback takes if nobody interferes. */
  function Left(s: State, w: Walker): nat {
    if w.Idle? then 0 else if w.seen != s.ctr then |s.list| + 1 else Behind(s.list, w.at) + 1
  }

  lemma {:induction false} BehindBound(l: seq<Tid>, x: Tid)
    ensures l != [] ==> Behind(l, x) < |l|
  {
    if |l| > 1 { BehindBound(l[1..], x); }
  }

  /** The successor link leads to the entry with one less behind it, or to the end. */
  lemma {:induction false} BehindNext(sel: map<Tid, Selector>, l: seq<Tid>, p: Option<Tid>, x: Tid)
    requires Chain(sel, l, p) && x in l && x in sel
    ensures match sel[x].next
      case None => Behind(l, x) == 0
      case Some(n) => n in l && Behind(l, n) + 1 == Behind(l, x)
  {
    if l[0] == x {
      var r := l[1..];
      if r != [] { assert r[0] in r && l[0] != r[0]; }
    } else {
      BehindNext(sel, l[1..], Some(l[0]), x);
    }
  }

  /** One step of a callback brings it one step nearer to its end. */
  lemma ResumeProgress(s: State, c: Tid)
    requires Inv(s) && c in s.cb && s.cb[c].Walk?
    ensures Enabled(s, Resume(c))
    ensures var s' := Apply(s, Resume(c));
      && Inv(s') && s'.socks == s.socks && s'.list == s.list && s'.cb == s.cb[c := s'.cb[c]]
      && Left(s', s'.cb[c]) + 1 == Left(s, s.cb[c])
  {
    var w := s.cb[c];
    assert WalkerOk(s, w);
    NextEntryOnList(s, c);
    ResumeKeeps(s, Resume(c));
    if w.seen == s.ctr {
      ChainMember(s.sel, s.list, None, w.at);
      BehindNext(s.sel, s.list, None, w.at);
    }
    var n := if s.ctr != w.seen then s.head else s.sel[w.at].next;
    if n.Some? { ChainMember(s.sel, s.list, None, n.value); }
  }

  /** What callbacks alone leave as it is. */
  predicate SameButSignals(s: State, s': State) {
    && s'.socks == s.socks && s'.list == s.list && s'.sel.Keys == s.sel.Keys && s'.cb.Keys == s.cb.Keys
    && forall t :: t in s.sel ==>
         s'.sel[t].pc == s.sel[t].pc && s'.sel[t].sets == s.sel[t].sets && s'.sel[t].ready == s.sel[t].ready
  }

  ghost predicate Safe(s: State) {
    Inv(s) && WaitingOk(s) && NoneLost(s)
  }

  lemma ResumeSafe(s: State, c: Tid)
    requires Safe(s) && Enabled(s, Resume(c))
    ensures Safe(Apply(s, Resume(c))) && SameButSignals(s, Apply(s, Resume(c)))
  {
    ResumeKeeps(s, Resume(c));
    ResumeLosesNone(s, Resume(c));
    ResumeFrame(s, c);
  }

  lemma ResumeFrame(s: State, c: Tid)
    requires Enabled(s, Resume(c))
    ensures SameButSignals(s, Apply(s, Resume(c)))
  {
  }

  /** One more step of callback `c` at the end of a schedule. */
  lemma StepsOn(s: State, acts: seq<Action>, c: Tid)
    requires Safe(Exec(s, acts)) && c in Exec(s, acts).cb && Exec(s, acts).cb[c].Walk?
    ensures var e, e' := Exec(s, acts), Exec(s, acts + [Resume(c)]);
      && Safe(e') && SameButSignals(e, e') && c in e'.cb && e'.cb == e.cb[c := e'.cb[c]]
      && Left(e', e'.cb[c]) + 1 == Left(e, e.cb[c])
  {
    ExecSnoc(s, acts, Resume(c));
    ResumeProgress(Exec(s, acts), c);
    ResumeSafe(Exec(s, acts), c);
  }

  predicate AllResume(acts: seq<Action>) {
    forall i :: 0 <= i < |acts| ==> acts[i].Resume?
  }

  /** Callback `c` has ended: `e'` is what it made of `e`. */
  predicate Finished(e: State, e': State, c: Tid) {
    SameButSignals(e, e') && e'.cb == e.cb[c := Idle]
  }

  lemma FinishedLater(e: State, e1: State, e2: State, c: Tid)
    requires SameButSignals(e, e1) && c in e1.cb && e1.cb == e.cb[c := e1.cb[c]] && Finished(e1, e2, c)
    ensures Finished(e, e2, c)
  {
  }

  /** A callback that is let run ends, after at most one step per entry of the list and one more. */
  lemma {:induction false} CallbackEnds(s: State, acts: seq<Action>, c: Tid) returns (more: seq<Action>)
    requires Safe(Exec(s, acts)) && c in Exec(s, acts).cb
    ensures AllResume(more) && |more| == Left(Exec(s, acts), Exec(s, acts).cb[c]) <= |Exec(s, acts).list| + 1
    ensures Safe(Exec(s, acts + more)) && Finished(Exec(s, acts), Exec(s, acts + more), c)
    decreases Left(Exec(s, acts), Exec(s, acts).cb[c])
  {
    var e := Exec(s, acts);
    if e.cb[c].Idle? {
      more := [];
      assert acts + more == acts;
    } else {
      BehindBound(e.list, e.cb[c].at);
      StepsOn(s, acts, c);
      var rest := CallbackEnds(s, acts + [Resume(c)], c);
      FinishedLater(e, Exec(s, acts + [Resume(c)]), Exec(s, acts + [Resume(c)] + rest), c);
      more := [Resume(c)] + rest;
      Joined(acts, [Resume(c)], rest);
    }
  }

  lemma Joined(acts: seq<Action>, a: seq<Action>, b: seq<Action>)
    requires AllResume(a) && AllResume(b)
    ensures acts + (a + b) == acts + a + b && AllResume(a + b)
  {
  }

  function Walking(s: State): set<Tid> {
    set c | c in s.cb && s.cb[c].Walk?
  }

  /** The callbacks have ended: `e'` is what they made of `e`. */
  predicate Ended(e: State, e': State) {
    SameButSignals(e, e') && Walking(e') == {}
  }

  lemma OneLess(e: State, e1: State, c: Tid)
    requires c in Walking(e) && Finished(e, e1, c)
    ensures Walking(e1) == Walking(e) - {c} && |Walking(e1)| + 1 == |Walking(e)|
    ensures forall e2 :: Ended(e1, e2) ==> Ended(e, e2)
  {
    assert Walking(e1) == Walking(e) - {c};
  }

  /** All callbacks are let run, one after the other. */
  lemma {:induction false} CallbacksEnd(s: State, acts: seq<Action>) returns (more: seq<Action>)
    requires Safe(Exec(s, acts))
    ensures AllResume(more) && |more| <= |Walking(Exec(s, acts))| * (|Exec(s, acts).list| + 1)
    ensures Safe(Exec(s, acts + more)) && Ended(Exec(s, acts), Exec(s, acts + more))
    decreases |Walking(Exec(s, acts))|
  {
    var e := Exec(s, acts);
    if Walking(e) == {} {
      more := [];
      assert acts + more == acts;
    } else {
      var c :| c in Walking(e);
      var first := CallbackEnds(s, acts, c);
      OneLess(e, Exec(s, acts + first), c);
      var rest := CallbacksEnd(s, acts + first);
      more := first + rest;
      Joined(acts, first, rest);
      Product(|Walking(e)|, |e.list| + 1);
    }
  }

  lemma Product(n: nat, k: nat)
    requires n > 0
    ensures n * k == (n - 1) * k + k
  {
  }

  /** `t` sleeps, and a socket has an event it asked for. */
  predicate Due(e: State, t: Tid, fd: Fd) {
    t in e.sel && e.sel[t].pc.Wait? && fd < |e.socks| && Wanted(e.socks[fd], e.sel[t].sets, fd)
  }

  /**
    From every reachable state the callbacks alone, in a bounded number of steps, get to
    a state in which every selector that is asleep, and one of whose sockets has an
    event it asked for, is signalled and can wake up.
   */
  lemma WakeTheorem(s: State, acts: seq<Action>) returns (more: seq<Action>)
    requires Init(s) && FewAlong(s, acts)
    ensures AllResume(more) && |more| <= |Walking(Exec(s, acts))| * (|Exec(s, acts).list| + 1)
    ensures forall t, fd :: Due(Exec(s, acts), t, fd) ==> Due(Exec(s, acts + more), t, fd) && Enabled(Exec(s, acts + more), Wake(t))
  {
    RunKeeps(s, acts);
    FewMeansNoneLost(s, acts);
    more := CallbacksEnd(s, acts);
    forall t, fd | Due(Exec(s, acts), t, fd)
      ensures Due(Exec(s, acts + more), t, fd) && Enabled(Exec(s, acts + more), Wake(t))
    {
      EndedIsSignalled(Exec(s, acts), Exec(s, acts + more), t, fd);
    }
  }

  lemma EndedIsSignalled(e: State, e': State, t: Tid, fd: Fd)
    requires Safe(e') && Ended(e, e') && Due(e, t, fd)
    ensures Due(e', t, fd) && Enabled(e', Wake(t))
  {
    assert t in e'.sel && SemOk(e'.sel[t]);
    NobodyWalks(e', t, fd);
    assert !Missed(e', t, fd);
  }

  lemma NobodyWalks(e: State, t: Tid, fd: Fd)
    requires Walking(e) == {}
    ensures !Rescued(e, t, fd)
  {
    forall c | c in e.cb ensures e.cb[c].Idle? { assert c !in Walking(e); }
  }
}
