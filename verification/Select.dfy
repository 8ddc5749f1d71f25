/**
  The wake-up protocol between lwip_select and event_callback. A step is one
  region protected by SYS_ARCH_PROTECT; between two steps any other thread may
  run. Sockets stay open while they are selected.
 */
module Select {

  import opened Common

  type Tid = nat
  type Fd = nat

  /** The event fields and the waiter count (SELWAIT_T is u8_t) of struct lwip_sock. */
  datatype Sock = Sock(rcvevent: int, sendevent: bool, errevent: bool, waiting: nat)

  /** The three descriptor sets of a select call. */
  datatype Sets = Sets(read: set<Fd>, write: set<Fd>, except: set<Fd>) {
    predicate Has(fd: Fd) { fd in read || fd in write || fd in except }
    predicate Below(n: nat) { forall fd :: fd in read + write + except ==> fd < n }
  }

  /** Where a thread is in lwip_select. `i` runs over the descriptors. */
  datatype Pc =
    | Outside          // not in select, or in a part that touches no shared list or counter
    | Insert           // about to put select_cb on the list
    | Inc(i: nat)      // counting itself into select_waiting
    | Scan(i: nat)     // the second lwip_selscan
    | Wait             // in sys_arch_sem_wait
    | Dec(i: nat)      // counting itself out
    | Remove           // about to take select_cb off the list

  /** A selecting thread with its select_cb; `ready` is `nready > 0` of the scan. */
  datatype Selector = Selector(pc: Pc, sets: Sets, ready: bool, signalled: bool, sem: nat,
                               next: Option<Tid>, prev: Option<Tid>)

  /** A thread in event_callback for socket `fd`: `at` was visited last, when select_cb_ctr was `seen`. */
  datatype Walker = Idle | Walk(fd: Fd, at: Tid, seen: int)

  /**
    `list` is an auxiliary variable: the entries that `head` and the links stand
    for. No step reads it.
   */
  datatype State = State(socks: seq<Sock>, sel: map<Tid, Selector>, cb: map<Tid, Walker>,
                         head: Option<Tid>, ctr: int, list: seq<Tid>)

  datatype Event = RcvPlus | RcvMinus | SendPlus | SendMinus | Error

  datatype Action =
    | Begin(t: Tid, sets: Sets)
    | Link(t: Tid)
    | Count(t: Tid)
    | ScanOne(t: Tid)
    | Wake(t: Tid)
    | Timeout(t: Tid)
    | Uncount(t: Tid)
    | Unlink(t: Tid)
    | Post(c: Tid, fd: Fd, evt: Event)
    | Resume(c: Tid)

  // ---------------------------------------------------------------------------
  // Steps
  // ---------------------------------------------------------------------------

  /** Does the socket have an event the sets ask for? */
  predicate Wanted(k: Sock, sets: Sets, fd: Fd) {
    || (fd in sets.read && k.rcvevent > 0)
    || (fd in sets.write && k.sendevent)
    || (fd in sets.except && k.errevent)
  }

  /** A 16-bit signed counter. */
  function S16(x: int): int {
    (x + 0x8000) % 0x1_0000 - 0x8000
  }

  function SetEvent(k: Sock, evt: Event): Sock {
    match evt
    case RcvPlus => k.(rcvevent := S16(k.rcvevent + 1))
    case RcvMinus => k.(rcvevent := S16(k.rcvevent - 1))
    case SendPlus => k.(sendevent := true)
    case SendMinus => k.(sendevent := false)
    case Error => k.(errevent := true)
  }

  function Put(s: State, t: Tid, x: Selector): State {
    s.(sel := s.sel[t := x])
  }

  /** Put `t` on top of the list. */
  function LinkNode(s: State, t: Tid): State
    requires t in s.sel
  {
    var sel1 := s.sel[t := s.sel[t].(pc := Inc(0), next := s.head, prev := None)];
    var sel2 := if s.head.Some? && s.head.value in sel1
                then sel1[s.head.value := sel1[s.head.value].(prev := Some(t))] else sel1;
    s.(sel := sel2, head := Some(t), ctr := s.ctr + 1, list := [t] + s.list)
  }

  /** Take `t` off the list. */
  function UnlinkNode(s: State, t: Tid): State
    requires t in s.sel
  {
    var me := s.sel[t];
    var sel1 := if me.next.Some? && me.next.value in s.sel
                then s.sel[me.next.value := s.sel[me.next.value].(prev := me.prev)] else s.sel;
    var top := s.head == Some(t);
    var sel2 := if !top && me.prev.Some? && me.prev.value in sel1
                then sel1[me.prev.value := sel1[me.prev.value].(next := me.next)] else sel1;
    s.(sel := sel2[t := sel2[t].(pc := Outside)], head := if top then me.next else s.head,
       ctr := s.ctr + 1, list := Without(s.list, t))
  }

  function Without(l: seq<Tid>, t: Tid): seq<Tid> {
    if l == [] then [] else if l[0] == t then l[1..] else [l[0]] + Without(l[1..], t)
  }

  /** The loop body of event_callback at entry `scb`: signal it if it waits for an event of `fd`. */
  function Visit(s: State, fd: Fd, scb: Tid): State
    requires fd < |s.socks| && scb in s.sel
  {
    var x := s.sel[scb];
    if !x.signalled && Wanted(s.socks[fd], x.sets, fd)
    then Put(s, scb, x.(signalled := true, sem := x.sem + 1)) else s
  }

  /** Go on with the walk of `c` at `scb`, or end it. */
  function WalkTo(s: State, c: Tid, fd: Fd, scb: Option<Tid>): State
    requires fd < |s.socks|
  {
    if scb.Some? && scb.value in s.sel then
      var s1 := Visit(s, fd, scb.value);
      s1.(cb := s1.cb[c := Walk(fd, scb.value, s.ctr)])
    else s.(cb := s.cb[c := Idle])
  }

  predicate Enabled(s: State, a: Action) {
    match a
    case Begin(t, sets) => t in s.sel && s.sel[t].pc.Outside? && sets.Below(|s.socks|)
    case Link(t) => t in s.sel && s.sel[t].pc.Insert?
    case Count(t) => t in s.sel && s.sel[t].pc.Inc?
    case ScanOne(t) => t in s.sel && s.sel[t].pc.Scan?
    case Wake(t) => t in s.sel && s.sel[t].pc.Wait? && s.sel[t].sem > 0
    case Timeout(t) => t in s.sel && s.sel[t].pc.Wait?
    case Uncount(t) => t in s.sel && s.sel[t].pc.Dec?
    case Unlink(t) => t in s.sel && s.sel[t].pc.Remove?
    case Post(c, fd, _) => c in s.cb && s.cb[c].Idle? && fd < |s.socks|
    case Resume(c) => c in s.cb && s.cb[c].Walk? && s.cb[c].fd < |s.socks| && s.cb[c].at in s.sel
  }

  function Apply(s: State, a: Action): State
    requires Enabled(s, a)
  {
    match a
    case Begin(t, sets) =>
      Put(s, t, Selector(Insert, sets, false, false, 0, None, None))
    case Link(t) => LinkNode(s, t)
    case Count(t) =>
      var x := s.sel[t];
      var i := x.pc.i;
      if i >= |s.socks| then Put(s, t, x.(pc := Scan(0), ready := false))
      else
        var k := s.socks[i];
        Put(s, t, x.(pc := Inc(i + 1)))
          .(socks := if x.sets.Has(i) then s.socks[i := k.(waiting := (k.waiting + 1) % 256)] else s.socks)
    case ScanOne(t) =>
      var x := s.sel[t];
      var i := x.pc.i;
      if i >= |s.socks| then Put(s, t, x.(pc := if x.ready then Dec(0) else Wait))
      else Put(s, t, x.(pc := Scan(i + 1), ready := x.ready || Wanted(s.socks[i], x.sets, i)))
    case Wake(t) => Put(s, t, s.sel[t].(pc := Dec(0), sem := s.sel[t].sem - 1))
    case Timeout(t) => Put(s, t, s.sel[t].(pc := Dec(0)))
    case Uncount(t) =>
      var x := s.sel[t];
      var i := x.pc.i;
      if i >= |s.socks| then Put(s, t, x.(pc := Remove))
      else
        var k := s.socks[i];
        Put(s, t, x.(pc := Dec(i + 1)))
          .(socks := if x.sets.Has(i) && k.waiting > 0 then s.socks[i := k.(waiting := k.waiting - 1)] else s.socks)
    case Unlink(t) => UnlinkNode(s, t)
    case Post(c, fd, evt) =>
      var s1 := s.(socks := s.socks[fd := SetEvent(s.socks[fd], evt)]);
      if s1.socks[fd].waiting == 0 then s1 else WalkTo(s1, c, fd, s1.head)
    case Resume(c) =>
      var w := s.cb[c];
      WalkTo(s, c, w.fd, if s.ctr != w.seen then s.head else s.sel[w.at].next)
  }

  // ---------------------------------------------------------------------------
  // Invariants
  // ---------------------------------------------------------------------------

  predicate OnList(pc: Pc) {
    !pc.Outside? && !pc.Insert?
  }

  /** Is a thread at `pc` counted in select_waiting of `fd`? */
  predicate Counted(x: Selector, fd: Fd) {
    x.sets.Has(fd) &&
    match x.pc
    case Inc(i) => fd < i
    case Scan(_) => true
    case Wait => true
    case Dec(i) => i <= fd
    case _ => false
  }

  function First(l: seq<Tid>): Option<Tid> {
    if l == [] then None else Some(l[0])
  }

  /** From `l[0]`, whose predecessor is `p`, the links in `sel` run through `l` and end. */
  predicate Chain(sel: map<Tid, Selector>, l: seq<Tid>, p: Option<Tid>) {
    l != [] ==>
      && l[0] in sel && OnList(sel[l[0]].pc) && l[0] !in l[1..]
      && sel[l[0]].prev == p && sel[l[0]].next == First(l[1..])
      && Chain(sel, l[1..], Some(l[0]))
  }

  /** The doubly linked list holds exactly the threads between Link and Unlink. */
  predicate Linked(s: State) {
    && s.head == First(s.list) && Chain(s.sel, s.list, None)
    && forall t :: t in s.sel && OnList(s.sel[t].pc) ==> t in s.list
  }

  function Counters(sel: map<Tid, Selector>, fd: Fd): set<Tid> {
    set t | t in sel && Counted(sel[t], fd)
  }

  /** select_waiting is the number of selectors between their increment and decrement. */
  predicate WaitingOk(s: State) {
    forall fd :: 0 <= fd < |s.socks| ==> s.socks[fd].waiting == |Counters(s.sel, fd)|
  }

  /** No socket is counted by as many selectors as its 8-bit counter has values. */
  predicate Few(s: State) {
    forall fd :: 0 <= fd < |s.socks| ==> |Counters(s.sel, fd)| < 256
  }

  /** A selector owns its semaphore: signalled once at most, and not yet taken while it waits. */
  predicate SemOk(x: Selector) {
    && (x.pc.Insert? || x.pc.Inc? || x.pc.Scan? || x.pc.Wait? ==> x.sem == if x.signalled then 1 else 0)
    && (x.pc.Insert? ==> !x.signalled)
    && x.sem <= if x.signalled then 1 else 0
  }

  predicate SelectorsOk(s: State) {
    forall t :: t in s.sel ==> SemOk(s.sel[t])
  }

  /** While select_cb_ctr is what a walker saw, the entry it stands at is on the list. */
  predicate WalkerOk(s: State, w: Walker) {
    w.Walk? ==> w.fd < |s.socks| && w.at in s.sel && w.seen <= s.ctr && (w.seen == s.ctr ==> w.at in s.list)
  }

  predicate WalkersOk(s: State) {
    forall c :: c in s.cb ==> WalkerOk(s, s.cb[c])
  }

  /** `t` comes after `x` in `l`. */
  predicate After(l: seq<Tid>, x: Tid, t: Tid) {
    l != [] && if l[0] == x then t in l[1..] else After(l[1..], x, t)
  }

  /** A walker for `fd` that will still come to `t`: it restarts, or `t` lies ahead of it. */
  predicate WillVisit(s: State, w: Walker, t: Tid, fd: Fd) {
    w.Walk? && w.fd == fd && (w.seen != s.ctr || After(s.list, w.at, t))
  }

  /** `t` is past its last look at `fd`, is not signalled, and an event it waits for is there. */
  predicate Missed(s: State, t: Tid, fd: Fd) {
    && t in s.sel && fd < |s.socks| && !s.sel[t].signalled
    && (s.sel[t].pc.Wait? || (s.sel[t].pc.Scan? && fd < s.sel[t].pc.i && !s.sel[t].ready))
    && Wanted(s.socks[fd], s.sel[t].sets, fd)
  }

  predicate Rescued(s: State, t: Tid, fd: Fd) {
    exists c :: c in s.cb && WillVisit(s, s.cb[c], t, fd)
  }

  ghost predicate NoneLost(s: State) {
    forall t, fd :: Missed(s, t, fd) ==> Rescued(s, t, fd)
  }

  predicate Inv(s: State) {
    Linked(s) && SelectorsOk(s) && WalkersOk(s)
  }

  // ---------------------------------------------------------------------------
  // The linked list
  // ---------------------------------------------------------------------------

  /** Same links and same membership, as far as `l` can see. */
  predicate SameLinks(sel: map<Tid, Selector>, sel': map<Tid, Selector>, l: seq<Tid>) {
    forall x :: x in l && x in sel ==>
      x in sel' && sel'[x].next == sel[x].next && sel'[x].prev == sel[x].prev
      && (OnList(sel[x].pc) ==> OnList(sel'[x].pc))
  }

  lemma {:induction false} ChainFrame(sel: map<Tid, Selector>, sel': map<Tid, Selector>, l: seq<Tid>, p: Option<Tid>)
    requires Chain(sel, l, p) && SameLinks(sel, sel', l)
    ensures Chain(sel', l, p)
  {
    if l != [] {
      assert l[0] in l;
      ChainFrame(sel, sel', l[1..], Some(l[0]));
    }
  }

  lemma {:induction false} ChainMember(sel: map<Tid, Selector>, l: seq<Tid>, p: Option<Tid>, t: Tid)
    requires Chain(sel, l, p) && t in l
    ensures t in sel && OnList(sel[t].pc)
    ensures sel[t].next.Some? ==> sel[t].next.value in l && sel[t].next.value in sel && sel[t].next.value != t
    ensures sel[t].prev == p || (sel[t].prev.Some? && sel[t].prev.value in l && sel[t].prev.value in sel)
    ensures After(l, t, t) == false
  {
    if l[0] != t {
      ChainMember(sel, l[1..], Some(l[0]), t);
    }
  }

  lemma LinkKeeps(s: State, t: Tid)
    requires Linked(s) && t in s.sel && s.sel[t].pc.Insert?
    ensures Linked(LinkNode(s, t))
  {
    var s' := LinkNode(s, t);
    var l := s.list;
    if t in l {
      ChainMember(s.sel, l, None, t);
    }
    if l != [] {
      assert SameLinks(s.sel, s'.sel, l[1..]);
      ChainFrame(s.sel, s'.sel, l[1..], Some(l[0]));
      assert Chain(s'.sel, l, Some(t));
    }
    assert s'.list[1..] == l;
  }

  /** What Unlink of `t` (with links `me`) leaves of another entry's links. */
  predicate Relinked(x: Tid, n: Selector, n': Selector, me: Selector) {
    && n'.next == (if me.prev == Some(x) then me.next else n.next)
    && n'.prev == (if me.next == Some(x) then me.prev else n.prev)
    && n'.pc == n.pc
  }

  lemma {:induction false} UnlinkChain(sel: map<Tid, Selector>, sel': map<Tid, Selector>, l: seq<Tid>, p: Option<Tid>, t: Tid)
    requires Chain(sel, l, p) && t in l && t in sel && (p.Some? ==> p.value !in l)
    requires forall x :: x in l && x != t && x in sel ==> x in sel' && Relinked(x, sel[x], sel'[x], sel[t])
    ensures Chain(sel', Without(l, t), p)
    ensures First(Without(l, t)) == if l[0] == t then sel[t].next else Some(l[0])
    ensures forall x :: x in Without(l, t) <==> x in l && x != t
  {
    var r := l[1..];
    if l[0] == t {
      if r != [] {
        assert r[0] in l;
        forall x | x in r[1..] && x in sel
          ensures x in sel' && sel'[x].next == sel[x].next && sel'[x].prev == sel[x].prev
        {
          assert x in l && x != t && Relinked(x, sel[x], sel'[x], sel[t]);
        }
        ChainFrame(sel, sel', r[1..], Some(r[0]));
      }
    } else {
      UnlinkChain(sel, sel', r, Some(l[0]), t);
      ChainPrev(sel, r, Some(l[0]), t);
      assert Without(l, t)[1..] == Without(r, t);
      assert l[0] in l && Relinked(l[0], sel[l[0]], sel'[l[0]], sel[t]);
    }
  }

  /** The predecessor link of `t` is `p` exactly when `t` is the first entry. */
  lemma {:induction false} ChainPrev(sel: map<Tid, Selector>, l: seq<Tid>, p: Option<Tid>, t: Tid)
    requires Chain(sel, l, p) && t in l && p.Some? && p.value !in l
    ensures t in sel && (sel[t].prev == p <==> l[0] == t)
    ensures sel[t].next != p
  {
    if l[0] != t {
      ChainMember(sel, l[1..], Some(l[0]), t);
      ChainPrev(sel, l[1..], Some(l[0]), t);
    }
    ChainMember(sel, l, p, t);
  }

  lemma UnlinkKeeps(s: State, t: Tid)
    requires Linked(s) && t in s.sel && s.sel[t].pc.Remove?
    ensures Linked(UnlinkNode(s, t))
  {
    var s' := UnlinkNode(s, t);
    ChainMember(s.sel, s.list, None, t);
    UnlinkChain(s.sel, s'.sel, s.list, None, t);
  }

  // ---------------------------------------------------------------------------
  // Waiter counts, semaphores, walkers
  // ---------------------------------------------------------------------------

  /** Every thread is counted in the same sockets as before. */
  predicate SameCounts(s: State, s': State) {
    && s'.sel.Keys == s.sel.Keys && |s'.socks| == |s.socks|
    && (forall fd :: 0 <= fd < |s.socks| ==> s'.socks[fd].waiting == s.socks[fd].waiting)
    && (forall t, fd {:trigger Counted(s'.sel[t], fd)} :: t in s.sel && 0 <= fd < |s.socks| ==>
          (Counted(s'.sel[t], fd) <==> Counted(s.sel[t], fd)))
  }

  lemma SameCountsKeeps(s: State, s': State)
    requires WaitingOk(s) && SameCounts(s, s')
    ensures WaitingOk(s')
  {
    forall fd | 0 <= fd < |s'.socks| ensures Counters(s'.sel, fd) == Counters(s.sel, fd) {
      forall t | t in s.sel ensures t in Counters(s'.sel, fd) <==> t in Counters(s.sel, fd) {
        assert Counted(s'.sel[t], fd) <==> Counted(s.sel[t], fd);
      }
    }
  }

  /** Counting in or out moves one thread in or out of the counters of one socket. */
  lemma CountKeeps(s: State, t: Tid)
    requires WaitingOk(s) && Enabled(s, Count(t)) && Few(Apply(s, Count(t)))
    ensures WaitingOk(Apply(s, Count(t)))
  {
    var s' := Apply(s, Count(t));
    var i := s.sel[t].pc.i;
    if i >= |s.socks| {
      SameCountsKeeps(s, s');
    } else {
      forall fd | 0 <= fd < |s.socks| ensures s'.socks[fd].waiting == |Counters(s'.sel, fd)| {
        CountedIn(s, t, fd);
        assert |Counters(s'.sel, fd)| < 256;
      }
    }
  }

  lemma CountedIn(s: State, t: Tid, fd: nat)
    requires Enabled(s, Count(t)) && fd < |s.socks| && s.sel[t].pc.i < |s.socks|
    ensures Counters(Apply(s, Count(t)).sel, fd) ==
      Counters(s.sel, fd) + (if fd == s.sel[t].pc.i && s.sel[t].sets.Has(fd) then {t} else {})
    ensures fd == s.sel[t].pc.i && s.sel[t].sets.Has(fd) ==> t !in Counters(s.sel, fd)
  {
    var s' := Apply(s, Count(t));
    forall x | x in s.sel
      ensures x in Counters(s'.sel, fd) <==> x in Counters(s.sel, fd) || (x == t && fd == s.sel[t].pc.i && s.sel[t].sets.Has(fd))
    {
      if x != t { assert s'.sel[x] == s.sel[x]; }
    }
  }

  lemma UncountKeeps(s: State, t: Tid)
    requires WaitingOk(s) && Enabled(s, Uncount(t))
    ensures WaitingOk(Apply(s, Uncount(t)))
  {
    var s' := Apply(s, Uncount(t));
    if s.sel[t].pc.i >= |s.socks| {
      SameCountsKeeps(s, s');
    } else {
      forall fd | 0 <= fd < |s.socks| ensures s'.socks[fd].waiting == |Counters(s'.sel, fd)| {
        UncountOne(s, t, fd);
      }
    }
  }

  lemma UncountOne(s: State, t: Tid, fd: Fd)
    requires WaitingOk(s) && Enabled(s, Uncount(t))
    requires fd < |s.socks| && s.sel[t].pc.i < |s.socks|
    ensures var s' := Apply(s, Uncount(t)); s'.socks[fd].waiting == |Counters(s'.sel, fd)|
  {
    var s' := Apply(s, Uncount(t));
    if fd == s.sel[t].pc.i && s.sel[t].sets.Has(fd) {
      assert t in Counters(s.sel, fd);
      assert Counters(s'.sel, fd) == Counters(s.sel, fd) - {t};
    } else {
      assert Counters(s'.sel, fd) == Counters(s.sel, fd);
    }
  }

  /** A selector past its increment keeps the counter away from zero. */
  lemma CountedIsSeen(s: State, t: Tid, fd: Fd)
    requires WaitingOk(s) && t in s.sel && fd < |s.socks| && Counted(s.sel[t], fd)
    ensures s.socks[fd].waiting > 0
  {
    assert t in Counters(s.sel, fd);
  }

  /** `Put` of a thread with the same links keeps the list. */
  lemma PutKeepsList(s: State, s': State, t: Tid)
    requires Linked(s) && t in s.sel && s'.list == s.list && s'.head == s.head
    requires t in s'.sel && s'.sel == s.sel[t := s'.sel[t]]
    requires OnList(s.sel[t].pc) ==> s'.sel[t].next == s.sel[t].next && s'.sel[t].prev == s.sel[t].prev
    requires OnList(s'.sel[t].pc) <==> OnList(s.sel[t].pc)
    ensures Linked(s')
  {
    forall x | x in s.list && x in s.sel
      ensures x in s'.sel && s'.sel[x].next == s.sel[x].next && s'.sel[x].prev == s.sel[x].prev
      ensures OnList(s.sel[x].pc) ==> OnList(s'.sel[x].pc)
    {
      ChainMember(s.sel, s.list, None, x);
    }
    ChainFrame(s.sel, s'.sel, s.list, None);
  }

  /** Steps of a selector that leave the list alone. */
  predicate Local(a: Action) {
    a.Begin? || a.Count? || a.ScanOne? || a.Wake? || a.Timeout? || a.Uncount?
  }

  lemma LocalKeepsList(s: State, a: Action)
    requires Inv(s) && Enabled(s, a) && Local(a)
    ensures Inv(Apply(s, a))
  {
    PutKeepsList(s, Apply(s, a), a.t);
  }

  lemma LocalKeepsCounts(s: State, a: Action)
    requires WaitingOk(s) && Enabled(s, a) && Local(a) && Few(Apply(s, a))
    ensures WaitingOk(Apply(s, a))
  {
    if a.Count? {
      CountKeeps(s, a.t);
    } else if a.Uncount? {
      UncountKeeps(s, a.t);
    } else {
      SameCountsKeeps(s, Apply(s, a));
    }
  }

  /** A step that changes the list bumps select_cb_ctr, so every walker starts over. */
  lemma ListChangeKeeps(s: State, s': State)
    requires Inv(s) && s'.cb == s.cb && s'.ctr == s.ctr + 1 && s'.socks == s.socks && s'.sel.Keys == s.sel.Keys
    requires Linked(s')
    requires forall t :: t in s.sel ==> SameButLinks(s.sel[t], s'.sel[t])
    ensures Inv(s') && (WaitingOk(s) ==> WaitingOk(s'))
  {
    forall t, fd | t in s.sel && 0 <= fd < |s.socks| ensures Counted(s'.sel[t], fd) <==> Counted(s.sel[t], fd) {
      assert SameButLinks(s.sel[t], s'.sel[t]);
    }
    if WaitingOk(s) { SameCountsKeeps(s, s'); }
    forall t | t in s'.sel ensures SemOk(s'.sel[t]) {
      assert SameButLinks(s.sel[t], s'.sel[t]);
    }
  }

  /** Only the links may differ, or the step is one of Link and Unlink. */
  predicate SameButLinks(x: Selector, x': Selector) {
    && x'.sets == x.sets && x'.signalled == x.signalled && x'.sem == x.sem && x'.ready == x.ready
    && (x'.pc == x.pc || (x.pc.Insert? && x'.pc == Inc(0)) || (x.pc.Remove? && x'.pc.Outside?))
  }

  lemma LinkStepKeeps(s: State, t: Tid)
    requires Inv(s) && Enabled(s, Link(t))
    ensures Inv(LinkNode(s, t)) && (WaitingOk(s) ==> WaitingOk(LinkNode(s, t)))
  {
    var s' := LinkNode(s, t);
    LinkKeeps(s, t);
    assert s'.sel.Keys == s.sel.Keys;
    ListChangeKeeps(s, s');
  }

  lemma UnlinkStepKeeps(s: State, t: Tid)
    requires Inv(s) && Enabled(s, Unlink(t))
    ensures Inv(UnlinkNode(s, t)) && (WaitingOk(s) ==> WaitingOk(UnlinkNode(s, t)))
  {
    var s' := UnlinkNode(s, t);
    UnlinkKeeps(s, t);
    assert s'.sel.Keys == s.sel.Keys;
    forall x | x in s.sel ensures SameButLinks(s.sel[x], s'.sel[x]) { UnlinkShape(s, t, x); }
    ListChangeKeeps(s, s');
  }

  lemma UnlinkShape(s: State, t: Tid, x: Tid)
    requires t in s.sel && s.sel[t].pc.Remove? && x in s.sel
    ensures SameButLinks(s.sel[x], UnlinkNode(s, t).sel[x])
  {
  }

  lemma WalkToKeeps(s: State, c: Tid, fd: Fd, scb: Option<Tid>)
    requires Inv(s) && fd < |s.socks| && c in s.cb
    requires scb.Some? ==> scb.value in s.list
    ensures Inv(WalkTo(s, c, fd, scb)) && (WaitingOk(s) ==> WaitingOk(WalkTo(s, c, fd, scb)))
  {
    var s' := WalkTo(s, c, fd, scb);
    if scb.Some? {
      ChainMember(s.sel, s.list, None, scb.value);
      var x := s.sel[scb.value];
      if !x.signalled && Wanted(s.socks[fd], x.sets, fd) {
        PutKeepsList(s, s', scb.value);
      }
      if WaitingOk(s) { SameCountsKeeps(s, s'); }
    }
  }

  lemma PostKeeps(s: State, a: Action)
    requires Inv(s) && Enabled(s, a) && a.Post?
    ensures Inv(Apply(s, a)) && (WaitingOk(s) ==> WaitingOk(Apply(s, a)))
  {
    var s1 := s.(socks := s.socks[a.fd := SetEvent(s.socks[a.fd], a.evt)]);
    if WaitingOk(s) { SameCountsKeeps(s, s1); }
    assert Inv(s1);
    if s1.socks[a.fd].waiting != 0 {
      WalkToKeeps(s1, a.c, a.fd, s1.head);
    }
  }

  /** The entry a walker goes on to is on the list: it never steps through a removed entry. */
  lemma NextEntryOnList(s: State, c: Tid)
    requires Inv(s) && Enabled(s, Resume(c))
    ensures var w := s.cb[c];
      var n := if s.ctr != w.seen then s.head else s.sel[w.at].next;
      && (n.Some? ==> n.value in s.list)
      && (s.ctr == w.seen ==> w.at in s.list)
  {
    var w := s.cb[c];
    if s.ctr == w.seen {
      ChainMember(s.sel, s.list, None, w.at);
    }
  }

  lemma ResumeKeeps(s: State, a: Action)
    requires Inv(s) && Enabled(s, a) && a.Resume?
    ensures Inv(Apply(s, a)) && (WaitingOk(s) ==> WaitingOk(Apply(s, a)))
  {
    NextEntryOnList(s, a.c);
    var w := s.cb[a.c];
    WalkToKeeps(s, a.c, w.fd, if s.ctr != w.seen then s.head else s.sel[w.at].next);
  }

  /** Every step keeps the list, the semaphores and the walkers right; the counters, if none overflows. */
  lemma StepKeeps(s: State, a: Action)
    requires Inv(s) && Enabled(s, a)
    ensures Inv(Apply(s, a)) && (WaitingOk(s) && Few(Apply(s, a)) ==> WaitingOk(Apply(s, a)))
  {
    match a
    case Link(t) => LinkStepKeeps(s, t);
    case Unlink(t) => UnlinkStepKeeps(s, t);
    case Post(_, _, _) => PostKeeps(s, a);
    case Resume(_) => ResumeKeeps(s, a);
    case _ =>
      LocalKeepsList(s, a);
      if WaitingOk(s) && Few(Apply(s, a)) { LocalKeepsCounts(s, a); }
  }

  // ---------------------------------------------------------------------------
  // No lost wake-up
  // ---------------------------------------------------------------------------

  lemma LocalLosesNone(s: State, a: Action)
    requires Inv(s) && NoneLost(s) && Enabled(s, a) && Local(a)
    ensures NoneLost(Apply(s, a))
  {
    var s' := Apply(s, a);
    forall t, fd | Missed(s', t, fd) ensures Rescued(s', t, fd) {
      assert Missed(s, t, fd);
      var c :| c in s.cb && WillVisit(s, s.cb[c], t, fd);
      assert WillVisit(s', s'.cb[c], t, fd);
    }
  }

  lemma ListStepLosesNone(s: State, a: Action)
    requires Inv(s) && NoneLost(s) && Enabled(s, a) && (a.Link? || a.Unlink?)
    ensures NoneLost(Apply(s, a))
  {
    var s' := Apply(s, a);
    forall t, fd | Missed(s', t, fd) ensures Rescued(s', t, fd) {
      assert Missed(s, t, fd);
      var c :| c in s.cb && WillVisit(s, s.cb[c], t, fd);
      assert WalkerOk(s, s.cb[c]);
      assert WillVisit(s', s'.cb[c], t, fd);
    }
  }

  /** Somebody else than walker `c` will still come to `t` for `fd`. */
  predicate RescuedByOther(s: State, c: Tid, t: Tid, fd: Fd) {
    exists d :: d in s.cb && d != c && WillVisit(s, s.cb[d], t, fd)
  }

  /** The walk of `c` reaches `t` now or later if it goes on at `scb`. */
  predicate Ahead(s: State, scb: Option<Tid>, t: Tid) {
    scb.Some? && (t == scb.value || After(s.list, scb.value, t))
  }

  lemma WalkToLosesNone(s: State, c: Tid, fd: Fd, scb: Option<Tid>)
    requires Inv(s) && fd < |s.socks| && c in s.cb && (scb.Some? ==> scb.value in s.list)
    requires forall t, g :: Missed(s, t, g) ==> RescuedByOther(s, c, t, g) || (g == fd && Ahead(s, scb, t))
    ensures NoneLost(WalkTo(s, c, fd, scb))
  {
    var s' := WalkTo(s, c, fd, scb);
    if scb.Some? { ChainMember(s.sel, s.list, None, scb.value); }
    forall t, g | Missed(s', t, g) ensures Rescued(s', t, g) {
      assert Missed(s, t, g);
      if RescuedByOther(s, c, t, g) {
        var d :| d in s.cb && d != c && WillVisit(s, s.cb[d], t, g);
        assert WillVisit(s', s'.cb[d], t, g);
      } else {
        assert g == fd && t != scb.value;
        assert WillVisit(s', s'.cb[c], t, g);
      }
    }
  }

  lemma MissedIsListed(s: State, t: Tid, fd: Fd)
    requires Linked(s) && Missed(s, t, fd)
    ensures t in s.list && Ahead(s, s.head, t)
  {
  }

  lemma PostLosesNone(s: State, a: Action)
    requires Inv(s) && WaitingOk(s) && NoneLost(s) && Enabled(s, a) && a.Post?
    ensures NoneLost(Apply(s, a))
  {
    var fd := a.fd;
    var s1 := s.(socks := s.socks[fd := SetEvent(s.socks[fd], a.evt)]);
    SameCountsKeeps(s, s1);
    forall t, g | Missed(s1, t, g)
      ensures if g == fd then s1.socks[fd].waiting != 0 && Ahead(s1, s1.head, t) else RescuedByOther(s1, a.c, t, g)
    {
      if g == fd {
        CountedIsSeen(s1, t, fd);
        MissedIsListed(s1, t, fd);
      } else {
        assert Missed(s, t, g);
        var d :| d in s.cb && WillVisit(s, s.cb[d], t, g);
        assert d != a.c && WillVisit(s1, s1.cb[d], t, g);
      }
    }
    if s1.socks[fd].waiting != 0 {
      WalkToLosesNone(s1, a.c, fd, s1.head);
    } else {
      forall t, g | Missed(s1, t, g) ensures Rescued(s1, t, g) {
        assert RescuedByOther(s1, a.c, t, g);
        var d :| d in s1.cb && d != a.c && WillVisit(s1, s1.cb[d], t, g);
      }
    }
  }

  /** What lies after `x` starts at the successor link of `x`. */
  lemma {:induction false} AfterNext(sel: map<Tid, Selector>, l: seq<Tid>, p: Option<Tid>, x: Tid, t: Tid)
    requires Chain(sel, l, p) && x in l && x in sel && After(l, x, t)
    ensures sel[x].next.Some? && (t == sel[x].next.value || After(l, sel[x].next.value, t))
  {
    if l[0] == x {
      var r := l[1..];
      assert sel[x].next == Some(r[0]);
    } else {
      AfterNext(sel, l[1..], Some(l[0]), x, t);
      ChainMember(sel, l[1..], Some(l[0]), x);
    }
  }

  lemma ResumeLosesNone(s: State, a: Action)
    requires Inv(s) && NoneLost(s) && Enabled(s, a) && a.Resume?
    ensures NoneLost(Apply(s, a))
  {
    var w := s.cb[a.c];
    var n := if s.ctr != w.seen then s.head else s.sel[w.at].next;
    NextEntryOnList(s, a.c);
    forall t, g | Missed(s, t, g) ensures RescuedByOther(s, a.c, t, g) || (g == w.fd && Ahead(s, n, t)) {
      var d :| d in s.cb && WillVisit(s, s.cb[d], t, g);
      if d == a.c {
        if s.ctr != w.seen {
          MissedIsListed(s, t, g);
        } else {
          AfterNext(s.sel, s.list, None, w.at, t);
        }
      }
    }
    WalkToLosesNone(s, a.c, w.fd, n);
  }

  lemma StepLosesNone(s: State, a: Action)
    requires Inv(s) && WaitingOk(s) && NoneLost(s) && Enabled(s, a)
    ensures NoneLost(Apply(s, a))
  {
    match a
    case Link(_) => ListStepLosesNone(s, a);
    case Unlink(_) => ListStepLosesNone(s, a);
    case Post(_, _, _) => PostLosesNone(s, a);
    case Resume(_) => ResumeLosesNone(s, a);
    case _ => LocalLosesNone(s, a);
  }

  // ---------------------------------------------------------------------------
  // Runs
  // ---------------------------------------------------------------------------

  predicate Init(s: State) {
    && s.list == [] && s.head == None
    && (forall t :: t in s.sel ==> s.sel[t].pc.Outside? && SemOk(s.sel[t]))
    && (forall c :: c in s.cb ==> s.cb[c].Idle?)
    && (forall fd :: 0 <= fd < |s.socks| ==> s.socks[fd].waiting == 0)
  }

  /** The state after a schedule; a step that is not enabled does not happen. */
  function Exec(s: State, acts: seq<Action>): State {
    if acts == [] then s
    else
      var s1 := Exec(s, acts[..|acts|-1]);
      var a := acts[|acts|-1];
      if Enabled(s1, a) then Apply(s1, a) else s1
  }

  /** In no state of the schedule is a socket counted by 256 selectors. */
  predicate FewAlong(s: State, acts: seq<Action>) {
    Few(Exec(s, acts)) && (acts != [] ==> FewAlong(s, acts[..|acts|-1]))
  }

  /** In every state of the schedule each counter is right. */
  predicate ExactAlong(s: State, acts: seq<Action>) {
    WaitingOk(Exec(s, acts)) && (acts != [] ==> ExactAlong(s, acts[..|acts|-1]))
  }

  lemma InitCounts(s: State)
    requires Init(s)
    ensures WaitingOk(s) && Few(s)
  {
    forall fd | 0 <= fd < |s.socks| ensures Counters(s.sel, fd) == {} {}
  }

  /** The list, the semaphores and the walkers stay right in every schedule. */
  lemma {:induction false} RunKeeps(s: State, acts: seq<Action>)
    requires Init(s)
    ensures Inv(Exec(s, acts))
  {
    if acts != [] {
      RunKeeps(s, acts[..|acts|-1]);
      var s1 := Exec(s, acts[..|acts|-1]);
      var a := acts[|acts|-1];
      if Enabled(s1, a) { StepKeeps(s1, a); }
    }
  }

  /** While no socket is counted by 256 selectors, the counters are right and no wake-up is lost. */
  lemma {:induction false} FewMeansNoneLost(s: State, acts: seq<Action>)
    requires Init(s) && FewAlong(s, acts)
    ensures ExactAlong(s, acts) && NoneLost(Exec(s, acts))
  {
    if acts == [] {
      InitCounts(s);
    } else {
      var pre := acts[..|acts|-1];
      FewMeansNoneLost(s, pre);
      RunKeeps(s, pre);
      var s1, a := Exec(s, pre), acts[|acts|-1];
      if Enabled(s1, a) {
        StepKeeps(s1, a);
        StepLosesNone(s1, a);
      }
    }
  }

  /** The counters are 8 bits. */
  predicate Octets(s: State) {
    forall fd :: 0 <= fd < |s.socks| ==> s.socks[fd].waiting < 256
  }

  lemma {:induction false} RunOctets(s: State, acts: seq<Action>)
    requires Init(s)
    ensures Octets(Exec(s, acts))
  {
    if acts != [] { RunOctets(s, acts[..|acts|-1]); }
  }

  /** select_waiting counts the selectors at every point of a schedule if and only if no socket ever has 256 of them. */
  lemma {:induction false} CountsExactIff(s: State, acts: seq<Action>)
    requires Init(s)
    ensures ExactAlong(s, acts) <==> FewAlong(s, acts)
  {
    if FewAlong(s, acts) { FewMeansNoneLost(s, acts); }
    if ExactAlong(s, acts) {
      RunOctets(s, acts);
      var e := Exec(s, acts);
      forall fd | 0 <= fd < |e.socks| ensures |Counters(e.sel, fd)| < 256 { assert e.socks[fd].waiting < 256; }
      if acts != [] { CountsExactIff(s, acts[..|acts|-1]); }
    }
  }

  /**
    No lost wake-up, for every schedule of any number of selectors and callbacks in
    which no single socket is counted by 256 selectors: a selector asleep without a
    signal has no event waiting in its sets unless some callback is still going to
    visit it.
   */
  lemma NoLostWakeup(s: State, acts: seq<Action>, t: Tid, fd: Fd)
    requires Init(s) && FewAlong(s, acts)
    requires var e := Exec(s, acts);
      t in e.sel && e.sel[t].pc.Wait? && e.sel[t].sem == 0 && fd < |e.socks| && Wanted(e.socks[fd], e.sel[t].sets, fd)
    ensures Rescued(Exec(s, acts), t, fd)
  {
    RunKeeps(s, acts);
    FewMeansNoneLost(s, acts);
    var e := Exec(s, acts);
    assert SemOk(e.sel[t]);
    assert Missed(e, t, fd);
  }

  /** A selector that was signalled before or during its wait can wake up. */
  lemma SignalledCanWake(s: State, acts: seq<Action>, t: Tid)
    requires Init(s)
    requires t in Exec(s, acts).sel && Exec(s, acts).sel[t].pc.Wait? && Exec(s, acts).sel[t].signalled
    ensures Enabled(Exec(s, acts), Wake(t))
  {
    RunKeeps(s, acts);
    assert SemOk(Exec(s, acts).sel[t]);
  }

  /** When every callback has returned, no sleeping selector has an event it waits for. */
  lemma QuietMeansNothingMissed(s: State, acts: seq<Action>)
    requires Init(s) && FewAlong(s, acts)
    requires forall c :: c in Exec(s, acts).cb ==> Exec(s, acts).cb[c].Idle?
    ensures forall t, fd :: !Missed(Exec(s, acts), t, fd)
  {
    FewMeansNoneLost(s, acts);
  }

  /** A walk goes on only at entries that are on the list at that moment. */
  lemma WalkStaysOnList(s: State, acts: seq<Action>, c: Tid)
    requires Init(s) && Enabled(Exec(s, acts), Resume(c))
    ensures var e := Exec(s, acts);
      var w := Apply(e, Resume(c)).cb[c];
      w.Walk? ==> w.at in e.list && OnList(e.sel[w.at].pc)
  {
    RunKeeps(s, acts);
    var e := Exec(s, acts);
    NextEntryOnList(e, c);
    var w := e.cb[c];
    var n := if e.ctr != w.seen then e.head else e.sel[w.at].next;
    if n.Some? { ChainMember(e.sel, e.list, None, n.value); }
  }

  /** Nobody is woken without a cause: at the moment of a signal the socket has an event the selector asked for. */
  lemma SignalsHaveCause(s: State, a: Action, t: Tid)
    requires Enabled(s, a) && t in s.sel && !s.sel[t].signalled
    ensures var s' := Apply(s, a);
      t in s'.sel && (s'.sel[t].signalled ==>
        var fd := if a.Post? then a.fd else if a.Resume? then s.cb[a.c].fd else |s.socks|;
        (a.Post? || a.Resume?) && fd < |s'.socks| && Wanted(s'.socks[fd], s'.sel[t].sets, fd))
  {
  }

  // ---------------------------------------------------------------------------
  // 256 selectors on one socket
  // ---------------------------------------------------------------------------

  const READERS: Sets := Sets({0}, {}, {})

  /** Threads that will select. */
  function Threads(n: nat): map<Tid, Selector> {
    if n == 0 then map[] else Threads(n - 1)[n - 1 := Selector(Outside, READERS, false, false, 0, None, None)]
  }

  lemma {:induction false} ThreadsAre(n: nat)
    ensures forall t :: t in Threads(n) <==> 0 <= t < n
    ensures forall t :: t in Threads(n) ==> Threads(n)[t].pc.Outside? && SemOk(Threads(n)[t])
  {
    if n > 0 { ThreadsAre(n - 1); }
  }

  /** 256 threads, one socket, one callback. */
  function Crowd(): State {
    State([Sock(0, false, false, 0)], Threads(256), map[0 := Idle], None, 0, [])
  }

  /** A thread on its way to sleep. */
  predicate Reader(x: Selector, pc: Pc) {
    x.pc == pc && x.sets == READERS && !x.signalled && !x.ready
  }

  /** Threads below `n` are asleep, and those above it have not begun. */
  ghost predicate Others(s: State, n: nat) {
    && s.cb == map[0 := Idle] && (forall t :: t in s.sel <==> 0 <= t < 256)
    && (forall t :: 0 <= t < n && t < 256 ==> Reader(s.sel[t], Wait))
    && (forall t :: n < t < 256 ==> s.sel[t].pc.Outside?)
  }

  /** And thread `n` is at `pc`. */
  ghost predicate Sleeping(s: State, n: nat, pc: Pc, waiting: nat) {
    && s.socks == [Sock(0, false, false, waiting)] && Others(s, n)
    && (n < 256 ==> if pc.Outside? then s.sel[n].pc.Outside? else Reader(s.sel[n], pc))
  }

  /** What one thread does until it sleeps. */
  function Sleep(t: Tid): seq<Action> {
    [Begin(t, READERS)] + [Link(t)] + [Count(t)] + [Count(t)] + [ScanOne(t)] + [ScanOne(t)]
  }

  function Crowded(n: nat): seq<Action> {
    if n == 0 then [] else Crowded(n - 1) + Sleep(n - 1)
  }

  lemma ExecSnoc(s: State, acts: seq<Action>, a: Action)
    ensures Exec(s, acts + [a]) == var s1 := Exec(s, acts); if Enabled(s1, a) then Apply(s1, a) else s1
  {
    assert (acts + [a])[..|acts|] == acts;
  }

  lemma RunBegin(s: State, acts: seq<Action>, n: nat, w: nat)
    requires n < 256 && Sleeping(Exec(s, acts), n, Outside, w)
    ensures Sleeping(Exec(s, acts + [Begin(n, READERS)]), n, Insert, w)
  {
    ExecSnoc(s, acts, Begin(n, READERS));
  }

  lemma RunLink(s: State, acts: seq<Action>, n: nat, w: nat)
    requires n < 256 && Sleeping(Exec(s, acts), n, Insert, w)
    ensures Sleeping(Exec(s, acts + [Link(n)]), n, Inc(0), w)
  {
    ExecSnoc(s, acts, Link(n));
  }

  lemma RunCount(s: State, acts: seq<Action>, n: nat, w: nat)
    requires n < 256 && Sleeping(Exec(s, acts), n, Inc(0), w)
    ensures Sleeping(Exec(s, acts + [Count(n)]), n, Inc(1), (w + 1) % 256)
  {
    ExecSnoc(s, acts, Count(n));
  }

  lemma RunCounted(s: State, acts: seq<Action>, n: nat, w: nat)
    requires n < 256 && Sleeping(Exec(s, acts), n, Inc(1), w)
    ensures Sleeping(Exec(s, acts + [Count(n)]), n, Scan(0), w)
  {
    ExecSnoc(s, acts, Count(n));
  }

  lemma RunScan(s: State, acts: seq<Action>, n: nat, w: nat)
    requires n < 256 && Sleeping(Exec(s, acts), n, Scan(0), w)
    ensures Sleeping(Exec(s, acts + [ScanOne(n)]), n, Scan(1), w)
  {
    ExecSnoc(s, acts, ScanOne(n));
  }

  lemma RunSleep(s: State, acts: seq<Action>, n: nat, w: nat)
    requires n < 256 && Sleeping(Exec(s, acts), n, Scan(1), w)
    ensures Sleeping(Exec(s, acts + [ScanOne(n)]), n + 1, Outside, w)
  {
    ExecSnoc(s, acts, ScanOne(n));
  }

  lemma OneSleeps(s: State, acts: seq<Action>, n: nat, w: nat, w': nat)
    requires n < 256 && Sleeping(Exec(s, acts), n, Outside, w) && w' == (w + 1) % 256
    ensures Sleeping(Exec(s, acts + Sleep(n)), n + 1, Outside, w')
  {
    RunBegin(s, acts, n, w);
    var a1 := acts + [Begin(n, READERS)];
    RunLink(s, a1, n, w);
    var a2 := a1 + [Link(n)];
    RunCount(s, a2, n, w);
    var a3 := a2 + [Count(n)];
    RunCounted(s, a3, n, w');
    var a4 := a3 + [Count(n)];
    RunScan(s, a4, n, w');
    var a5 := a4 + [ScanOne(n)];
    RunSleep(s, a5, n, w');
    assert acts + Sleep(n) == a5 + [ScanOne(n)];
  }

  lemma {:induction false} AllSleep(s: State, n: nat)
    requires n <= 256 && Sleeping(s, 0, Outside, 0)
    ensures Sleeping(Exec(s, Crowded(n)), n, Outside, n % 256)
  {
    if n > 0 {
      AllSleep(s, n - 1);
      OneSleeps(s, Crowded(n - 1), n - 1, (n - 1) % 256, n % 256);
    }
  }

  lemma CrowdStarts()
    ensures Init(Crowd()) && Sleeping(Crowd(), 0, Outside, 0)
  {
    ThreadsAre(256);
  }

  /** An event on a socket whose counter reads zero is noticed by nobody. */
  lemma NobodyNotices(s: State, t: Tid)
    requires Sleeping(s, 256, Outside, 0) && t < 256
    ensures Enabled(s, Post(0, 0, RcvPlus))
    ensures var e := Apply(s, Post(0, 0, RcvPlus)); Missed(e, t, 0) && !Rescued(e, t, 0)
  {
    assert Reader(s.sel[t], Wait);
  }

  /**
    The limit is real: after 256 threads went to sleep on one socket its counter reads
    zero, data arrives, and a sleeper has its event and nobody who will ever wake it.
   */
  lemma CounterWrapsAt256(t: Tid)
    requires t < 256
    ensures var e := Exec(Crowd(), Crowded(256) + [Post(0, 0, RcvPlus)]);
      Init(Crowd()) && Missed(e, t, 0) && !Rescued(e, t, 0)
  {
    CrowdStarts();
    AllSleep(Crowd(), 256);
    ExecSnoc(Crowd(), Crowded(256), Post(0, 0, RcvPlus));
    NobodyNotices(Exec(Crowd(), Crowded(256)), t);
  }
}
