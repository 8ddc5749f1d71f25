/**
  The listen backlog (tcp.c, tcp_in.c): how many half-open or not yet accepted
  connections a listener has. Connections and listeners live at addresses; a
  connection points to the listener it came from.
 */
module Backlog {

  type Id = nat

  datatype Link = Null | To(id: Id)

  /** Open stands for every state from ESTABLISHED to LAST_ACK. */
  datatype State = SynRcvd | Open | TimeWait

  /** `pend` is TF_BACKLOGPEND. */
  datatype Pcb = Pcb(state: State, pend: bool, listener: Link)

  /** `pending` is accepts_pending; both are u8_t in the source. */
  datatype Listener = Listener(backlog: nat, pending: int)

  type Pcbs = map<Id, Pcb>
  type Listeners = map<Id, Listener>

  /** The connections that count against the backlog of `l`. */
  function Waiting(pcbs: Pcbs, l: Id): set<Id> {
    set p | p in pcbs && pcbs[p].pend && pcbs[p].listener == To(l)
  }

  /** No connection points to a closed listener. */
  predicate Linked(pcbs: Pcbs, ls: Listeners) {
    forall p {:trigger pcbs[p].listener} :: p in pcbs ==> pcbs[p].listener == Null || pcbs[p].listener.id in ls
  }

  /** Every counter is the number of waiting connections. */
  predicate Counted(pcbs: Pcbs, ls: Listeners) {
    forall l {:trigger ls[l].pending} {:trigger Waiting(pcbs, l)} :: l in ls ==> ls[l].pending == |Waiting(pcbs, l)|
  }

  /** No counter is above its backlog. */
  predicate Bounded(ls: Listeners) {
    forall l {:trigger ls[l].backlog} :: l in ls ==> ls[l].pending <= ls[l].backlog < 256
  }

  /** The same listeners with the same backlogs. */
  predicate SameLimits(ls: Listeners, ls': Listeners) {
    ls'.Keys == ls.Keys && forall l {:trigger ls'[l].backlog} :: l in ls ==> ls'[l].backlog == ls[l].backlog
  }

  /** A connection in TIME_WAIT no longer counts: tcp_pcb_purge does nothing for it. */
  predicate Settled(pcbs: Pcbs) {
    forall p {:trigger pcbs[p].state} :: p in pcbs && pcbs[p].state.TimeWait? ==> !pcbs[p].pend || pcbs[p].listener == Null
  }

  predicate Inv(pcbs: Pcbs, ls: Listeners) {
    Linked(pcbs, ls) && Counted(pcbs, ls) && Settled(pcbs)
  }

  /** A connection that starts or stops to wait. */
  lemma WaitingChanges(pcbs: Pcbs, p: Id, b: Pcb, l: Id)
    ensures |Waiting(pcbs[p := b], l)| == |Waiting(pcbs, l)|
              - (if p in Waiting(pcbs, l) then 1 else 0) + (if b.pend && b.listener == To(l) then 1 else 0)
  {
    var w, w' := Waiting(pcbs, l), Waiting(pcbs[p := b], l);
    WaitingElse(pcbs, p, b, l);
    SizeWithout(w, p);
    SizeWithout(w', p);
  }

  lemma WaitingElse(pcbs: Pcbs, p: Id, b: Pcb, l: Id)
    ensures Waiting(pcbs[p := b], l) - {p} == Waiting(pcbs, l) - {p}
    ensures p in Waiting(pcbs[p := b], l) <==> b.pend && b.listener == To(l)
  {
    var pcbs' := pcbs[p := b];
    forall x ensures x in Waiting(pcbs', l) - {p} <==> x in Waiting(pcbs, l) - {p} {
      if x != p { assert x in pcbs' <==> x in pcbs; }
    }
  }

  lemma SizeWithout(w: set<Id>, p: Id)
    ensures |w| == |w - {p}| + if p in w then 1 else 0
  {
    if p !in w { assert w - {p} == w; }
  }

  lemma WaitingLess(pcbs: Pcbs, p: Id, l: Id)
    ensures |Waiting(pcbs - {p}, l)| == |Waiting(pcbs, l)| - if p in Waiting(pcbs, l) then 1 else 0
  {
    assert Waiting(pcbs - {p}, l) == Waiting(pcbs, l) - {p};
    SizeWithout(Waiting(pcbs, l), p);
  }

  /** Setting the flag and counting up, or clearing it and counting down, keeps the books. */
  lemma FlagKeeps(pcbs: Pcbs, ls: Listeners, p: Id, pend: bool)
    requires Inv(pcbs, ls) && p in pcbs && pcbs[p].pend != pend && pcbs[p].listener.To?
    requires pend ==> !pcbs[p].state.TimeWait? && pcbs[p].listener.id in ls
    ensures var l := pcbs[p].listener.id;
      && l in ls && (!pend ==> ls[l].pending > 0)
      && Inv(pcbs[p := pcbs[p].(pend := pend)], ls[l := ls[l].(pending := ls[l].pending + if pend then 1 else -1)])
  {
    var l := pcbs[p].listener.id;
    assert pcbs[p].listener == To(l);
    var b := pcbs[p].(pend := pend);
    var pcbs', ls' := pcbs[p := b], ls[l := ls[l].(pending := ls[l].pending + if pend then 1 else -1)];
    forall x | x in ls' ensures ls'[x].pending == |Waiting(pcbs', x)| {
      WaitingChanges(pcbs, p, b, x);
      assert ls[x].pending == |Waiting(pcbs, x)|;
    }
    if !pend { assert p in Waiting(pcbs, l); }
  }

  /** A connection that does not count may change its state or go. */
  lemma QuietKeeps(pcbs: Pcbs, ls: Listeners, p: Id, state: State)
    requires Inv(pcbs, ls) && p in pcbs && (!pcbs[p].pend || pcbs[p].listener == Null)
    ensures Inv(pcbs[p := pcbs[p].(state := state)], ls)
    ensures Inv(pcbs - {p}, ls)
  {
    var b := pcbs[p].(state := state);
    forall x | x in ls
      ensures ls[x].pending == |Waiting(pcbs[p := b], x)| && ls[x].pending == |Waiting(pcbs - {p}, x)|
    {
      WaitingChanges(pcbs, p, b, x);
      WaitingLess(pcbs, p, x);
      assert ls[x].pending == |Waiting(pcbs, x)|;
    }
  }

  /** Two changes at one address are one, and removing it undoes them. */
  lemma OnlyAt(pcbs: Pcbs, p: Id, b: Pcb, c: Pcb)
    ensures pcbs[p := b][p := c] == pcbs[p := c] && pcbs[p := b] - {p} == pcbs - {p}
  {
  }

  class Stack {
    var pcbs: Pcbs
    var listeners: Listeners

    predicate Valid()
      reads this
    {
      Inv(pcbs, listeners)
    }

    constructor ()
      ensures Valid() && pcbs == map[] && listeners == map[]
    {
      pcbs, listeners := map[], map[];
    }

    /** tcp_backlog_accepted */
    method Accepted(p: Id)
      requires Valid() && p in pcbs
      modifies this
      ensures Valid() && p in pcbs && (!pcbs[p].pend || pcbs[p].listener == Null)
      ensures pcbs == old(pcbs)[p := pcbs[p]] && pcbs[p] == old(pcbs)[p].(pend := pcbs[p].pend)
      ensures SameLimits(old(listeners), listeners) && (old(pcbs)[p].listener == Null ==> pcbs == old(pcbs))
      ensures forall l :: l in listeners ==>
        listeners[l] == old(listeners)[l].(pending := old(listeners)[l].pending - if p in Waiting(old(pcbs), l) then 1 else 0)
      ensures old(Bounded(listeners)) ==> Bounded(listeners)
    {
      if pcbs[p].pend && pcbs[p].listener != Null {
        var l := pcbs[p].listener.id;
        FlagKeeps(pcbs, listeners, p, false);
        listeners := listeners[l := listeners[l].(pending := listeners[l].pending - 1)];
        pcbs := pcbs[p := pcbs[p].(pend := false)];
      }
    }

    /** tcp_backlog_delayed; the source asserts that the u8_t counter does not wrap. */
    method Delayed(p: Id)
      requires Valid() && p in pcbs && !pcbs[p].state.TimeWait?
      requires Counts(pcbs[p], listeners) ==> listeners[pcbs[p].listener.id].pending != 255
      modifies this
      ensures Valid() && p in pcbs && (pcbs[p].pend || pcbs[p].listener == Null)
      ensures pcbs == old(pcbs)[p := pcbs[p]] && pcbs[p] == old(pcbs)[p].(pend := pcbs[p].pend)
      ensures SameLimits(old(listeners), listeners) && (old(pcbs)[p].listener == Null ==> pcbs == old(pcbs))
      ensures old(Bounded(listeners)) ==>
        (Bounded(listeners) <==> (Counts(old(pcbs)[p], old(listeners)) ==> HasRoom(old(pcbs)[p], old(listeners))))
    {
      if !pcbs[p].pend && pcbs[p].listener != Null {
        var l := pcbs[p].listener.id;
        assert l in listeners;
        FlagKeeps(pcbs, listeners, p, true);
        listeners := listeners[l := listeners[l].(pending := listeners[l].pending + 1)];
        pcbs := pcbs[p := pcbs[p].(pend := true)];
        assert listeners[l].backlog == old(listeners)[l].backlog;
      }
    }

    /** tcp_pcb_purge, as far as the backlog goes */
    method Purge(p: Id)
      requires Valid() && p in pcbs
      modifies this
      ensures Valid() && p in pcbs && (!pcbs[p].pend || pcbs[p].listener == Null)
      ensures pcbs == old(pcbs)[p := pcbs[p]] && pcbs[p] == old(pcbs)[p].(pend := pcbs[p].pend)
      ensures SameLimits(old(listeners), listeners) && (old(Bounded(listeners)) ==> Bounded(listeners))
    {
      if !pcbs[p].state.TimeWait? {
        Accepted(p);
      }
    }

    /** Every way in which a connection is freed: abort, reset, timeout, the last ACK, the end of TIME_WAIT. */
    method Free(p: Id)
      requires Valid() && p in pcbs
      modifies this
      ensures Valid() && pcbs == old(pcbs) - {p} && SameLimits(old(listeners), listeners)
      ensures old(Bounded(listeners)) ==> Bounded(listeners)
    {
      Purge(p);
      QuietKeeps(pcbs, listeners, p, Open);
      pcbs := pcbs - {p};
    }

    /** A connection enters TIME_WAIT: it is purged first. */
    method EnterTimeWait(p: Id)
      requires Valid() && p in pcbs
      modifies this
      ensures Valid() && p in pcbs && pcbs[p].state == TimeWait && pcbs[p].listener == old(pcbs)[p].listener
      ensures pcbs == old(pcbs)[p := pcbs[p]] && SameLimits(old(listeners), listeners)
      ensures old(Bounded(listeners)) ==> Bounded(listeners)
    {
      Purge(p);
      QuietKeeps(pcbs, listeners, p, TimeWait);
      pcbs := pcbs[p := pcbs[p].(state := TimeWait)];
    }

    /** tcp_close in SYN_RCVD, when the FIN could be queued */
    method CloseHalfOpen(p: Id)
      requires Valid() && p in pcbs && pcbs[p].state == SynRcvd
      modifies this
      ensures Valid() && p in pcbs && pcbs[p].state == Open && pcbs[p].listener == old(pcbs)[p].listener
      ensures pcbs == old(pcbs)[p := pcbs[p]] && SameLimits(old(listeners), listeners)
      ensures old(Bounded(listeners)) ==> Bounded(listeners)
    {
      Accepted(p);
      OnlyAt(old(pcbs), p, pcbs[p], pcbs[p].(state := Open));
      QuietKeeps(pcbs, listeners, p, Open);
      pcbs := pcbs[p := pcbs[p].(state := Open)];
    }

    /** The handshake is complete. `delay`: the accept callback calls tcp_backlog_delayed; `refuse`: it returns an error. */
    method Establish(p: Id, delay: bool, refuse: bool)
      requires Valid() && Bounded(listeners) && p in pcbs && pcbs[p].state == SynRcvd && pcbs[p].pend
      modifies this
      ensures Valid() && SameLimits(old(listeners), listeners)
      ensures old(pcbs)[p].listener == Null || refuse ==> pcbs == old(pcbs) - {p}
      ensures old(pcbs)[p].listener.To? && !refuse ==>
        pcbs == old(pcbs)[p := Pcb(Open, delay, old(pcbs)[p].listener)]
      ensures Bounded(listeners)
    {
      if pcbs[p].listener == Null {
        // the listener is closed by now
        Free(p);
        return;
      }
      OpenAccepted(p, pcbs[p].listener.id);
      if delay {
        Delayed(p);
      }
      if refuse {
        Free(p);
      }
    }

    /** The connection is established and stops waiting, so that there is room for one more. */
    method OpenAccepted(p: Id, ghost l: Id)
      requires Valid() && Bounded(listeners) && p in pcbs && pcbs[p] == Pcb(SynRcvd, true, To(l))
      modifies this
      ensures Valid() && SameLimits(old(listeners), listeners) && pcbs == old(pcbs)[p := Pcb(Open, false, To(l))]
      ensures Bounded(listeners) && l in listeners && listeners[l].pending < listeners[l].backlog
    {
      assert pcbs[p].listener == To(l) && l in listeners && p in Waiting(pcbs, l);
      assert listeners[l].pending <= listeners[l].backlog;
      Accepted(p);
      OnlyAt(old(pcbs), p, pcbs[p], pcbs[p].(state := Open));
      QuietKeeps(pcbs, listeners, p, Open);
      pcbs := pcbs[p := pcbs[p].(state := Open)];
    }

    /** tcp_listen_with_backlog at a fresh address */
    method Listen(l: Id, backlog: nat)
      requires Valid() && l !in listeners && 0 < backlog < 256
      modifies this`listeners
      ensures Valid() && listeners == old(listeners)[l := Listener(backlog, 0)] && (old(Bounded(listeners)) ==> Bounded(listeners))
    {
      NoneWaiting(pcbs, listeners, l, backlog);
      listeners := listeners[l := Listener(backlog, 0)];
    }

    /**
      tcp_listen_input for a SYN. `at` is the address of the new connection, or Null if
      there is no memory; `killed` are the connections that tcp_alloc aborts to make
      room; `queued`: the SYN|ACK could be queued.
     */
    method ListenInput(l: Id, at: Link, killed: seq<Id>, queued: bool)
      requires Valid() && l in listeners && (at.To? ==> at.id !in pcbs)
      modifies this
      ensures Valid() && SameLimits(old(listeners), listeners)
      ensures old(listeners)[l].pending >= old(listeners)[l].backlog ==> pcbs == old(pcbs) && listeners == old(listeners)
      ensures old(listeners)[l].pending < old(listeners)[l].backlog ==>
        pcbs == if at.To? && queued then Without(old(pcbs), killed)[at.id := Pcb(SynRcvd, true, To(l))]
                else Without(old(pcbs), killed)
      ensures old(Bounded(listeners)) ==> Bounded(listeners)
    {
      if listeners[l].pending >= listeners[l].backlog { return; }
      Kill(killed, l, at);
      if at == Null { return; }
      NewKeeps(pcbs, listeners, at.id, l);
      listeners := listeners[l := listeners[l].(pending := listeners[l].pending + 1)];
      pcbs := pcbs[at.id := Pcb(SynRcvd, true, To(l))];
      if !queued {
        Free(at.id);
      }
    }

    /** tcp_alloc aborts connections; that can only lower a counter. */
    method Kill(killed: seq<Id>, ghost l: Id, ghost at: Link)
      requires Valid() && l in listeners && listeners[l].pending < listeners[l].backlog && (at.To? ==> at.id !in pcbs)
      modifies this
      ensures Valid() && SameLimits(old(listeners), listeners) && (at.To? ==> at.id !in pcbs)
      ensures listeners[l].pending < listeners[l].backlog && pcbs == Without(old(pcbs), killed)
      ensures old(Bounded(listeners)) ==> Bounded(listeners)
    {
      var i := 0;
      while i < |killed|
        invariant 0 <= i <= |killed| && Without(pcbs, killed[i..]) == Without(old(pcbs), killed)
        invariant Valid() && SameLimits(old(listeners), listeners) && (at.To? ==> at.id !in pcbs)
        invariant listeners[l].pending < listeners[l].backlog && (old(Bounded(listeners)) ==> Bounded(listeners))
      {
        assert killed[i..][1..] == killed[i+1..];
        if killed[i] in pcbs {
          Abort(killed[i], l);
        } else {
          assert pcbs - {killed[i]} == pcbs;
        }
        i := i + 1;
      }
    }

    /** tcp_abort of one connection, seen by one listener. */
    method Abort(p: Id, ghost l: Id)
      requires Valid() && p in pcbs && l in listeners
      modifies this
      ensures Valid() && pcbs == old(pcbs) - {p} && SameLimits(old(listeners), listeners)
      ensures listeners[l].pending <= old(listeners)[l].pending && listeners[l].backlog == old(listeners)[l].backlog
      ensures old(Bounded(listeners)) ==> Bounded(listeners)
    {
      if !pcbs[p].state.TimeWait? {
        Accepted(p);
      }
      OnlyAt(old(pcbs), p, pcbs[p], pcbs[p]);
      QuietKeeps(pcbs, listeners, p, Open);
      pcbs := pcbs - {p};
    }

    /** tcp_listen_closed: connections forget a listener that is closed. */
    method CloseListener(l: Id)
      requires Valid() && l in listeners
      modifies this
      ensures Valid() && listeners == old(listeners) - {l} && (old(Bounded(listeners)) ==> Bounded(listeners))
      ensures pcbs == map p | p in old(pcbs) :: Forget(old(pcbs)[p], l)
    {
      ForgetKeeps(pcbs, listeners, l);
      pcbs := map p | p in pcbs :: Forget(pcbs[p], l);
      listeners := listeners - {l};
    }
  }

  /** tcp_backlog_delayed will count this connection. */
  predicate Counts(b: Pcb, ls: Listeners) {
    !b.pend && b.listener.To? && b.listener.id in ls
  }

  predicate HasRoom(b: Pcb, ls: Listeners)
    requires Counts(b, ls)
  {
    ls[b.listener.id].pending < ls[b.listener.id].backlog
  }

  function Without(pcbs: Pcbs, killed: seq<Id>): Pcbs {
    if killed == [] then pcbs else Without(pcbs - {killed[0]}, killed[1..])
  }

  function Forget(b: Pcb, l: Id): Pcb {
    if b.listener == To(l) then b.(listener := Null) else b
  }

  lemma NoneWaiting(pcbs: Pcbs, ls: Listeners, l: Id, b: nat)
    requires Inv(pcbs, ls) && l !in ls
    ensures Waiting(pcbs, l) == {} && Inv(pcbs, ls[l := Listener(b, 0)])
  {
    assert forall p :: p in pcbs ==> pcbs[p].listener != To(l);
    var ls' := ls[l := Listener(b, 0)];
    forall x | x in ls' ensures ls'[x].pending == |Waiting(pcbs, x)| {
      if x != l { assert ls[x].pending == |Waiting(pcbs, x)|; }
    }
  }

  lemma NewKeeps(pcbs: Pcbs, ls: Listeners, p: Id, l: Id)
    requires Inv(pcbs, ls) && p !in pcbs && l in ls
    ensures Inv(pcbs[p := Pcb(SynRcvd, true, To(l))], ls[l := ls[l].(pending := ls[l].pending + 1)])
  {
    var b := Pcb(SynRcvd, true, To(l));
    var ls' := ls[l := ls[l].(pending := ls[l].pending + 1)];
    forall x | x in ls' ensures ls'[x].pending == |Waiting(pcbs[p := b], x)| {
      WaitingChanges(pcbs, p, b, x);
      assert ls[x].pending == |Waiting(pcbs, x)|;
    }
  }

  lemma ForgetKeeps(pcbs: Pcbs, ls: Listeners, l: Id)
    requires Inv(pcbs, ls)
    ensures Inv(map p | p in pcbs :: Forget(pcbs[p], l), ls - {l})
  {
    var pcbs' := map p | p in pcbs :: Forget(pcbs[p], l);
    forall x | x in ls - {l} ensures (ls - {l})[x].pending == |Waiting(pcbs', x)| {
      assert Waiting(pcbs', x) == Waiting(pcbs, x);
      assert ls[x].pending == |Waiting(pcbs, x)|;
    }
  }
}
