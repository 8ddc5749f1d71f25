/**
  Reference counted pbuf chains that may share tails (pbuf.c). Memory maps the
  addresses of live pbufs to their fields; `ext` counts the references held
  outside of chains. Custom pbufs, types and payload alignment are left out.
 */
module PbufRefs {

  type Id = nat
  type Byte = bv8

  datatype Link = Null | To(id: Id)

  /** `data` is the payload, so `len` is its length. */
  datatype Pbuf = Pbuf(next: Link, ref: int, data: seq<Byte>, tot: int)

  type Mem = map<Id, Pbuf>

  // ---------------------------------------------------------------------------
  // Chains
  // ---------------------------------------------------------------------------

  /** `c` lists the pbufs from `c[0]` to the end of its chain. */
  predicate IsChain(m: Mem, c: seq<Id>) {
    && c != [] && c[0] in m
    && if |c| == 1 then m[c[0]].next == Null else m[c[0]].next == To(c[1]) && IsChain(m, c[1..])
  }

  predicate ChainFrom(m: Mem, x: Id, c: seq<Id>) {
    IsChain(m, c) && c[0] == x
  }

  /** The chain of `x` ends: there is no cycle behind it. */
  ghost predicate Ends(m: Mem, x: Id) {
    exists c :: ChainFrom(m, x, c)
  }

  ghost function ChainOf(m: Mem, x: Id): (c: seq<Id>)
    requires Ends(m, x)
    ensures ChainFrom(m, x, c)
  {
    var c :| ChainFrom(m, x, c); c
  }

  function Last(c: seq<Id>): Id
    requires c != []
  {
    c[|c|-1]
  }

  lemma {:induction false} ChainUnique(m: Mem, c: seq<Id>, d: seq<Id>)
    requires IsChain(m, c) && IsChain(m, d) && c[0] == d[0]
    ensures c == d
  {
    if |c| > 1 && |d| > 1 {
      ChainUnique(m, c[1..], d[1..]);
      assert c == [c[0]] + c[1..] && d == [d[0]] + d[1..];
    }
  }

  /** A later part of a chain is the chain of its first pbuf. */
  lemma {:induction false} ChainSuffix(m: Mem, c: seq<Id>, i: nat)
    requires IsChain(m, c) && i < |c|
    ensures IsChain(m, c[i..])
  {
    if i > 0 {
      ChainSuffix(m, c[1..], i - 1);
      assert c[1..][i-1..] == c[i..];
    }
  }

  lemma {:induction false} ChainStep(m: Mem, c: seq<Id>, i: nat)
    requires IsChain(m, c) && i < |c|
    ensures c[i] in m && m[c[i]].next == if i + 1 < |c| then To(c[i+1]) else Null
  {
    ChainSuffix(m, c, i);
    assert c[i..][0] == c[i];
    if i + 1 < |c| { assert c[i..][1] == c[i+1]; }
  }

  /** No pbuf occurs twice on a chain. */
  lemma ChainDistinct(m: Mem, c: seq<Id>, i: nat, j: nat)
    requires IsChain(m, c) && i < |c| && j < |c| && c[i] == c[j]
    ensures i == j
  {
    ChainSuffix(m, c, i);
    ChainSuffix(m, c, j);
    ChainUnique(m, c[i..], c[j..]);
  }

  lemma {:induction false} ChainFrame(m: Mem, m': Mem, c: seq<Id>)
    requires IsChain(m, c) && forall x :: x in c ==> x in m' && (x in m ==> m'[x].next == m[x].next)
    ensures IsChain(m', c)
  {
    if |c| > 1 { ChainFrame(m, m', c[1..]); }
  }

  lemma {:induction false} ChainAppend(m: Mem, m': Mem, c: seq<Id>, d: seq<Id>)
    requires IsChain(m, c) && IsChain(m', d)
    requires forall x :: x in c ==> x in m' && (x in m && x != Last(c) ==> m'[x].next == m[x].next)
    requires m'[Last(c)].next == To(d[0])
    ensures IsChain(m', c + d)
  {
    if |c| > 1 {
      if c[0] == Last(c) { ChainDistinct(m, c, 0, |c| - 1); }
      ChainAppend(m, m', c[1..], d);
      assert (c + d)[1..] == c[1..] + d;
    } else {
      assert (c + d)[1..] == d;
    }
  }

  /** Cutting the link behind `c[k]` leaves the first part of the chain. */
  lemma {:induction false} ChainCut(m: Mem, m': Mem, c: seq<Id>, k: nat)
    requires IsChain(m, c) && k < |c|
    requires forall x :: x in c ==> x in m' && (x in m && x != c[k] ==> m'[x].next == m[x].next)
    requires m'[c[k]].next == Null
    ensures IsChain(m', c[..k+1])
  {
    if k > 0 {
      if c[0] == c[k] { ChainDistinct(m, c, 0, k); }
      ChainCut(m, m', c[1..], k - 1);
      assert c[1..][..k] == c[..k+1][1..];
    }
  }

  // ---------------------------------------------------------------------------
  // Ownership
  // ---------------------------------------------------------------------------

  /** The pbufs whose `next` points to `x`. */
  function Preds(m: Mem, x: Id): set<Id> {
    set q | q in m && m[q].next == To(x)
  }

  /** Outside references point to live pbufs. */
  predicate Roots(m: Mem, ext: multiset<Id>) {
    forall x :: x in ext ==> x in m
  }

  /** Links point to live pbufs. */
  predicate Closed(m: Mem) {
    forall x {:trigger m[x].next} :: x in m ==> m[x].next == Null || m[x].next.id in m
  }

  ghost predicate AllEnd(m: Mem) {
    forall x {:trigger Ends(m, x)} :: x in m ==> Ends(m, x)
  }

  /** `ref` is the number of outside references plus the number of predecessors. */
  predicate Counted(m: Mem, ext: multiset<Id>, owed: Link) {
    forall x {:trigger m[x].ref} {:trigger Preds(m, x)} :: x in m ==> m[x].ref > 0 && m[x].ref == ext[x] + |Preds(m, x)| + if owed == To(x) then 1 else 0
  }

  /**
    Every reference is counted, and one more at a pbuf `owed` that somebody is
    about to free. No pbuf is unreferenced, nothing dangles, every chain ends.
   */
  ghost predicate Owed(m: Mem, ext: multiset<Id>, owed: Link) {
    Roots(m, ext) && Closed(m) && AllEnd(m) && Counted(m, ext, owed) && (owed.To? ==> owed.id in m)
  }

  ghost predicate Inv(m: Mem, ext: multiset<Id>) {
    Owed(m, ext, Null)
  }

  /** A way along links to the last pbuf of `c`. */
  predicate IsPath(m: Mem, c: seq<Id>) {
    && c != [] && Last(c) in m
    && (|c| > 1 ==>
          var d := c[..|c|-1];
          Last(d) in m && m[Last(d)].next == To(Last(c)) && IsPath(m, d))
  }

  predicate PathTo(m: Mem, ext: multiset<Id>, c: seq<Id>, x: Id) {
    IsPath(m, c) && c[0] in ext && Last(c) == x
  }

  ghost predicate Reachable(m: Mem, ext: multiset<Id>, x: Id) {
    exists c :: PathTo(m, ext, c, x)
  }

  /** The chain of a predecessor is longer by one. */
  lemma PredChain(m: Mem, q: Id, x: Id)
    requires Ends(m, x) && Ends(m, q) && q in m && m[q].next == To(x)
    ensures |ChainOf(m, q)| == |ChainOf(m, x)| + 1
  {
    var c := ChainOf(m, q);
    ChainUnique(m, c[1..], ChainOf(m, x));
  }

  lemma {:induction false} PathStep(m: Mem, ext: multiset<Id>, c: seq<Id>, q: Id, x: Id)
    requires PathTo(m, ext, c, q) && q in m && m[q].next == To(x) && x in m
    ensures PathTo(m, ext, c + [x], x)
  {
    assert (c + [x])[..|c|] == c;
  }

  /** There are no leaks: what is live can be reached. `n` bounds the lengths of chains. */
  lemma {:induction false} LiveIsReachable(m: Mem, ext: multiset<Id>, x: Id, n: nat)
    requires AllEnd(m) && Counted(m, ext, Null) && x in m
    requires forall y :: y in m ==> |ChainOf(m, y)| <= n
    ensures Reachable(m, ext, x)
    decreases n - |ChainOf(m, x)|
  {
    if x in ext {
      assert PathTo(m, ext, [x], x);
    } else {
      assert Preds(m, x) != {};
      var q :| q in Preds(m, x);
      PredChain(m, q, x);
      LiveIsReachable(m, ext, q, n);
      var c :| PathTo(m, ext, c, q);
      PathStep(m, ext, c, q, x);
    }
  }

  /** Chains are not longer than memory is large. */
  lemma {:induction false} ChainShort(m: Mem, c: seq<Id>, s: set<Id>)
    requires IsChain(m, c) && forall x :: x in c ==> x in s
    ensures |c| <= |s|
  {
    if |c| > 1 {
      if c[0] in c[1..] {
        var i :| 0 <= i < |c[1..]| && c[1..][i] == c[0];
        ChainDistinct(m, c, 0, i + 1);
      }
      ChainShort(m, c[1..], s - {c[0]});
    } else {
      assert c[0] in s;
    }
  }

  lemma {:induction false} ChainMembers(m: Mem, c: seq<Id>, x: Id)
    requires IsChain(m, c) && x in c
    ensures x in m
  {
    if c[0] != x { ChainMembers(m, c[1..], x); }
  }

  lemma ChainsBounded(m: Mem, x: Id)
    requires Ends(m, x)
    ensures |ChainOf(m, x)| <= |m.Keys|
  {
    var c := ChainOf(m, x);
    forall y | y in c ensures y in m.Keys { ChainMembers(m, c, y); }
    ChainShort(m, c, m.Keys);
  }

  /** What is closed under links and holds all outside references holds all that can be reached. */
  lemma {:induction false} ReachableStays(m: Mem, m': Mem, ext: multiset<Id>, c: seq<Id>)
    requires IsPath(m, c) && c[0] in ext && Roots(m', ext) && Closed(m')
    requires forall x :: x in m' ==> x in m && m'[x].next == m[x].next
    ensures Last(c) in m'
  {
    if |c| > 1 {
      ReachableStays(m, m', ext, c[..|c|-1]);
    }
  }

  lemma {:induction false} PathFrame(m: Mem, m': Mem, c: seq<Id>)
    requires IsPath(m', c) && forall x :: x in m' ==> x in m && m'[x].next == m[x].next
    ensures IsPath(m, c)
  {
    if |c| > 1 { PathFrame(m, m', c[..|c|-1]); }
  }

  /** `m'` holds some pbufs of `m`, with other reference counts. */
  predicate Part(m: Mem, m': Mem) {
    forall x {:trigger m'[x]} {:trigger m[x]} :: x in m' ==> x in m && m'[x] == m[x].(ref := m'[x].ref)
  }

  /** `m'` is `m` without the pbufs that can no longer be reached. */
  ghost predicate Released(m: Mem, ext: multiset<Id>, m': Mem) {
    && Inv(m', ext)
    && (forall x {:trigger Reachable(m, ext, x)} :: x in m' <==> x in m && Reachable(m, ext, x))
    && Part(m, m')
  }

  lemma ReleasedWhenClosed(m: Mem, ext: multiset<Id>, m': Mem)
    requires Inv(m', ext)
    requires Part(m, m')
    ensures Released(m, ext, m')
  {
    forall x | x in m' ensures Reachable(m, ext, x) {
      forall y | y in m' ensures |ChainOf(m', y)| <= |m'.Keys| { ChainsBounded(m', y); }
      LiveIsReachable(m', ext, x, |m'.Keys|);
      var c :| PathTo(m', ext, c, x);
      PathFrame(m, m', c);
      assert PathTo(m, ext, c, x);
    }
    forall x | x in m && Reachable(m, ext, x) ensures x in m' {
      var c :| PathTo(m, ext, c, x);
      ReachableStays(m, m', ext, c);
    }
  }

  /** Reference counts follow from the links, so the outcome of a release is unique. */
  lemma ReleasedUnique(m: Mem, ext: multiset<Id>, a: Mem, b: Mem)
    requires Released(m, ext, a) && Released(m, ext, b)
    ensures a == b
  {
    assert a.Keys == b.Keys by {
      forall x ensures x in a <==> x in b { var _ := Reachable(m, ext, x); assert x in a ==> a[x] == a[x]; }
    }
    SameCounts(ext, a, b);
  }

  lemma SameCounts(ext: multiset<Id>, a: Mem, b: Mem)
    requires Counted(a, ext, Null) && Counted(b, ext, Null) && a.Keys == b.Keys
    requires forall x :: x in a ==> a[x].(ref := 0) == b[x].(ref := 0)
    ensures a == b
  {
    forall x | x in a ensures a[x] == b[x] {
      assert Preds(a, x) == Preds(b, x);
      assert a[x].(ref := 0) == b[x].(ref := 0);
    }
  }

  // ---------------------------------------------------------------------------
  // Single steps on memory
  // ---------------------------------------------------------------------------

  /** Only `ref`, `data` and `tot` differ. */
  predicate SameLinks(m: Mem, m': Mem) {
    m'.Keys == m.Keys && forall x :: x in m ==> m'[x].next == m[x].next
  }

  lemma LinksDecide(m: Mem, m': Mem)
    requires SameLinks(m, m')
    ensures AllEnd(m) ==> AllEnd(m')
    ensures Closed(m) ==> Closed(m')
    ensures forall x :: Preds(m', x) == Preds(m, x)
  {
    if AllEnd(m) {
      forall x | x in m' ensures Ends(m', x) {
        var c := ChainOf(m, x);
        forall y | y in c ensures y in m' { ChainMembers(m, c, y); }
        ChainFrame(m, m', c);
        assert ChainFrom(m', x, c);
      }
    }
    forall x ensures Preds(m', x) == Preds(m, x) {}
  }

  /** Payload and total length do not matter to ownership. */
  lemma PayloadFree(m: Mem, m': Mem, ext: multiset<Id>, owed: Link)
    requires Owed(m, ext, owed) && SameLinks(m, m') && forall x :: x in m ==> m'[x].ref == m[x].ref
    ensures Owed(m', ext, owed)
  {
    LinksDecide(m, m');
  }

  lemma RefStep(m: Mem, ext: multiset<Id>, p: Id)
    requires Inv(m, ext) && p in m
    ensures Inv(m[p := m[p].(ref := m[p].ref + 1)], ext + multiset{p})
  {
    LinksDecide(m, m[p := m[p].(ref := m[p].ref + 1)]);
  }

  lemma DropStep(m: Mem, ext: multiset<Id>, p: Id)
    requires Owed(m, ext, To(p)) && m[p].ref > 1
    ensures Inv(m[p := m[p].(ref := m[p].ref - 1)], ext)
  {
    LinksDecide(m, m[p := m[p].(ref := m[p].ref - 1)]);
  }

  lemma RemovedPreds(m: Mem, p: Id, x: Id)
    requires p in m
    ensures |Preds(m - {p}, x)| == |Preds(m, x)| - if m[p].next == To(x) then 1 else 0
  {
    assert Preds(m - {p}, x) == Preds(m, x) - {p};
  }

  lemma {:induction false} UnlinkedNotOnChain(m: Mem, p: Id, c: seq<Id>)
    requires IsChain(m, c) && Preds(m, p) == {} && c[0] != p
    ensures p !in c
  {
    if |c| > 1 {
      assert c[0] !in Preds(m, p);
      UnlinkedNotOnChain(m, p, c[1..]);
      assert c == [c[0]] + c[1..];
    }
  }

  lemma RemovedEnds(m: Mem, p: Id)
    requires AllEnd(m) && Preds(m, p) == {}
    ensures AllEnd(m - {p})
  {
    var m' := m - {p};
    forall x | x in m' ensures Ends(m', x) {
      var c := ChainOf(m, x);
      UnlinkedNotOnChain(m, p, c);
      forall y | y in c ensures y in m' { ChainMembers(m, c, y); }
      ChainFrame(m, m', c);
      assert ChainFrom(m', x, c);
    }
  }

  /** The last reference to `p` goes: `p` goes, and with it one reference to its successor. */
  lemma FreeStep(m: Mem, ext: multiset<Id>, p: Id)
    requires Owed(m, ext, To(p)) && m[p].ref == 1
    ensures Owed(m - {p}, ext, m[p].next)
  {
    var m' := m - {p};
    assert Preds(m, p) == {};
    RemovedEnds(m, p);
    forall x | x in m' ensures m'[x].next == Null || m'[x].next.id in m' {
      assert m[x].next == To(p) ==> x in Preds(m, p);
    }
    forall x | x in m'
      ensures m'[x].ref > 0 && m'[x].ref == ext[x] + |Preds(m', x)| + if m[p].next == To(x) then 1 else 0
    {
      RemovedPreds(m, p, x);
    }
    assert m[p].next == To(p) ==> p in Preds(m, p);
  }

  /** `p` lets go of its successor, which then has one reference too many. */
  lemma CutStep(m: Mem, ext: multiset<Id>, p: Id)
    requires Inv(m, ext) && p in m && m[p].next.To?
    ensures Owed(m[p := m[p].(next := Null)], ext, m[p].next)
  {
    var m' := m[p := m[p].(next := Null)];
    CutEnds(m, p);
    CutCounts(m, ext, p);
    assert m[p].next.id in m;
  }

  lemma CutCounts(m: Mem, ext: multiset<Id>, p: Id)
    requires Counted(m, ext, Null) && p in m && m[p].next.To?
    ensures Counted(m[p := m[p].(next := Null)], ext, m[p].next)
  {
    var m' := m[p := m[p].(next := Null)];
    forall x | x in m'
      ensures m'[x].ref > 0 && m'[x].ref == ext[x] + |Preds(m', x)| + if m[p].next == To(x) then 1 else 0
    {
      assert Preds(m', x) == Preds(m, x) - {p};
    }
  }

  lemma CutEnds(m: Mem, p: Id)
    requires AllEnd(m) && p in m
    ensures AllEnd(m[p := m[p].(next := Null)])
  {
    var m' := m[p := m[p].(next := Null)];
    forall x | x in m' ensures Ends(m', x) {
      var c := ChainOf(m, x);
      forall y | y in c ensures y in m' { ChainMembers(m, c, y); }
      if p in c {
        var k :| 0 <= k < |c| && c[k] == p;
        ChainCut(m, m', c, k);
        assert ChainFrom(m', x, c[..k+1]);
      } else {
        ChainFrame(m, m', c);
        assert ChainFrom(m', x, c);
      }
    }
  }

  /** A new pbuf with one outside reference. */
  lemma NewStep(m: Mem, ext: multiset<Id>, p: Id, b: Pbuf)
    requires Inv(m, ext) && p !in m && b.next == Null && b.ref == 1
    ensures Inv(m[p := b], ext + multiset{p})
  {
    var m' := m[p := b];
    forall x | x in m' ensures Ends(m', x) {
      if x == p {
        assert ChainFrom(m', p, [p]);
      } else {
        var c := ChainOf(m, x);
        forall y | y in c ensures y in m { ChainMembers(m, c, y); }
        ChainFrame(m, m', c);
        assert ChainFrom(m', x, c);
      }
    }
    forall x | x in m' ensures m'[x].ref > 0 && m'[x].ref == (ext + multiset{p})[x] + |Preds(m', x)| {
      assert Preds(m', x) == Preds(m, x);
      if x == p {
        assert forall y :: y in m ==> m[y].next != To(p);
        assert ext[p] == 0;
      }
    }
  }

  /** The last pbuf of a chain takes over an outside reference to another chain. */
  lemma LinkStep(m: Mem, ext: multiset<Id>, l: Id, t: Id)
    requires Inv(m, ext) && l in m && m[l].next == Null && t in ext && l != Last(ChainOf(m, t))
    ensures Inv(m[l := m[l].(next := To(t))], ext - multiset{t})
  {
    var m' := m[l := m[l].(next := To(t))];
    LinkEnds(m, l, t);
    LinkCounts(m, ext, l, t);
  }

  lemma LinkCounts(m: Mem, ext: multiset<Id>, l: Id, t: Id)
    requires Counted(m, ext, Null) && l in m && m[l].next == Null && t in ext
    ensures Counted(m[l := m[l].(next := To(t))], ext - multiset{t}, Null)
  {
    var m' := m[l := m[l].(next := To(t))];
    forall x | x in m' ensures m'[x].ref > 0 && m'[x].ref == (ext - multiset{t})[x] + |Preds(m', x)| {
      LinkedPreds(m, l, t, x);
    }
  }

  lemma LinkedPreds(m: Mem, l: Id, t: Id, x: Id)
    requires l in m && m[l].next == Null
    ensures |Preds(m[l := m[l].(next := To(t))], x)| == |Preds(m, x)| + if x == t then 1 else 0
  {
    var m' := m[l := m[l].(next := To(t))];
    assert l !in Preds(m, x);
    assert Preds(m', x) == if x == t then Preds(m, x) + {l} else Preds(m, x);
  }

  lemma LinkEnds(m: Mem, l: Id, t: Id)
    requires AllEnd(m) && l in m && m[l].next == Null && t in m && l != Last(ChainOf(m, t))
    ensures AllEnd(m[l := m[l].(next := To(t))])
  {
    var m' := m[l := m[l].(next := To(t))];
    var d := ChainOf(m, t);
    forall x | x in m' ensures Ends(m', x) { LinkChain(m, l, d, ChainOf(m, x)); }
  }

  lemma OnlyLastIsNull(m: Mem, c: seq<Id>, l: Id)
    requires IsChain(m, c) && l in c && l in m && m[l].next == Null
    ensures l == Last(c)
  {
    var k :| 0 <= k < |c| && c[k] == l;
    ChainStep(m, c, k);
  }

  /** The chain of `c[0]` after the link was made. */
  lemma LinkChain(m: Mem, l: Id, d: seq<Id>, c: seq<Id>)
    requires IsChain(m, c) && IsChain(m, d) && l in m && m[l].next == Null && l != Last(d)
    ensures var m' := m[l := m[l].(next := To(d[0]))];
      ChainFrom(m', c[0], if Last(c) == l then c + d else c)
  {
    var m' := m[l := m[l].(next := To(d[0]))];
    forall y | y in c ensures y in m { ChainMembers(m, c, y); }
    forall y | y in d ensures y in m { ChainMembers(m, d, y); }
    if l in d { OnlyLastIsNull(m, d, l); }
    ChainFrame(m, m', d);
    if Last(c) == l {
      ChainAppend(m, m', c, d);
    } else {
      if l in c { OnlyLastIsNull(m, c, l); }
      ChainFrame(m, m', c);
    }
  }
}
