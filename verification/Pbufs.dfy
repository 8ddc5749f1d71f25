/**
  The operations of pbuf.c that allocate, link, cut and free chains, on memory
  that they change in place.
 */
module Pbufs {

  import opened PbufRefs

  /** The bytes of the pbufs in `c`. */
  function Bytes(m: Mem, c: seq<Id>): seq<Byte>
    requires forall x :: x in c ==> x in m
  {
    if c == [] then [] else m[c[0]].data + Bytes(m, c[1..])
  }

  lemma {:induction false} BytesSplit(m: Mem, a: seq<Id>, b: seq<Id>)
    requires forall x :: x in a + b ==> x in m
    requires (forall x :: x in a ==> x in m) && (forall x :: x in b ==> x in m)
    ensures Bytes(m, a + b) == Bytes(m, a) + Bytes(m, b)
  {
    if a == [] { assert a + b == b; } else {
      assert (a + b)[1..] == a[1..] + b;
      BytesSplit(m, a[1..], b);
    }
  }

  lemma {:induction false} BytesFrame(m: Mem, m': Mem, c: seq<Id>)
    requires forall x :: x in c ==> x in m && x in m' && m[x].data == m'[x].data
    ensures Bytes(m, c) == Bytes(m', c)
  {
    if c != [] { BytesFrame(m, m', c[1..]); }
  }

  ghost function Content(m: Mem, x: Id): seq<Byte>
    requires Ends(m, x)
  {
    ChainInMemory(m, ChainOf(m, x));
    Bytes(m, ChainOf(m, x))
  }

  lemma {:induction false} ChainInMemory(m: Mem, c: seq<Id>)
    requires IsChain(m, c)
    ensures forall x :: x in c ==> x in m
  {
    forall x | x in c ensures x in m { ChainMembers(m, c, x); }
  }

  /** `tot_len == len + next->tot_len` at `x`. */
  predicate TotAt(m: Mem, x: Id)
    requires x in m
  {
    m[x].next == Null || m[x].next.id in m ==>
      m[x].tot == |m[x].data| + if m[x].next == Null then 0 else m[m[x].next.id].tot
  }

  predicate TotOk(m: Mem) {
    forall x :: x in m ==> TotAt(m, x)
  }

  /** The relation makes tot_len the length of the content. */
  lemma {:induction false} TotIsLength(m: Mem, c: seq<Id>)
    requires TotOk(m) && IsChain(m, c) && forall x :: x in c ==> x in m
    ensures m[c[0]].tot == |Bytes(m, c)|
  {
    assert TotAt(m, c[0]);
    if |c| > 1 { TotIsLength(m, c[1..]); } else { assert c[1..] == []; }
  }

  /** What pbuf_cat makes of memory when `c` is the head chain. */
  function Joined(m: Mem, c: seq<Id>, t: Id): Mem
    requires c != [] && t in m
  {
    map x | x in m :: m[x].(tot := m[x].tot + (if x in c then m[t].tot else 0),
                            next := if x == Last(c) then To(t) else m[x].next)
  }

  /** Nobody outside `c` links into `c`. */
  predicate Unshared(m: Mem, c: seq<Id>) {
    forall y :: y in m && y !in c && m[y].next.To? ==> m[y].next.id !in c
  }

  /** The cast to u8_t. */
  function U8(n: nat): nat {
    if n < 256 then n else U8(n - 256)
  }

  lemma {:induction false} U8Next(n: nat)
    ensures U8(n) < 256 && U8(n + 1) == if U8(n) == 255 then 0 else U8(n) + 1
  {
    if n >= 256 { U8Next(n - 256); }
  }

  /** `count++` on a u8_t that stands for `n`. */
  method Increment(count: nat, ghost n: nat) returns (r: nat, ghost n': nat)
    requires count == U8(n)
    ensures n' == n + 1 && r == U8(n')
  {
    U8Next(n);
    n' := n + 1;
    r := if count == 255 then 0 else count + 1;
  }

  class Pool {
    var mem: Mem
    ghost var ext: multiset<Id>

    ghost predicate Valid()
      reads this
    {
      Inv(mem, ext)
    }

    constructor ()
      ensures Valid() && mem == map[] && ext == multiset{}
    {
      mem, ext := map[], multiset{};
    }

    /** One turn of pbuf_free: `p` loses a reference, and is deallocated if that was the last one. */
    method Drop(p: Id, ghost m0: Mem) returns (gone: bool, next: Link)
      requires Owed(mem, ext, To(p)) && Part(m0, mem)
      modifies this`mem
      ensures Owed(mem, ext, next) && Part(m0, mem)
      ensures if gone then |mem| == |old(mem)| - 1 else next == Null && |mem| == |old(mem)|
      ensures mem.Keys <= old(mem).Keys && (gone <==> p !in mem)
    {
      FreeTurn(m0, mem, ext, p);
      var b := mem[p];
      if b.ref - 1 == 0 {
        mem := mem - {p};
        gone, next := true, b.next;
      } else {
        mem := mem[p := b.(ref := b.ref - 1)];
        gone, next := false, Null;
      }
    }

    /** The loop of pbuf_free: `p0` has one reference too many. The u8_t counter wraps. */
    method Release(p0: Link) returns (count: nat, ghost freed: nat)
      requires Owed(mem, ext, p0)
      modifies this`mem
      ensures Released(old(mem), ext, mem)
      ensures count == U8(freed) && freed == |old(mem)| - |mem|
      ensures p0.To? ==> (freed == 0 <==> p0.id in mem)
    {
      ghost var m0 := mem;
      var p := p0;
      count, freed := 0, 0;
      while p != Null
        invariant Owed(mem, ext, p) && Part(m0, mem)
        invariant freed == |m0| - |mem| && count == U8(freed)
        invariant p0 == Null ==> freed == 0 && p == p0
        invariant p0.To? ==> if freed == 0 then p0.id in mem && (p == p0 || p == Null) else p0.id !in mem
        decreases p.To?, |mem|
      {
        var gone;
        gone, p := Drop(p.id, m0);
        if gone {
          count, freed := Increment(count, freed);
        }
      }
      ReleasedWhenClosed(m0, ext, mem);
    }

    /** pbuf_free: the caller gives up one of its references. */
    method Free(p: Link) returns (count: nat, ghost freed: nat)
      requires Valid() && (p.To? ==> p.id in ext)
      modifies this`mem, this`ext
      ensures Valid() && ext == if p.To? then old(ext) - multiset{p.id} else old(ext)
      ensures p == Null ==> mem == old(mem) && count == 0
      ensures p.To? ==> Released(old(mem), ext, mem) && count == U8(freed) && freed == |old(mem)| - |mem|
    {
      if p == Null { return 0, 0; }
      OweOne(mem, ext, p.id);
      ext := ext - multiset{p.id};
      count, freed := Release(p);
    }

    /** pbuf_ref: the books stay right exactly if the 16-bit counter does not wrap. */
    method Ref(p: Link)
      requires Valid() && (p.To? ==> p.id in mem)
      modifies this`mem, this`ext
      ensures p == Null ==> mem == old(mem) && ext == old(ext)
      ensures p.To? ==> ext == old(ext) + multiset{p.id} && mem == old(mem)[p.id := old(mem)[p.id].(ref := Inc16(old(mem)[p.id].ref))]
      ensures Valid() <==> p == Null || old(mem)[p.id].ref != 0xffff
    {
      if p.To? {
        RefStep(mem, ext, p.id);
        mem := mem[p.id := mem[p.id].(ref := Inc16(mem[p.id].ref))];
        ext := ext + multiset{p.id};
        assert mem[p.id].ref == 0 ==> !Counted(mem, ext, Null);
      }
    }

    /** pbuf_clen */
    method Clen(p0: Link) returns (len: nat)
      requires Valid() && (p0.To? ==> p0.id in mem)
      ensures len == if p0 == Null then 0 else |ChainOf(mem, p0.id)|
    {
      len := 0;
      if p0 == Null { return; }
      var p := p0;
      ghost var c := ChainOf(mem, p0.id);
      while p != Null
        invariant len <= |c| && p == if len < |c| then To(c[len]) else Null
        decreases |c| - len
      {
        ChainStep(mem, c, len);
        len := len + 1;
        p := mem[p.id].next;
      }
    }

    /** The walk of pbuf_cat: total lengths grow on the way to the last pbuf of `c`. */
    method Walk(h: Id, t: Id, ghost c: seq<Id>) returns (l: Id)
      requires ChainFrom(mem, h, c) && t in mem && t !in c
      modifies this`mem
      ensures l == Last(c) && mem == Raised(old(mem), c[..|c|-1], old(mem)[t].tot)
    {
      ghost var m0, i: nat, d := mem, 0, mem[t].tot;
      l := h;
      RaisedNone(m0, d);
      while mem[l].next != Null
        invariant i < |c| && l == c[i] && l in m0 && mem == Raised(m0, c[..i], d)
        decreases |c| - i
      {
        RaiseOne(m0, c, i, d, t);
        NextOnChain(m0, c, i);
        var next := mem[l].next;
        var tot := mem[l].tot + mem[t].tot;
        mem := mem[l := mem[l].(tot := tot)];
        l := next.id;
        i := i + 1;
      }
      ChainStep(m0, c, i);
    }

    /** pbuf_cat: `h` takes over the caller's reference to `t`. */
    method Cat(h: Link, t: Link)
      requires Valid() && (h.To? && t.To? ==> Joinable(mem, ext, h.id, t.id))
      modifies this`mem, this`ext
      ensures Valid()
      ensures h == Null || t == Null ==> mem == old(mem) && ext == old(ext)
      ensures h.To? && t.To? ==>
        mem == Joined(old(mem), ChainOf(old(mem), h.id), t.id) && ext == old(ext) - multiset{t.id}
    {
      if h == Null || t == Null { return; }
      JoinApart(mem, ext, h.id, t.id);
      JoinKeeps(mem, ext, h.id, t.id);
      Join(h.id, t.id, ChainOf(mem, h.id));
      ext := ext - multiset{t.id};
    }

    /** What pbuf_cat writes: the totals of the head chain, and the link at its end. */
    method Join(h: Id, t: Id, ghost c: seq<Id>)
      requires ChainFrom(mem, h, c) && t in mem && t !in c
      modifies this`mem
      ensures mem == Joined(old(mem), c, t)
    {
      JoinIs(mem, c, t);
      var l := Walk(h, t, c);
      mem := mem[l := mem[l].(tot := mem[l].tot + mem[t].tot, next := To(t))];
    }

    /** pbuf_chain: `h` gets a reference of its own to `t`. */
    method Chain(h: Id, t: Id)
      requires Valid() && Joinable(mem, ext, h, t)
      modifies this`mem, this`ext
      ensures ext == old(ext) && (t in old(mem) && old(mem)[t].ref != 0xffff ==> Valid())
      ensures var m1 := Joined(old(mem), ChainOf(old(mem), h), t);
        t in m1 && mem == m1[t := m1[t].(ref := Inc16(m1[t].ref))]
    {
      Cat(To(h), To(t));
      Ref(To(t));
    }

    /** pbuf_dechain; the u8_t count of the freed tail decides what is returned. */
    method Dechain(p: Id) returns (rest: Link, ghost freed: nat)
      requires Valid() && p in mem
      modifies this`mem
      ensures Valid()
      ensures old(mem)[p].next == Null ==> mem == old(mem) && rest == Null
      ensures old(mem)[p].next.To? ==> TailFreed(old(mem), p, ext, mem, freed)
      ensures old(mem)[p].next.To? && freed < 256 ==>
        rest == if old(mem)[p].next.id in mem then old(mem)[p].next else Null
    {
      rest := mem[p].next;
      if rest.To? {
        var gone;
        gone, freed := FreeTail(p);
        assert TailFreed(old(mem), p, ext, mem, freed);
        if gone > 0 { rest := Null; }
      } else {
        freed := 0;
      }
    }

    /** The tail of `p` is cut off and loses the reference that `p` had. */
    method FreeTail(p: Id) returns (gone: nat, ghost freed: nat)
      requires Valid() && p in mem && mem[p].next.To?
      modifies this`mem
      ensures Valid() && TailFreed(old(mem), p, ext, mem, freed) && (freed < 256 ==> gone == freed)
      ensures freed == 0 <==> old(mem)[p].next.id in mem
    {
      var q := mem[p].next;
      DechainOwes(mem, ext, p);
      Separate(p);
      gone, freed := Release(q);
    }

    /** Decouples `p` from its successor. */
    method Separate(p: Id)
      requires p in mem && mem[p].next.To? && mem[p].next.id in mem
      modifies this`mem
      ensures mem == Dechained(old(mem), p) && |mem| == |old(mem)|
    {
      SameSize(mem, Dechained(mem, p));
      var q := mem[p].next.id;
      mem := mem[q := mem[q].(tot := mem[p].tot - |mem[p].data|)];
      mem := mem[p := mem[p].(next := Null, tot := |mem[p].data|)];
    }

    /** The loop of pbuf_realloc: step over the pbufs that stay whole. */
    method SkipWhole(p: Id, newLen: nat, grow: int, ghost c: seq<Id>) returns (q: Id, rem: nat, ghost k: nat)
      requires ChainFrom(mem, p, c) && InMem(mem, c) && newLen <= |Bytes(mem, c)|
      modifies this`mem
      ensures StopsAt(old(mem), c, newLen, k, rem) && q == c[k]
      ensures mem == Raised(old(mem), c[..k], grow)
    {
      ghost var m0 := mem;
      q, rem, k := p, newLen, 0;
      RaisedNone(m0, grow);
      while rem > |mem[q].data|
        invariant k < |c| && q == c[k] && q in m0 && mem == Raised(m0, c[..k], grow)
        invariant k > 0 ==> rem > 0
        invariant newLen == |Bytes(m0, c[..k])| + rem && rem <= |Bytes(m0, c[k..])|
        decreases |c| - k
      {
        SkipOne(m0, c, k, rem);
        rem := rem - |mem[q].data|;
        q := AddTot(q, grow, m0, c, k);
        k := k + 1;
      }
    }

    /** The total length of a pbuf that stays whole is corrected. */
    method AddTot(q: Id, grow: int, ghost m0: Mem, ghost c: seq<Id>, ghost k: nat) returns (next: Id)
      requires IsChain(m0, c) && k + 1 < |c| && q == c[k] && q in m0 && m0[q].next == To(c[k+1])
      requires mem == Raised(m0, c[..k], grow)
      modifies this`mem
      ensures mem == Raised(m0, c[..k+1], grow) && next == c[k+1]
    {
      NotBefore(m0, c, k);
      RaiseNext(m0, c, k, grow);
      next := mem[q].next.id;
      mem := mem[q := mem[q].(tot := mem[q].tot + grow)];
    }

    /** The part of pbuf_realloc that writes: lengths along the chain, and the end at the new last pbuf. */
    method Truncate(p: Id, newLen: nat, ghost c: seq<Id>) returns (rest: Link, ghost k: nat, ghost rem: nat)
      requires ChainFrom(mem, p, c) && InMem(mem, c) && newLen <= |Bytes(mem, c)|
      modifies this`mem
      ensures StopsAt(old(mem), c, newLen, k, rem) && rest == old(mem)[c[k]].next
      ensures mem == Truncated(old(mem), c, k, rem, newLen - old(mem)[p].tot)
    {
      ghost var m0 := mem;
      var grow := newLen - mem[p].tot;
      var q, left;
      q, left, k := SkipWhole(p, newLen, grow, c);
      rem := left;
      TruncateWrites(m0, c, k, left, grow);
      rest := mem[q].next;
      mem := mem[q := mem[q].(data := mem[q].data[..left], tot := left, next := Null)];
    }

    /** pbuf_realloc */
    method Realloc(p: Id, newLen: nat) returns (ghost k: nat, ghost rem: nat)
      requires Valid() && p in mem && mem[p].tot == |Content(mem, p)|
      modifies this`mem
      ensures Valid()
      ensures newLen >= old(mem)[p].tot ==> mem == old(mem)
      ensures newLen < old(mem)[p].tot ==> Shrunk(old(mem), ext, p, newLen, k, rem, mem)
    {
      k, rem := 0, 0;
      if newLen < mem[p].tot {
        ghost var m0, c := mem, ChainOf(mem, p);
        ChainInMemory(mem, c);
        var rest;
        rest, k, rem := Truncate(p, newLen, c);
        TruncateOwes(m0, ext, c, k, rem, newLen - m0[p].tot);
        var gone; ghost var freed;
        gone, freed := Release(rest);
      }
    }

    /** pbuf_alloc for PBUF_RAM, PBUF_ROM and PBUF_REF; `at` is the address of the new pbuf, or Null. */
    method AllocOne(at: Link, length: nat) returns (p: Link)
      requires Valid() && (at.To? ==> at.id !in mem)
      modifies this`mem, this`ext
      ensures Valid() && p == at
      ensures at == Null ==> mem == old(mem) && ext == old(ext)
      ensures at.To? ==> mem == old(mem)[at.id := NewPbuf(length, length)] && ext == old(ext) + multiset{at.id}
    {
      p := at;
      if p == Null { return; }
      NewStep(mem, ext, p.id, NewPbuf(length, length));
      mem := mem[p.id := NewPbuf(length, length)];
      ext := ext + multiset{p.id};
    }

    /** One more pool pbuf at the end of the chain. */
    method Grow(ids: seq<Id>, i: nat, length: nat, rem: nat, left: nat, ghost m0: Mem, ghost r: Rooms)
      requires Valid() && 1 <= i < |ids| && FreshIds(m0, ids) && NewChain(m0, mem, ids[..i], length, rem, r)
      requires left <= rem <= left + r.size
      modifies this`mem
      ensures Valid() && NewChain(m0, mem, ids[..i+1], length, left, r)
    {
      mem := Append(mem, ids, i, length, rem, left, m0, r, ext);
    }

    /**
      pbuf_alloc for PBUF_POOL. `ids` are the pbufs left in the pool, `first` the room
      in the first pbuf behind the headers, `size` that in the others.
     */
    method AllocPool(ids: seq<Id>, length: nat, first: nat, size: nat) returns (p: Link)
      requires Valid() && 0 < first && 0 < size && FreshIds(mem, ids)
      modifies this`mem, this`ext
      ensures Valid()
      ensures p == Null <==> |ids| < Need(length, first, size)
      ensures p == Null ==> mem == old(mem) && ext == old(ext)
      ensures p.To? ==>
        && ext == old(ext) + multiset{p.id}
        && p.id == ids[0] && NewChain(old(mem), mem, ids[..Need(length, first, size)], length, 0, Rooms(first, size))
    {
      p := Null;
      if |ids| > 0 {
        ghost var m0, ext0 := mem, ext;
        var len := First(ids, length, first, Rooms(first, size));
        NeedIs(length, first, size, len);
        p := Rest(ids, length, length - len, size, m0, ext0, Rooms(first, size));
      }
    }

    /** The other pbufs; if the pool is too small, the chain allocated so far is freed. */
    method Rest(ids: seq<Id>, length: nat, rem: nat, size: nat, ghost m0: Mem, ghost ext0: multiset<Id>, ghost r: Rooms)
        returns (p: Link)
      requires Valid() && 0 < size == r.size && ids != [] && FreshIds(m0, ids) && NewChain(m0, mem, ids[..1], length, rem, r)
      requires Inv(m0, ext0) && ext == ext0 + multiset{ids[0]}
      modifies this`mem, this`ext
      ensures Valid()
      ensures p == if 1 + Pieces(rem, size) <= |ids| then To(ids[0]) else Null
      ensures p == Null ==> mem == m0 && ext == ext0
      ensures p.To? ==> ext == ext0 + multiset{ids[0]} && NewChain(m0, mem, ids[..1 + Pieces(rem, size)], length, 0, r)
    {
      var ok := Extend(ids, length, rem, size, m0, r);
      p := if ok then To(ids[0]) else Null;
      if !ok {
        Undo(m0, ext0, ids[0]);
      }
    }

    /** The head of the chain. */
    method First(ids: seq<Id>, length: nat, first: nat, ghost r: Rooms) returns (len: nat)
      requires Valid() && ids != [] && ids[0] !in mem && r.first == first
      modifies this`mem, this`ext
      ensures Valid() && ext == old(ext) + multiset{ids[0]} && len == (if length < first then length else first)
      ensures NewChain(old(mem), mem, ids[..1], length, length - len, r)
    {
      len := if length < first then length else first;
      NewStep(mem, ext, ids[0], NewPbuf(len, length));
      FirstBuilt(mem, ids, len, length, r);
      mem := mem[ids[0] := NewPbuf(len, length)];
      ext := ext + multiset{ids[0]};
    }

    /** The loop of pbuf_alloc: pbufs for the remaining bytes, as long as the pool lasts. */
    method Extend(ids: seq<Id>, length: nat, rem0: nat, size: nat, ghost m0: Mem, ghost r: Rooms) returns (ok: bool)
      requires Valid() && 0 < size == r.size && ids != [] && FreshIds(m0, ids) && NewChain(m0, mem, ids[..1], length, rem0, r)
      modifies this`mem
      ensures Valid() && Part(mem, m0)
      ensures ok == (1 + Pieces(rem0, size) <= |ids|)
      ensures ok ==> NewChain(m0, mem, ids[..1 + Pieces(rem0, size)], length, 0, r)
    {
      var i, rem := 1, rem0;
      while rem > 0 && i < |ids|
        invariant 0 <= rem && 1 <= i <= |ids| && NewChain(m0, mem, ids[..i], length, rem, r)
        invariant Valid() && 1 + Pieces(rem0, size) == i + Pieces(rem, size)
        decreases rem
      {
        var left := Piece(rem, size);
        Grow(ids, i, length, rem, left, m0, r);
        i, rem := i + 1, left;
      }
      ok := rem == 0;
      OldPart(m0, mem, ids[..i], length, rem, r);
    }

    /** The chain built so far is freed again, and nothing is left of it. */
    method Undo(ghost m0: Mem, ghost ext0: multiset<Id>, p: Id)
      requires Valid() && Inv(m0, ext0) && ext == ext0 + multiset{p} && Part(mem, m0)
      modifies this`mem, this`ext
      ensures Valid() && mem == m0 && ext == ext0
    {
      ghost var m1 := mem;
      ReleasedWhenClosed(m1, ext0, m0);
      var gone; ghost var freed;
      gone, freed := Free(To(p));
      assert ext == ext0;
      ReleasedUnique(m1, ext0, m0, mem);
    }
  }

  /** The room in the first pbuf of a chain, and in the others. */
  datatype Rooms = Rooms(first: nat, size: nat)

  /** Total lengths along `c` when `rem` bytes are still to come; no pbuf is longer than its room. */
  predicate TotsAlong(m: Mem, c: seq<Id>, rem: int, room: nat, size: nat) {
    c != [] ==>
      && InMem(m, c) && m[c[0]].tot == |Bytes(m, c)| + rem
      && |m[c[0]].data| <= room && TotsAlong(m, c[1..], rem, size, size)
  }

  function Members(c: seq<Id>): set<Id> {
    set x | x in c
  }

  /** `m` is `m0` with a new chain `c` for all but `rem` of `length` bytes. */
  ghost predicate NewChain(m0: Mem, m: Mem, c: seq<Id>, length: nat, rem: nat, r: Rooms) {
    && IsChain(m, c) && TotsAlong(m, c, rem, r.first, r.size) && m[c[0]].tot == length
    && m.Keys == m0.Keys + Members(c) && (forall x {:trigger m0[x]} :: x in m0 ==> m[x] == m0[x])
  }

  lemma {:induction false} OldPart(m0: Mem, m: Mem, c: seq<Id>, length: nat, rem: nat, r: Rooms)
    requires NewChain(m0, m, c, length, rem, r)
    ensures Part(m, m0)
  {
  }

  lemma {:induction false} FirstBuilt(m0: Mem, ids: seq<Id>, len: nat, length: nat, r: Rooms)
    requires ids != [] && ids[0] !in m0 && len <= length && len <= r.first
    ensures NewChain(m0, m0[ids[0] := NewPbuf(len, length)], ids[..1], length, length - len, r)
  {
    var c, m := ids[..1], m0[ids[0] := NewPbuf(len, length)];
    assert c == [ids[0]] && c[1..] == [];
    assert Bytes(m, c) == m[ids[0]].data + Bytes(m, c[1..]);
    assert IsChain(m, c) && InMem(m, c) && TotsAlong(m, c[1..], length - len, r.size, r.size);
    assert |Bytes(m, c)| == len;
    assert TotsAlong(m, c, length - len, r.first, r.size);
  }

  lemma {:induction false} TotsAppend(m: Mem, m': Mem, c: seq<Id>, q: Id, rem: int, n: nat, room: nat, size: nat)
    requires n <= size && (c == [] ==> n <= room)
    requires TotsAlong(m, c, rem, room, size) && InMem(m', c) && q in m' && |m'[q].data| == n && m'[q].tot == rem
    requires forall x :: x in c ==> x in m && m'[x].data == m[x].data && m'[x].tot == m[x].tot
    ensures TotsAlong(m', c + [q], rem - n, room, size)
  {
    var d := c + [q];
    assert Bytes(m', [q]) == m'[q].data + Bytes(m', []);
    if c == [] {
      assert d == [q] && d[1..] == [];
    } else {
      TotsAppend(m, m', c[1..], q, rem, n, size, size);
      assert d[1..] == c[1..] + [q];
      BytesSplit(m', c, [q]);
      BytesFrame(m, m', c);
    }
  }

  lemma {:induction false} NextChain(m: Mem, c: seq<Id>, q: Id, b: Pbuf)
    requires IsChain(m, c) && InMem(m, c) && q !in m && b.next == Null
    ensures IsChain(Appended(m, Last(c), q, b), c + [q])
  {
    var m' := Appended(m, Last(c), q, b);
    assert Last(c) in c;
    assert IsChain(m', [q]);
    ChainAppend(m, m', c, [q]);
  }

  lemma {:induction false} NextBuilt(m0: Mem, m: Mem, ids: seq<Id>, i: nat, length: nat, rem: nat, left: nat, r: Rooms)
    requires FreshIds(m0, ids) && 1 <= i < |ids| && NewChain(m0, m, ids[..i], length, rem, r)
    requires left <= rem <= left + r.size
    ensures ids[i] !in m && ids[i-1] in m && m[ids[i-1]].next == Null
    ensures NewChain(m0, Appended(m, ids[i-1], ids[i], NewPbuf(rem - left, rem)), ids[..i+1], length, left, r)
  {
    FreshEnd(m0, ids, i);
    ChainStep(m, ids[..i], i - 1);
    NextBuiltOn(m0, m, ids[..i], ids[i], length, rem, rem - left, r);
  }

  lemma {:induction false} FreshEnd(m0: Mem, ids: seq<Id>, i: nat)
    requires FreshIds(m0, ids) && 1 <= i < |ids|
    ensures ids[..i+1] == ids[..i] + [ids[i]] && Last(ids[..i]) == ids[i-1]
    ensures ids[i] !in ids[..i] && ids[i] !in m0 && ids[i-1] !in m0
  {
    FreshAt(m0, ids, i);
    FreshAt(m0, ids, i - 1);
  }

  lemma {:induction false} NextBuiltOn(m0: Mem, m: Mem, c: seq<Id>, q: Id, length: nat, rem: nat, n: nat, r: Rooms)
    requires NewChain(m0, m, c, length, rem, r) && n <= rem && n <= r.size && q !in m0 && q !in c && Last(c) !in m0
    ensures Last(c) in m && NewChain(m0, Appended(m, Last(c), q, NewPbuf(n, rem)), c + [q], length, rem - n, r)
  {
    ChainInMemory(m, c);
    assert Last(c) in c;
    var m' := Appended(m, Last(c), q, NewPbuf(n, rem));
    NextChain(m, c, q, NewPbuf(n, rem));
    TotsAppend(m, m', c, q, rem, n, r.first, r.size);
    assert (c + [q])[0] == c[0];
  }

  /** A pbuf fresh from pbuf_alloc; the payload is not initialised, here zero. */
  function NewPbuf(len: nat, tot: int): Pbuf {
    Pbuf(Null, 1, seq(len, _ => 0), tot)
  }

  function Appended(m: Mem, r: Id, q: Id, b: Pbuf): Mem
    requires r in m
  {
    m[q := b][r := m[r].(next := To(q))]
  }

  /** A new pbuf for `rem - left` bytes, and the link to it from its predecessor. */
  method Append(m: Mem, ids: seq<Id>, i: nat, length: nat, rem: nat, left: nat, ghost m0: Mem, ghost r: Rooms, ghost ext: multiset<Id>)
      returns (m': Mem)
    requires Inv(m, ext) && 1 <= i < |ids| && FreshIds(m0, ids) && NewChain(m0, m, ids[..i], length, rem, r)
    requires left <= rem <= left + r.size
    ensures Inv(m', ext) && NewChain(m0, m', ids[..i+1], length, left, r)
  {
    NextBuilt(m0, m, ids, i, length, rem, left, r);
    AppendStep(m, ext, ids[i-1], ids[i], NewPbuf(rem - left, rem));
    m' := Linked(m, ids[i-1], ids[i], NewPbuf(rem - left, rem));
  }

  /** The two writes: the new pbuf, then the link from its predecessor. */
  method Linked(m: Mem, r: Id, q: Id, b: Pbuf) returns (m': Mem)
    requires r in m && r != q
    ensures m' == Appended(m, r, q, b)
  {
    m' := m[q := b];
    m' := m'[r := m'[r].(next := To(q))];
  }

  /** Different addresses that are not in use. */
  predicate FreshIds(m: Mem, ids: seq<Id>) {
    ids != [] ==> ids[0] !in m && ids[0] !in ids[1..] && FreshIds(m, ids[1..])
  }

  lemma {:induction false} FreshAt(m: Mem, ids: seq<Id>, i: nat)
    requires FreshIds(m, ids) && i < |ids|
    ensures ids[i] !in m && ids[i] !in ids[..i]
  {
    if i > 0 {
      FreshAt(m, ids[1..], i - 1);
      assert ids[..i] == [ids[0]] + ids[1..][..i-1];
      assert ids[i] in ids[1..];
    }
  }

  /** How many pool pbufs `rem` bytes take. */
  function Pieces(rem: nat, size: nat): nat
    requires size > 0
  {
    if rem == 0 then 0 else if rem <= size then 1 else 1 + Pieces(rem - size, size)
  }

  /** What remains after the next pool pbuf. */
  method Piece(rem: int, size: nat) returns (left: nat)
    requires rem > 0 && size > 0
    ensures left < rem <= left + size && Pieces(rem, size) == 1 + Pieces(left, size)
  {
    left := if rem < size then 0 else rem - size;
  }

  function Need(length: nat, first: nat, size: nat): nat
    requires size > 0
  {
    1 + if length <= first then 0 else Pieces(length - first, size)
  }

  lemma {:induction false} NeedIs(length: nat, first: nat, size: nat, len: nat)
    requires size > 0 && len == if length < first then length else first
    ensures Need(length, first, size) == 1 + Pieces(length - len, size)
  {
  }

  lemma {:induction false} AppendStep(m: Mem, ext: multiset<Id>, r: Id, q: Id, b: Pbuf)
    requires Inv(m, ext) && r in m && m[r].next == Null && q !in m && b.next == Null && b.ref == 1
    ensures Inv(Appended(m, r, q, b), ext)
  {
    var m1 := m[q := b];
    NewStep(m, ext, q, b);
    assert ChainFrom(m1, q, [q]);
    ChainUnique(m1, [q], ChainOf(m1, q));
    LinkStep(m1, ext + multiset{q}, r, q);
    assert ext + multiset{q} - multiset{q} == ext;
  }

  /** pbuf_realloc: truncated in pbuf `k`, and the unreachable rest is gone. */
  ghost predicate Shrunk(m: Mem, ext: multiset<Id>, p: Id, newLen: nat, k: nat, rem: nat, m': Mem) {
    && p in m && Ends(m, p) && InMem(m, ChainOf(m, p)) && StopsAt(m, ChainOf(m, p), newLen, k, rem)
    && Released(Truncated(m, ChainOf(m, p), k, rem, newLen - m[p].tot), ext, m')
  }

  predicate InMem(m: Mem, c: seq<Id>) {
    forall x :: x in c ==> x in m
  }

  /** A prefix of `n` bytes ends in pbuf `k`, of which it takes `rem` bytes; earlier pbufs are needed whole. */
  predicate StopsAt(m: Mem, c: seq<Id>, n: nat, k: nat, rem: nat)
    requires InMem(m, c)
  {
    && k < |c| && rem <= |m[c[k]].data| && n == |Bytes(m, c[..k])| + rem
    && (k > 0 ==> rem > 0)
  }

  /** What pbuf_realloc writes before it frees the rest of the chain. */
  function Truncated(m: Mem, c: seq<Id>, k: nat, rem: nat, grow: int): Mem
    requires InMem(m, c) && k < |c| && rem <= |m[c[k]].data|
  {
    var m1 := Raised(m, c[..k], grow);
    m1[c[k] := m[c[k]].(data := m[c[k]].data[..rem], tot := rem, next := Null)]
  }

  lemma {:induction false} PrefixGrows(m: Mem, c: seq<Id>, k: nat)
    requires InMem(m, c) && k < |c|
    ensures |Bytes(m, c[..k+1])| == |Bytes(m, c[..k])| + |m[c[k]].data|
    ensures |Bytes(m, c[k..])| == |m[c[k]].data| + |Bytes(m, c[k+1..])|
  {
    assert c[k..][1..] == c[k+1..];
    assert c[..k+1] == c[..k] + [c[k]];
    assert Bytes(m, [c[k]]) == m[c[k]].data + Bytes(m, []);
    BytesSplit(m, c[..k], [c[k]]);
  }

  /** One turn of the loop, which does not run off the chain. */
  lemma {:induction false} SkipOne(m: Mem, c: seq<Id>, k: nat, rem: nat)
    requires IsChain(m, c) && InMem(m, c) && k < |c| && |m[c[k]].data| < rem <= |Bytes(m, c[k..])|
    ensures k + 1 < |c| && m[c[k]].next == To(c[k+1])
    ensures |Bytes(m, c[..k+1])| == |Bytes(m, c[..k])| + |m[c[k]].data|
    ensures |Bytes(m, c[k..])| == |m[c[k]].data| + |Bytes(m, c[k+1..])|
  {
    ChainStep(m, c, k);
    PrefixGrows(m, c, k);
  }

  lemma {:induction false} RaiseNext(m: Mem, c: seq<Id>, k: nat, d: int)
    requires k < |c| && c[k] in m && c[k] !in c[..k]
    ensures var m1 := Raised(m, c[..k], d);
      m1[c[k] := m1[c[k]].(tot := m1[c[k]].tot + d)] == Raised(m, c[..k+1], d)
  {
    RaiseMore(m, c[..k], c[k], d);
    assert c[..k+1] == c[..k] + [c[k]];
  }

  lemma {:induction false} TruncateWrites(m: Mem, c: seq<Id>, k: nat, rem: nat, grow: int)
    requires IsChain(m, c) && InMem(m, c) && k < |c| && rem <= |m[c[k]].data|
    ensures Raised(m, c[..k], grow)[c[k]] == m[c[k]]
  {
    NotBefore(m, c, k);
  }

  lemma {:induction false} TruncateLinks(m: Mem, c: seq<Id>, k: nat, rem: nat, grow: int)
    requires InMem(m, c) && k < |c| && rem <= |m[c[k]].data|
    ensures var m1, m' := m[c[k] := m[c[k]].(next := Null)], Truncated(m, c, k, rem, grow);
      SameLinks(m1, m') && forall x :: x in m1 ==> m'[x].ref == m1[x].ref
  {
  }

  lemma {:induction false} TruncateOwes(m: Mem, ext: multiset<Id>, c: seq<Id>, k: nat, rem: nat, grow: int)
    requires Inv(m, ext) && InMem(m, c) && k < |c| && rem <= |m[c[k]].data|
    ensures Owed(Truncated(m, c, k, rem, grow), ext, m[c[k]].next)
  {
    var x := c[k];
    var m1 := m[x := m[x].(next := Null)];
    if m[x].next.To? {
      CutStep(m, ext, x);
    } else {
      assert m1 == m;
    }
    TruncateLinks(m, c, k, rem, grow);
    PayloadFree(m1, Truncated(m, c, k, rem, grow), ext, m[x].next);
  }

  /** Along the way from a live root nothing is lost. */
  lemma {:induction false} ChainSurvives(m: Mem, m': Mem, c: seq<Id>)
    requires IsChain(m, c) && Part(m, m') && Closed(m') && c[0] in m'
    ensures IsChain(m', c)
  {
    if |c| > 1 {
      assert m'[c[0]].next == m[c[0]].next;
      ChainSurvives(m, m', c[1..]);
    }
  }

  lemma {:induction false} TruncatedBytes(m: Mem, c: seq<Id>, k: nat, rem: nat, grow: int)
    requires IsChain(m, c) && InMem(m, c) && k < |c| && rem <= |m[c[k]].data|
    ensures var m1 := Truncated(m, c, k, rem, grow);
      && IsChain(m1, c[..k+1]) && InMem(m1, c[..k+1])
      && Bytes(m1, c[..k+1]) == Bytes(m, c[..k]) + m[c[k]].data[..rem]
  {
    var m1 := Truncated(m, c, k, rem, grow);
    NotBefore(m, c, k);
    ChainCut(m, m1, c, k);
    var a, x := c[..k], c[k];
    assert c[..k+1] == a + [x];
    BytesSplit(m1, a, [x]);
    BytesFrame(m, m1, a);
    assert Bytes(m1, [x]) == m1[x].data + Bytes(m1, []);
  }

  lemma {:induction false} ShrunkChain(m1: Mem, m': Mem, p: Id, d: seq<Id>)
    requires ChainFrom(m1, p, d) && InMem(m1, d) && Part(m1, m') && Closed(m') && p in m'
    ensures ChainFrom(m', p, d) && InMem(m', d) && Bytes(m', d) == Bytes(m1, d)
  {
    ChainSurvives(m1, m', d);
    ChainInMemory(m', d);
    BytesFrame(m1, m', d);
  }

  lemma {:induction false} ShrunkBytes(m: Mem, p: Id, c: seq<Id>, k: nat, rem: nat, grow: int, m': Mem)
    requires ChainFrom(m, p, c) && InMem(m, c) && k < |c| && rem <= |m[c[k]].data|
    requires Part(Truncated(m, c, k, rem, grow), m') && Closed(m') && p in m'
    ensures ChainFrom(m', p, c[..k+1]) && InMem(m', c[..k+1])
    ensures Bytes(m', c[..k+1]) == Bytes(m, c[..k]) + m[c[k]].data[..rem]
  {
    TruncatedBytes(m, c, k, rem, grow);
    ShrunkChain(Truncated(m, c, k, rem, grow), m', p, c[..k+1]);
  }

  lemma {:induction false} ShrunkPrefix(m: Mem, ext: multiset<Id>, p: Id, newLen: nat, k: nat, rem: nat, m': Mem)
    requires Shrunk(m, ext, p, newLen, k, rem, m') && p in m'
    ensures Ends(m', p) && newLen <= |Content(m, p)| && Content(m', p) == Content(m, p)[..newLen]
  {
    var c := ChainOf(m, p);
    ShrunkBytes(m, p, c, k, rem, newLen - m[p].tot, m');
    ChainUnique(m', c[..k+1], ChainOf(m', p));
    PrefixFits(m, c, k, rem);
  }

  /** pbuf_realloc keeps exactly the first `newLen` bytes. */
  lemma {:induction false} ShrunkContent(m: Mem, ext: multiset<Id>, p: Id, newLen: nat, k: nat, rem: nat, m': Mem)
    requires Inv(m, ext) && Shrunk(m, ext, p, newLen, k, rem, m')
    ensures p in m' && Ends(m', p) && newLen <= |Content(m, p)| && Content(m', p) == Content(m, p)[..newLen]
  {
    HeadSurvives(m, ext, p, newLen, k, rem, m');
    ShrunkPrefix(m, ext, p, newLen, k, rem, m');
  }

  lemma {:induction false} PrefixFits(m: Mem, c: seq<Id>, k: nat, rem: nat)
    requires InMem(m, c) && k < |c| && rem <= |m[c[k]].data|
    ensures |Bytes(m, c[..k])| + rem <= |Bytes(m, c)|
    ensures Bytes(m, c)[..|Bytes(m, c[..k])| + rem] == Bytes(m, c[..k]) + m[c[k]].data[..rem]
  {
    assert c == c[..k] + c[k..];
    BytesSplit(m, c[..k], c[k..]);
    assert Bytes(m, c[k..]) == m[c[k]].data + Bytes(m, c[k..][1..]);
  }

  /** The new last pbuf, too, loses what the packet loses. */
  lemma {:induction false} LastTot(m: Mem, c: seq<Id>, newLen: nat, k: nat, rem: nat)
    requires TotOk(m) && IsChain(m, c) && InMem(m, c) && StopsAt(m, c, newLen, k, rem)
    ensures rem == m[c[k]].tot + newLen - m[c[0]].tot
  {
    TotIsLength(m, c);
    ChainSuffix(m, c, k);
    TotIsLength(m, c[k..]);
    assert c == c[..k] + c[k..];
    BytesSplit(m, c[..k], c[k..]);
  }

  lemma {:induction false} TruncatedTot(m: Mem, c: seq<Id>, newLen: nat, k: nat, rem: nat, x: Id)
    requires TotOk(m) && IsChain(m, c) && InMem(m, c) && StopsAt(m, c, newLen, k, rem) && x in m
    ensures var m1, grow := Truncated(m, c, k, rem, newLen - m[c[0]].tot), newLen - m[c[0]].tot;
      && m1[x].tot == m[x].tot + (if x in c[..k+1] then grow else 0)
      && (x != c[k] ==> m1[x].next == m[x].next && m1[x].data == m[x].data)
  {
    LastTot(m, c, newLen, k, rem);
    assert c[..k+1] == c[..k] + [c[k]];
  }

  /** The relation holds on what is left of the chain itself. */
  lemma {:induction false} TruncatedTotOnChain(m: Mem, c: seq<Id>, newLen: nat, k: nat, rem: nat, x: Id)
    requires TotOk(m) && IsChain(m, c) && InMem(m, c) && StopsAt(m, c, newLen, k, rem) && x in c[..k+1]
    ensures TotAt(Truncated(m, c, k, rem, newLen - m[c[0]].tot), x)
  {
    if x != c[k] {
      var i :| 0 <= i < k && c[i] == x;
      ChainStep(m, c, i);
      assert TotAt(m, x);
      TruncatedTot(m, c, newLen, k, rem, x);
      assert c[i+1] in c[..k+1];
      TruncatedTot(m, c, newLen, k, rem, c[i+1]);
    }
  }

  /** Elsewhere it holds exactly if the successor is not on the chain. */
  lemma {:induction false} TruncatedTotElsewhere(m: Mem, c: seq<Id>, newLen: nat, k: nat, rem: nat, x: Id)
    requires TotOk(m) && Closed(m) && IsChain(m, c) && InMem(m, c) && StopsAt(m, c, newLen, k, rem)
    requires x in m && x !in c[..k+1] && newLen < m[c[0]].tot
    ensures TotAt(Truncated(m, c, k, rem, newLen - m[c[0]].tot), x) <==>
      m[x].next == Null || m[x].next.id !in c[..k+1]
  {
    assert TotAt(m, x);
    assert c[k] in c[..k+1];
    TruncatedTot(m, c, newLen, k, rem, x);
    if m[x].next.To? { TruncatedTot(m, c, newLen, k, rem, m[x].next.id); }
  }

  /** The relation after the call, in terms of memory after the call. */
  lemma {:induction false} TotAfterIff(m: Mem, ext: multiset<Id>, p: Id, newLen: nat, k: nat, rem: nat, m': Mem)
    requires Shrunk(m, ext, p, newLen, k, rem, m') && TotOk(m) && Closed(m) && newLen < m[p].tot
    ensures TotOk(m') <==> Unshared(m', ChainOf(m, p)[..k+1])
  {
    var c := ChainOf(m, p);
    var d, m1 := c[..k+1], Truncated(m, c, k, rem, newLen - m[p].tot);
    forall x | x in m'
      ensures TotAt(m', x) <==> x in d || m'[x].next == Null || m'[x].next.id !in d
    {
      assert m'[x].next == m1[x].next;
      assert m'[x].next.To? ==> m'[x].next.id in m' && m'[m'[x].next.id].tot == m1[m'[x].next.id].tot;
      assert TotAt(m', x) <==> TotAt(m1, x);
      if x in d {
        TruncatedTotOnChain(m, c, newLen, k, rem, x);
      } else {
        TruncatedTotElsewhere(m, c, newLen, k, rem, x);
        TruncatedTot(m, c, newLen, k, rem, x);
        assert c[k] in d;
      }
    }
  }

  /** Whatever is not on the cut-off tail stays alive. `n` bounds the lengths of chains. */
  lemma {:induction false} OutsideTailSurvives(m: Mem, ext: multiset<Id>, c: seq<Id>, k: nat, m1: Mem, m': Mem, x: Id, n: nat)
    requires Inv(m, ext) && IsChain(m, c) && k < |c| && x in m && x !in c[k+1..]
    requires forall y :: y in m ==> |ChainOf(m, y)| <= n
    requires forall y :: y in m && y != c[k] ==> y in m1 && m1[y].next == m[y].next
    requires Part(m1, m') && Closed(m') && Roots(m', ext)
    ensures x in m'
    decreases n - |ChainOf(m, x)|
  {
    if x !in ext {
      assert Preds(m, x) != {};
      var q :| q in Preds(m, x);
      PredChain(m, q, x);
      TailClosed(m, c, k, q, x);
      OutsideTailSurvives(m, ext, c, k, m1, m', q, n);
      assert m'[q].next == m1[q].next == To(x);
    }
  }

  /** Who links to a pbuf outside the tail is outside the tail, and is not the pbuf whose link is cut. */
  lemma {:induction false} TailClosed(m: Mem, c: seq<Id>, k: nat, q: Id, x: Id)
    requires IsChain(m, c) && k < |c| && q in m && m[q].next == To(x) && x !in c[k+1..]
    ensures q !in c[k+1..] && q != c[k]
  {
    forall i | k <= i < |c| ensures c[i] != q {
      ChainStep(m, c, i);
      assert i + 1 < |c| ==> c[k+1..][i-k] == c[i+1];
    }
    var d := c[k+1..];
    assert forall i :: 0 <= i < |d| ==> d[i] == c[k+1+i];
  }

  /** A pbuf outside that links into the kept part is not on the tail. */
  lemma {:induction false} OutsideLinkNotOnTail(m: Mem, c: seq<Id>, k: nat, y: Id)
    requires IsChain(m, c) && k < |c| && y in m && m[y].next.To? && m[y].next.id in c[..k+1]
    ensures y !in c[k+1..]
  {
    if y in c[k+1..] {
      var i :| 0 <= i < |c[k+1..]| && c[k+1..][i] == y;
      ChainStep(m, c, k + 1 + i);
      var j :| 0 <= j < |c[..k+1]| && c[..k+1][j] == m[y].next.id;
      ChainDistinct(m, c, j, k + 2 + i);
    }
  }

  /** What is not on the tail survives pbuf_realloc, the first pbuf for one. */
  lemma {:induction false} ShrunkSurvives(m: Mem, ext: multiset<Id>, p: Id, newLen: nat, k: nat, rem: nat, m': Mem, x: Id)
    requires Inv(m, ext) && Shrunk(m, ext, p, newLen, k, rem, m') && x in m && x !in ChainOf(m, p)[k+1..]
    ensures x in m'
  {
    forall z | z in m ensures |ChainOf(m, z)| <= |m.Keys| { ChainsBounded(m, z); }
    OutsideTailSurvives(m, ext, ChainOf(m, p), k, Truncated(m, ChainOf(m, p), k, rem, newLen - m[p].tot), m', x, |m.Keys|);
  }

  lemma {:induction false} HeadSurvives(m: Mem, ext: multiset<Id>, p: Id, newLen: nat, k: nat, rem: nat, m': Mem)
    requires Inv(m, ext) && Shrunk(m, ext, p, newLen, k, rem, m')
    ensures p in m'
  {
    var c := ChainOf(m, p);
    if p in c[k+1..] {
      var i :| 0 <= i < |c[k+1..]| && c[k+1..][i] == p;
      ChainDistinct(m, c, 0, k + 1 + i);
    }
    ShrunkSurvives(m, ext, p, newLen, k, rem, m', p);
  }

  /** Sharing after the call is sharing before it. */
  lemma {:induction false} SharingStays(m: Mem, ext: multiset<Id>, p: Id, newLen: nat, k: nat, rem: nat, m': Mem)
    requires Inv(m, ext) && Shrunk(m, ext, p, newLen, k, rem, m')
    ensures Unshared(m', ChainOf(m, p)[..k+1]) <==> Unshared(m, ChainOf(m, p)[..k+1])
  {
    var c := ChainOf(m, p);
    var d, m1 := c[..k+1], Truncated(m, c, k, rem, newLen - m[p].tot);
    assert c[k] in d;
    forall y | y in m && y !in d && m[y].next.To? && m[y].next.id in d
      ensures y in m' && m'[y].next == m[y].next
    {
      OutsideLinkNotOnTail(m, c, k, y);
      ShrunkSurvives(m, ext, p, newLen, k, rem, m', y);
      assert m'[y].next == m1[y].next;
    }
    forall y | y in m' && y !in d ensures y in m && m'[y].next == m[y].next {
      assert m'[y].next == m1[y].next;
    }
  }

  /**
    pbuf_realloc keeps the tot_len relation exactly when no chain from outside runs
    into the part that is kept: a test before the call.
   */
  lemma {:induction false} ShrunkTotIff(m: Mem, ext: multiset<Id>, p: Id, newLen: nat, k: nat, rem: nat, m': Mem)
    requires Inv(m, ext) && Shrunk(m, ext, p, newLen, k, rem, m') && TotOk(m) && newLen < m[p].tot
    ensures TotOk(m') <==> Unshared(m, ChainOf(m, p)[..k+1])
  {
    TotAfterIff(m, ext, p, newLen, k, rem, m');
    SharingStays(m, ext, p, newLen, k, rem, m');
  }

  /** `m'` is `m` with the tail of `p` cut off and `freed` pbufs that only this link held alive. */
  ghost predicate TailFreed(m: Mem, p: Id, ext: multiset<Id>, m': Mem, freed: nat) {
    && p in m && m[p].next.To? && m[p].next.id in m
    && Released(Dechained(m, p), ext, m') && freed == |m| - |m'|
  }

  /** What pbuf_dechain writes before it frees the tail. */
  function Dechained(m: Mem, p: Id): Mem
    requires p in m && m[p].next.To? && m[p].next.id in m
  {
    var m1 := m[m[p].next.id := m[m[p].next.id].(tot := m[p].tot - |m[p].data|)];
    m1[p := m1[p].(next := Null, tot := |m1[p].data|)]
  }

  lemma {:induction false} DechainOwes(m: Mem, ext: multiset<Id>, p: Id)
    requires Inv(m, ext) && p in m && m[p].next.To?
    ensures m[p].next.id in m
    ensures Owed(Dechained(m, p), ext, m[p].next)
  {
    assert Ends(m, p);
    var c := ChainOf(m, p);
    ChainStep(m, c, 0);
    ChainStep(m, c, 1);
    if c[1] == c[0] { ChainDistinct(m, c, 0, 1); }
    CutStep(m, ext, p);
    PayloadFree(m[p := m[p].(next := Null)], Dechained(m, p), ext, m[p].next);
  }

  lemma {:induction false} SameSize(m: Mem, m': Mem)
    requires m.Keys == m'.Keys
    ensures |m| == |m'|
  {
    assert |m| == |m.Keys| && |m'| == |m'.Keys|;
  }

  /** `++` on a u16_t. */
  function Inc16(n: int): int { if n == 0xffff then 0 else n + 1 }

  /** `t` is held by the caller and does not end like the chain of `h`. */
  ghost predicate Joinable(m: Mem, ext: multiset<Id>, h: Id, t: Id) {
    h in m && t in ext && Ends(m, h) && Ends(m, t) && Last(ChainOf(m, h)) != Last(ChainOf(m, t))
  }

  lemma {:induction false} SuffixLast(m: Mem, c: seq<Id>, i: nat, d: seq<Id>)
    requires IsChain(m, c) && i < |c| && ChainFrom(m, c[i], d)
    ensures Last(d) == Last(c)
  {
    ChainSuffix(m, c, i);
    ChainUnique(m, c[i..], d);
  }

  lemma {:induction false} JoinApart(m: Mem, ext: multiset<Id>, h: Id, t: Id)
    requires Inv(m, ext) && Joinable(m, ext, h, t)
    ensures t in m && t !in ChainOf(m, h)
  {
    var c := ChainOf(m, h);
    if t in c {
      var i :| 0 <= i < |c| && c[i] == t;
      SuffixLast(m, c, i, ChainOf(m, t));
    }
  }

  /** Raising the totals and linking the last pbuf is joining. */
  lemma {:induction false} JoinIs(m: Mem, c: seq<Id>, t: Id)
    requires IsChain(m, c) && t in m && t !in c
    ensures var m1 := Raised(m, c[..|c|-1], m[t].tot);
      Last(c) in m && m1[t] == m[t] &&
      m1[Last(c) := m1[Last(c)].(tot := m1[Last(c)].tot + m[t].tot, next := To(t))] == Joined(m, c, t)
  {
    var n := |c| - 1;
    ChainStep(m, c, n);
    NotBefore(m, c, n);
    assert c == c[..n] + [c[n]];
  }

  lemma {:induction false} JoinedLinks(m: Mem, c: seq<Id>, t: Id)
    requires c != [] && Last(c) in m && t in m
    ensures var m1, m' := m[Last(c) := m[Last(c)].(next := To(t))], Joined(m, c, t);
      SameLinks(m1, m') && forall x :: x in m1 ==> m'[x].ref == m1[x].ref && m'[x].data == m[x].data
  {
  }

  lemma {:induction false} JoinKeeps(m: Mem, ext: multiset<Id>, h: Id, t: Id)
    requires Inv(m, ext) && Joinable(m, ext, h, t) && t in m
    ensures Inv(Joined(m, ChainOf(m, h), t), ext - multiset{t})
  {
    var c := ChainOf(m, h);
    ChainStep(m, c, |c| - 1);
    LinkStep(m, ext, Last(c), t);
    JoinedLinks(m, c, t);
    PayloadFree(m[Last(c) := m[Last(c)].(next := To(t))], Joined(m, c, t), ext - multiset{t}, Null);
  }

  /** Every chain that ended like the head chain is longer by the tail chain; the others are as before. */
  lemma {:induction false} JoinChain(m: Mem, c: seq<Id>, d: seq<Id>, e: seq<Id>)
    requires IsChain(m, c) && IsChain(m, d) && IsChain(m, e) && Last(c) != Last(d)
    ensures d[0] in m && ChainFrom(Joined(m, c, d[0]), e[0], if Last(e) == Last(c) then e + d else e)
  {
    ChainStep(m, c, |c| - 1);
    var m1, m' := m[Last(c) := m[Last(c)].(next := To(d[0]))], Joined(m, c, d[0]);
    LinkChain(m, Last(c), d, e);
    JoinedLinks(m, c, d[0]);
    var f := if Last(e) == Last(c) then e + d else e;
    ChainInMemory(m1, f);
    ChainFrame(m1, m', f);
  }

  lemma {:induction false} JoinBytes(m: Mem, c: seq<Id>, d: seq<Id>, e: seq<Id>)
    requires IsChain(m, c) && IsChain(m, d) && IsChain(m, e) && d[0] in m
    requires (forall x :: x in d ==> x in m) && (forall x :: x in e ==> x in m)
    ensures var m' := Joined(m, c, d[0]);
      && (forall x :: x in e + d ==> x in m')
      && Bytes(m', e + d) == Bytes(m, e) + Bytes(m, d) && Bytes(m', e) == Bytes(m, e)
  {
    BytesSplit(m, e, d);
    BytesFrame(m, Joined(m, c, d[0]), e + d);
    BytesFrame(m, Joined(m, c, d[0]), e);
  }

  /**
    What pbuf_cat does to the packets in memory: those that ended where the head
    chain ended now continue with the tail packet, the others are as before.
   */
  lemma {:induction false} JoinContent(m: Mem, ext: multiset<Id>, h: Id, t: Id, x: Id)
    requires Inv(m, ext) && Joinable(m, ext, h, t) && t in m && x in m && Ends(m, x)
    ensures var m' := Joined(m, ChainOf(m, h), t);
      && Ends(m', x)
      && Content(m', x) == Content(m, x) + if Last(ChainOf(m, x)) == Last(ChainOf(m, h)) then Content(m, t) else []
  {
    var c, d, e := ChainOf(m, h), ChainOf(m, t), ChainOf(m, x);
    var m' := Joined(m, c, t);
    JoinChain(m, c, d, e);
    var f := if Last(e) == Last(c) then e + d else e;
    assert ChainFrom(m', x, f);
    ChainUnique(m', f, ChainOf(m', x));
    ChainInMemory(m, e);
    ChainInMemory(m, d);
    JoinBytes(m, c, d, e);
  }

  /**
    pbuf_cat keeps the tot_len relation exactly when no chain from outside runs into
    the head chain (or the tail is empty): it updates the head chain only.
   */
  lemma {:induction false} JoinTotIff(m: Mem, c: seq<Id>, t: Id)
    requires IsChain(m, c) && Closed(m) && TotOk(m) && t in m && t !in c
    ensures TotOk(Joined(m, c, t)) <==> m[t].tot == 0 || Unshared(m, c)
  {
    var m' := Joined(m, c, t);
    ChainStep(m, c, |c| - 1);
    if m[t].tot != 0 && !Unshared(m, c) {
      var y :| y in m && y !in c && m[y].next.To? && m[y].next.id in c;
      assert TotAt(m, y) && !TotAt(m', y);
    } else {
      forall x | x in m' ensures TotAt(m', x) {
        assert TotAt(m, x);
        if x in c {
          var i :| 0 <= i < |c| && c[i] == x;
          ChainStep(m, c, i);
          if i + 1 < |c| && x == Last(c) { ChainDistinct(m, c, i, |c| - 1); }
        }
      }
    }
  }

  /** One turn of pbuf_free. */
  lemma {:induction false} FreeTurn(m0: Mem, m: Mem, ext: multiset<Id>, p: Id)
    requires Owed(m, ext, To(p)) && Part(m0, m)
    ensures m[p].ref == 1 ==> Owed(m - {p}, ext, m[p].next) && Part(m0, m - {p}) && |m - {p}| == |m| - 1
    ensures m[p].ref != 1 ==>
      var m' := m[p := m[p].(ref := m[p].ref - 1)]; Inv(m', ext) && Part(m0, m') && |m'| == |m|
  {
    if m[p].ref == 1 {
      FreeStep(m, ext, p);
      Shrinks(m, p);
    } else {
      var m' := m[p := m[p].(ref := m[p].ref - 1)];
      DropStep(m, ext, p);
      assert m'.Keys == m.Keys && |m'| == |m'.Keys|;
    }
  }

  /** A reference that its holder is about to free is owed. */
  lemma {:induction false} OweOne(m: Mem, ext: multiset<Id>, p: Id)
    requires Inv(m, ext) && p in ext
    ensures Owed(m, ext - multiset{p}, To(p))
  {
  }

  /** Total lengths of the pbufs in `c` are larger by `d`. */
  function Raised(m: Mem, c: seq<Id>, d: int): Mem {
    map x | x in m :: m[x].(tot := m[x].tot + if x in c then d else 0)
  }

  lemma {:induction false} RaisedNone(m: Mem, d: int)
    ensures Raised(m, [], d) == m
  {
  }

  lemma {:induction false} NotBefore(m: Mem, c: seq<Id>, i: nat)
    requires IsChain(m, c) && i < |c|
    ensures c[i] !in c[..i]
  {
    if c[i] in c[..i] {
      var j :| 0 <= j < i && c[j] == c[i];
      ChainDistinct(m, c, i, j);
    }
  }

  lemma {:induction false} NextOnChain(m: Mem, c: seq<Id>, i: nat)
    requires IsChain(m, c) && i < |c| && c[i] in m && m[c[i]].next != Null
    ensures i + 1 < |c| && m[c[i]].next == To(c[i+1]) && c[i+1] in m
  {
    ChainStep(m, c, i);
    if i + 1 < |c| { ChainStep(m, c, i + 1); }
  }

  /** One turn of the walk. */
  lemma {:induction false} RaiseOne(m: Mem, c: seq<Id>, i: nat, d: int, t: Id)
    requires IsChain(m, c) && i < |c| && c[i] in m && t in m && t !in c
    ensures var m1 := Raised(m, c[..i], d);
      m1[t] == m[t] && m1[c[i] := m1[c[i]].(tot := m1[c[i]].tot + d)] == Raised(m, c[..i+1], d)
  {
    NotBefore(m, c, i);
    RaiseNext(m, c, i, d);
  }

  lemma {:induction false} RaiseMore(m: Mem, a: seq<Id>, x: Id, d: int)
    requires x in m && x !in a
    ensures var m1 := Raised(m, a, d);
      m1[x := m1[x].(tot := m1[x].tot + d)] == Raised(m, a + [x], d)
  {
  }

  lemma {:induction false} Shrinks(m: Mem, p: Id)
    requires p in m
    ensures |m - {p}| == |m| - 1
  {
    assert m.Keys == (m - {p}).Keys + {p};
    assert |m| == |m.Keys| && |m - {p}| == |(m - {p}).Keys|;
  }

  // ---------------------------------------------------------------------------
  // Chains that share a tail
  // ---------------------------------------------------------------------------

  /** Packets 0 and 1 share pbuf 2, which holds their last two bytes; packet 3 is a byte of its own. */
  function Shared(): Mem {
    map[0 := Pbuf(To(2), 1, [0], 3), 1 := Pbuf(To(2), 1, [0], 3), 2 := Pbuf(Null, 2, [0, 0], 2), 3 := Pbuf(Null, 1, [0], 1)]
  }

  lemma {:induction false} SharedEnds()
    ensures AllEnd(Shared()) && ChainOf(Shared(), 0) == [0, 2] && ChainOf(Shared(), 3) == [3]
  {
    var m := Shared();
    assert [0, 2][1..] == [2] && [1, 2][1..] == [2] && IsChain(m, [2]);
    assert ChainFrom(m, 0, [0, 2]) && ChainFrom(m, 1, [1, 2]) && ChainFrom(m, 2, [2]) && ChainFrom(m, 3, [3]);
    ChainUnique(m, [0, 2], ChainOf(m, 0));
    ChainUnique(m, [3], ChainOf(m, 3));
  }

  lemma {:induction false} SharedCounts()
    ensures Counted(Shared(), multiset{0, 1, 3}, Null)
  {
    var m := Shared();
    assert Preds(m, 0) == {} && Preds(m, 1) == {} && Preds(m, 3) == {} && Preds(m, 2) == {0, 1};
  }

  lemma {:induction false} SharedOk()
    ensures Inv(Shared(), multiset{0, 1, 3}) && TotOk(Shared())
  {
    SharedEnds();
    SharedCounts();
    forall x | x in Shared() ensures TotAt(Shared(), x) {}
  }

  /** pbuf_cat(0, 3): the total of packet 1 is wrong afterwards. */
  lemma {:induction false} SharedCatBreaks()
    ensures var m, ext := Shared(), multiset{0, 1, 3};
      && Inv(m, ext) && TotOk(m) && Ends(m, 0) && Joinable(m, ext, 0, 3)
      && !TotAt(Joined(m, ChainOf(m, 0), 3), 1)
  {
    SharedOk();
    SharedEnds();
  }

  /** pbuf_realloc(0, 2) cuts the shared pbuf to one byte: the total of packet 1 is wrong afterwards. */
  lemma {:induction false} SharedReallocBreaks()
    ensures var m, ext := Shared(), multiset{0, 1, 3};
      && Inv(m, ext) && TotOk(m) && InMem(m, [0, 2]) && StopsAt(m, [0, 2], 2, 1, 1)
      && var m' := Truncated(m, [0, 2], 1, 1, -1);
      Shrunk(m, ext, 0, 2, 1, 1, m') && !TotAt(m', 1)
  {
    var m, ext, c := Shared(), multiset{0, 1, 3}, [0, 2];
    SharedOk();
    SharedEnds();
    assert c[..1] == [0] && [0][1..] == [];
    assert Bytes(m, [0]) == m[0].data + Bytes(m, []);
    TruncateOwes(m, ext, c, 1, 1, -1);
    ReleasedWhenClosed(Truncated(m, c, 1, 1, -1), ext, Truncated(m, c, 1, 1, -1));
  }
}
