/**
  The heap of mem.c: headers in the ram array, chained by offsets, with the cached
  pointer to the lowest free block. Each operation is proved to do to the chain
  what module HeapSpec does to the list of blocks.
 */
module Heap {

  import opened Common
  import opened HeapSpec

  /** struct mem */
  datatype Header = Header(next: int, prev: int, used: bool)

  type Ram = map<int, Header>

  /** The headers in `h` chain the blocks `bs`; `p` is the back link of the first. */
  predicate Chained(h: Ram, bs: seq<Block>, p: int) {
    bs != [] ==>
      && bs[0].start in h && h[bs[0].start] == Header(bs[0].end, p, bs[0].used)
      && Chained(h, bs[1..], bs[0].start)
  }

  function LastStart(bs: seq<Block>, p: int): int {
    if bs == [] then p else bs[|bs|-1].start
  }

  lemma {:induction false} ChainedSplit(h: Ram, a: seq<Block>, b: seq<Block>, p: int)
    ensures Chained(h, a + b, p) <==> Chained(h, a, p) && Chained(h, b, LastStart(a, p))
  {
    if a == [] {
      assert a + b == b;
    } else {
      ChainedSplit(h, a[1..], b, a[0].start);
      assert (a + b)[1..] == a[1..] + b;
    }
  }

  /** Headers inside the tiled range decide. */
  lemma {:induction false} ChainedFrame(cfg: Config, h: Ram, h': Ram, bs: seq<Block>, p: int, lo: int, hi: int)
    requires cfg.Valid() && Tiles(cfg, bs, lo, hi) && Chained(h, bs, p)
    requires forall x :: lo <= x < hi && x in h ==> x in h' && h'[x] == h[x]
    ensures Chained(h', bs, p)
  {
    if bs != [] {
      TilesOrder(cfg, bs, lo, hi);
      ChainedFrame(cfg, h, h', bs[1..], bs[0].start, bs[0].end, hi);
    }
  }

  /**
    Blocks `i..j` are replaced by `y`: the headers of `y` are in place, the back link
    of what follows is set, and no other header changed.
   */
  lemma {:induction false} ChainedReplace(cfg: Config, h: Ram, h': Ram, bs: seq<Block>, i: nat, j: nat, y: seq<Block>)
    requires cfg.Valid() && Tiles(cfg, bs, 0, cfg.size) && Chained(h, bs, 0) && i < j <= |bs|
    requires y != [] && Chained(h', y, LastStart(bs[..i], 0))
    requires forall x :: x in h && (x < bs[i].start || x > bs[j-1].end) ==> x in h' && h'[x] == h[x]
    requires j < |bs| && bs[j].start in h ==>
      bs[j].start in h' && h'[bs[j].start] == h[bs[j].start].(prev := y[|y|-1].start)
    ensures Chained(h', bs[..i] + y + bs[j..], 0)
  {
    var a, c := bs[..i], bs[j..];
    TilesSplit(cfg, bs, 0, cfg.size, i);
    TilesSplit(cfg, bs, 0, cfg.size, j);
    assert bs == a + bs[i..] && bs == bs[..j] + c;
    ChainedSplit(h, a, bs[i..], 0);
    ChainedSplit(h, bs[..j], c, 0);
    ChainedFrame(cfg, h, h', a, 0, 0, bs[i].start);
    if c != [] {
      TilesOrder(cfg, c, bs[j].start, cfg.size);
      ChainedFrame(cfg, h, h', c[1..], c[0].start, c[0].end, cfg.size);
    }
    ChainedSplit(h', a, y, 0);
    ChainedSplit(h', a + y, c, 0);
  }

  /** The header writes that put a used block at `mem` and a free one from `ptr2` to `next` in place. */
  function WriteSplit(h: Ram, mem: int, ptr2: int, next: int, size: int): Ram
    requires mem in h
  {
    var h1 := h[ptr2 := Header(next, mem, false)];
    var h2 := h1[mem := Header(ptr2, h[mem].prev, true)];
    if next != size && next in h2 then h2[next := h2[next].(prev := ptr2)] else h2
  }

  /** Those writes replace blocks `i..j` by the two. */
  lemma {:induction false} WriteSplitChained(cfg: Config, h: Ram, bs: seq<Block>, i: nat, j: nat, cut: int)
    requires cfg.Valid() && Tiles(cfg, bs, 0, cfg.size) && Chained(h, bs, 0) && i < j <= |bs|
    requires bs[i].start < cut < bs[j-1].end
    ensures bs[i].start in h && (j < |bs| ==> bs[j].start in h)
    ensures var y := [Block(bs[i].start, cut, true), Block(cut, bs[j-1].end, false)];
      var h' := WriteSplit(h, bs[i].start, cut, bs[j-1].end, cfg.size);
      && Chained(h', bs[..i] + y + bs[j..], 0)
      && (cfg.size in h ==> cfg.size in h' && h'[cfg.size] == h[cfg.size])
  {
    var y := [Block(bs[i].start, cut, true), Block(cut, bs[j-1].end, false)];
    HeaderAt(h, bs, 0, i);
    Neighbours(cfg, bs, 0, cfg.size, i);
    Neighbours(cfg, bs, 0, cfg.size, j - 1);
    if j < |bs| { HeaderAt(h, bs, 0, j); Neighbours(cfg, bs, 0, cfg.size, j); }
    var h' := WriteSplit(h, bs[i].start, cut, bs[j-1].end, cfg.size);
    assert y[1..] == [y[1]] && y[1..][1..] == [];
    assert Chained(h', y, LastStart(bs[..i], 0));
    ChainedReplace(cfg, h, h', bs, i, j, y);
  }

  lemma {:induction false} HeaderAt(h: Ram, bs: seq<Block>, p: int, k: nat)
    requires Chained(h, bs, p) && k < |bs|
    ensures bs[k].start in h
    ensures h[bs[k].start] == Header(bs[k].end, if k == 0 then p else bs[k-1].start, bs[k].used)
  {
    if k > 0 { HeaderAt(h, bs[1..], bs[0].start, k - 1); }
  }

  // ---------------------------------------------------------------------------
  // lfree
  // ---------------------------------------------------------------------------

  /** Marking a block free moves the lowest free block down to it, if it is lower. */
  lemma {:induction false} LowestAfterFree(cfg: Config, bs: seq<Block>, lo: int, hi: int, k: nat)
    requires cfg.Valid() && Tiles(cfg, bs, lo, hi) && k < |bs|
    ensures var l := LowestFree(bs, hi);
      && lo <= l
      && LowestFree(bs[k := bs[k].(used := false)], hi) == if bs[k].start < l then bs[k].start else l
  {
    var bs' := bs[k := bs[k].(used := false)];
    LowestInRange(cfg, bs, lo, hi);
    if k > 0 {
      LowestAfterFree(cfg, bs[1..], bs[0].end, hi, k - 1);
      assert bs'[1..] == bs[1..][k-1 := bs[k].(used := false)];
      StartAbove(cfg, bs[1..], bs[0].end, hi, k - 1);
    } else if bs[0].used {
      LowestInRange(cfg, bs[1..], bs[0].end, hi);
    }
  }

  lemma {:induction false} LowestInRange(cfg: Config, bs: seq<Block>, lo: int, hi: int)
    requires cfg.Valid() && Tiles(cfg, bs, lo, hi)
    ensures lo <= LowestFree(bs, hi) <= hi
  {
    TilesOrder(cfg, bs, lo, hi);
    if bs != [] { LowestInRange(cfg, bs[1..], bs[0].end, hi); }
  }

  lemma {:induction false} StartAbove(cfg: Config, bs: seq<Block>, lo: int, hi: int, k: nat)
    requires cfg.Valid() && Tiles(cfg, bs, lo, hi) && k < |bs|
    ensures lo <= bs[k].start
  {
    TilesOrder(cfg, bs, lo, hi);
    if k > 0 { StartAbove(cfg, bs[1..], bs[0].end, hi, k - 1); }
  }

  /** Joining two free neighbours does not move the lowest free block. */
  lemma {:induction false} LowestAfterJoin(bs: seq<Block>, hi: int, k: nat)
    requires k + 1 < |bs| && !bs[k].used && !bs[k+1].used
    ensures LowestFree(bs[..k] + [Block(bs[k].start, bs[k+1].end, false)] + bs[k+2..], hi) == LowestFree(bs, hi)
  {
    var m := [Block(bs[k].start, bs[k+1].end, false)];
    assert bs == bs[..k] + bs[k..];
    LowestFreeSplit(bs[..k], bs[k..], hi);
    LowestFreeSplit(bs[..k], m + bs[k+2..], hi);
    assert bs[..k] + m + bs[k+2..] == bs[..k] + (m + bs[k+2..]);
  }

  class Heap {
    const cfg: Config
    var ram: Ram
    var lfree: int
    var used: int
    ghost var blocks: seq<Block>

    /** The chain stands for `bs`, and the end marker is in place. */
    ghost predicate ChainHolds(bs: seq<Block>)
      reads this
    {
      && cfg.Valid() && bs != [] && Tiles(cfg, bs, 0, cfg.size)
      && Chained(ram, bs, 0)
      && cfg.size in ram && ram[cfg.size].used && ram[cfg.size].next == cfg.size
    }

    /** And `lfree` is right too. */
    ghost predicate Holds(bs: seq<Block>)
      reads this
    {
      ChainHolds(bs) && lfree == LowestFree(bs, cfg.size)
    }

    ghost predicate Valid()
      reads this
    {
      Holds(blocks) && WellFormed(cfg, blocks) && used == UsedSum(blocks)
    }

    /** mem_init */
    constructor (cfg: Config)
      requires cfg.Valid()
      ensures this.cfg == cfg && Valid() && blocks == Fresh(cfg)
    {
      this.cfg := cfg;
      ram := map[0 := Header(cfg.size, 0, false), cfg.size := Header(cfg.size, cfg.size, true)];
      lfree := 0;
      used := 0;
      blocks := Fresh(cfg);
      TilesOne(cfg, Block(0, cfg.size, false));
    }

    /** One half of plug_holes: `a` takes over its free successor. */
    method JoinNext(a: int, ghost bs: seq<Block>, ghost k: nat)
      requires Holds(bs) && k + 1 < |bs| && bs[k].start == a && !bs[k].used && !bs[k+1].used
      modifies this`ram, this`lfree
      ensures Holds(bs[..k] + [Block(bs[k].start, bs[k+1].end, false)] + bs[k+2..])
    {
      JoinFacts(cfg, bs, k);
      WriteJoinChained(cfg, ram, bs, k);
      var b := ram[a].next;
      if lfree == b {
        lfree := a;
      }
      var n := ram[b].next;
      ram := ram[a := ram[a].(next := n)];
      ram := ram[n := ram[n].(prev := a)];
      LowestAtMost(cfg, bs, 0, cfg.size, k);  // so lfree was not at the successor
    }

    /** plug_holes: `mem` was just marked free. */
    method PlugHoles(mem: int, ghost bs: seq<Block>, ghost k: nat)
      requires Holds(bs) && k < |bs| && bs[k].start == mem && !bs[k].used
      modifies this`ram, this`lfree
      ensures Holds(Plug(bs, k))
    {
      Neighbours(cfg, bs, 0, cfg.size, k);
      HeaderAt(ram, bs, 0, k);
      var nmem := ram[mem].next;
      if k + 1 < |bs| { HeaderAt(ram, bs, 0, k + 1); Neighbours(cfg, bs, 0, cfg.size, k + 1); }
      ghost var bs1 := bs;
      if mem != nmem && !ram[nmem].used && nmem != cfg.size {
        bs1 := bs[..k] + [Block(bs[k].start, bs[k+1].end, false)] + bs[k+2..];
        JoinNext(mem, bs, k);
      }
      HeaderAt(ram, bs1, 0, k);
      var pmem := ram[mem].prev;
      if k > 0 { HeaderAt(ram, bs1, 0, k - 1); Neighbours(cfg, bs1, 0, cfg.size, k - 1); }
      if pmem != mem && !ram[pmem].used {
        JoinNext(pmem, bs1, k - 1);
      }
    }

    /** mem_free of a live pointer; a pointer outside the heap is ignored. */
    method MemFree(rmem: int)
      requires Valid() && (0 <= rmem < cfg.size ==> Find(cfg, blocks, rmem) < |blocks|)
      modifies this
      ensures Valid() && blocks == Do(cfg, old(blocks), DoFree(rmem))
    {
      if rmem < 0 || rmem >= cfg.size {
        NotLiveOutside(cfg, blocks, rmem);
        return;
      }
      ghost var k := Find(cfg, blocks, rmem);
      ghost var bs := blocks[k := blocks[k].(used := false)];
      MarkFacts(cfg, ram, blocks, k);
      FreeKeeps(cfg, blocks, k);
      PlugIsFree(blocks, k);
      var mem := rmem - cfg.hdr;
      ram := ram[mem := ram[mem].(used := false)];
      if mem < lfree {
        lfree := mem;
      }
      used := used - (ram[mem].next - mem);
      PlugHoles(mem, bs, k);
      blocks := Free(blocks, k);
    }

    /** Mark the free block at `mem` used, splitting it if the rest is worth a block. */
    method TakeBlock(mem: int, n: int, ghost k: nat)
      requires Valid() && k < |blocks| && blocks[k].start == mem && FitsIn(cfg, blocks[k], n)
      requires n >= cfg.min && cfg.Aligned(n)
      modifies this`ram, this`used
      ensures var bs := blocks[..k] + Take(cfg, blocks[k], n) + blocks[k+1..];
        ChainHolds(bs) && used == UsedSum(bs)
    {
      TakeFacts(cfg, blocks, k, n);
      HeaderAt(ram, blocks, 0, k);
      if ram[mem].next - (mem + cfg.hdr) >= n + cfg.hdr + cfg.min {
        var mem2 := mem + cfg.hdr + n;
        WriteSplitChained(cfg, ram, blocks, k, k + 1, mem2);
        ghost var h := ram;
        var next := ram[mem].next;
        ram := ram[mem2 := Header(next, mem, false)];
        ram := ram[mem := ram[mem].(next := mem2, used := true)];
        if next != cfg.size {
          ram := ram[next := ram[next].(prev := mem2)];
        }
        assert ram == WriteSplit(h, mem, mem2, next, cfg.size);
        used := used + (n + cfg.hdr);
      } else {
        MarkUsed(cfg, ram, blocks, k);
        ram := ram[mem := ram[mem].(used := true)];
        used := used + (ram[mem].next - mem);
      }
    }

    /** Move `lfree` up to the next free block, or the end. */
    method AdjustLfree(ghost bs: seq<Block>, ghost k: nat)
      requires ChainHolds(bs) && k < |bs| && bs[k].start == lfree
      requires LowestFree(bs, cfg.size) == LowestFree(bs[k..], cfg.size)
      modifies this`lfree
      ensures Holds(bs)
    {
      var cur := lfree;
      ghost var j := k;
      HeaderAt(ram, bs, 0, j);
      while ram[cur].used && cur != cfg.size
        invariant k <= j <= |bs| && cur == StartOf(cfg, bs, j) && cur in ram
        invariant j < |bs| ==> ram[cur] == Header(bs[j].end, if j == 0 then 0 else bs[j-1].start, bs[j].used)
        invariant LowestFree(bs, cfg.size) == LowestFree(bs[j..], cfg.size)
        decreases |bs| - j
      {
        StartFacts(cfg, bs, j);
        assert j < |bs|;
        assert bs[j..][1..] == bs[j+1..];
        cur := ram[cur].next;
        j := j + 1;
        if j < |bs| { HeaderAt(ram, bs, 0, j); }
      }
      StartFacts(cfg, bs, j);
      lfree := cur;
    }

    /** The search of mem_malloc, from `lfree` upwards. */
    method Search(n: int) returns (ptr: int, ghost k: nat)
      requires Valid() && 0 < n <= cfg.size
      ensures k == FirstFit(cfg, blocks, n)
      ensures ptr == if k < |blocks| then blocks[k].start else -1
    {
      ptr := lfree;
      k := LowestIndex(blocks);
      LowestIndexFacts(cfg, blocks, cfg.size);
      while ptr < cfg.size - n
        invariant k <= |blocks| && ptr == StartOf(cfg, blocks, k)
        invariant FirstFit(cfg, blocks, n) >= k
        decreases |blocks| - k
      {
        StartFacts(cfg, blocks, k);
        HeaderAt(ram, blocks, 0, k);
        if !ram[ptr].used && ram[ptr].next - (ptr + cfg.hdr) >= n {
          assert FitsIn(cfg, blocks[k], n);
          return;
        }
        ptr := ram[ptr].next;
        k := k + 1;
      }
      NoneFitsAbove(cfg, blocks, n, k);
      ptr, k := -1, |blocks|;
    }

    /** mem_malloc */
    method MemMalloc(size: int) returns (rmem: Option<int>)
      requires Valid() && 0 <= size < cfg.modulus
      modifies this
      ensures Valid() && blocks == Do(cfg, old(blocks), DoMalloc(size))
      ensures rmem == Answer(cfg, old(blocks), DoMalloc(size))
      ensures rmem.Some? ==> Given(cfg, blocks, rmem.value, Rounded(cfg, size))
    {
      ghost var after, answer := Do(cfg, blocks, DoMalloc(size)), Answer(cfg, blocks, DoMalloc(size));
      AnswerIsGiven(cfg, blocks, DoMalloc(size));
      if size == 0 {
        return None;
      }
      RoundedFacts(cfg, size);
      var n := Rounded(cfg, size);
      if n > cfg.size {
        return None;
      }
      MallocKeeps(cfg, blocks, n);
      var ptr; ghost var k;
      ptr, k := Search(n);
      if ptr < 0 {
        if k < |blocks| { StartFacts(cfg, blocks, k); }
        return None;
      }
      assert answer == Some(ptr + cfg.hdr);
      ghost var y := Take(cfg, blocks[k], n);
      ghost var bs := blocks[..k] + y + blocks[k+1..];
      TakeFacts(cfg, blocks, k, n);
      LfreeAfterTake(cfg, blocks, k, n);
      TakeBlock(ptr, n, k);
      if ptr == lfree {
        AdjustLfree(bs, k);
      }
      blocks := bs;
      assert blocks == after;
      return Some(ptr + cfg.hdr);
    }

    /** mem_trim of a live pointer; a pointer outside the heap is handed back. */
    method MemTrim(rmem: int, size: int) returns (r: Option<int>)
      requires Valid() && 0 <= size < cfg.modulus
      requires 0 <= rmem < cfg.size ==> Find(cfg, blocks, rmem) < |blocks|
      modifies this
      ensures Valid() && blocks == Do(cfg, old(blocks), DoTrim(rmem, size))
      ensures r == Answer(cfg, old(blocks), DoTrim(rmem, size))
      ensures r.Some? && 0 <= rmem < cfg.size ==> Given(cfg, blocks, rmem, Rounded(cfg, size))
    {
      AnswerIsGiven(cfg, blocks, DoTrim(rmem, size));
      RoundedFacts(cfg, size);
      var n := Rounded(cfg, size);
      if n > cfg.size {
        return None;
      }
      if rmem < 0 || rmem >= cfg.size {
        NotLiveOutside(cfg, blocks, rmem);
        return Some(rmem);
      }
      ghost var k := Find(cfg, blocks, rmem);
      var mem := rmem - cfg.hdr;
      HeaderAt(ram, blocks, 0, k);
      Neighbours(cfg, blocks, 0, cfg.size, k);
      var room := ram[mem].next - mem - cfg.hdr;
      if n > room {
        return None;
      }
      if n == room {
        return Some(rmem);
      }
      TrimKeeps(cfg, blocks, k, n);
      if k + 1 < |blocks| { HeaderAt(ram, blocks, 0, k + 1); }
      var mem2 := ram[mem].next;
      if !ram[mem2].used {
        MoveFree(mem, n, k);
      } else if n + cfg.hdr + cfg.min <= room {
        SplitTail(mem, n, k);
      }
      blocks := Trim(cfg, blocks, k, n);
      return Some(rmem);
    }

    /** The next block is free: it moves down over what is given back. */
    method MoveFree(mem: int, n: int, ghost k: nat)
      requires Valid() && k + 1 < |blocks| && blocks[k].start == mem && blocks[k].used && !blocks[k+1].used
      requires cfg.min <= n < Room(cfg, blocks[k]) && cfg.Aligned(n)
      modifies this`ram, this`lfree, this`used
      ensures var bs := Trim(cfg, blocks, k, n); Holds(bs) && used == UsedSum(bs)
    {
      var ptr2 := mem + cfg.hdr + n;
      TrimKeeps(cfg, blocks, k, n);
      MoveFacts(cfg, ram, blocks, k, ptr2);
      ghost var h := ram;
      var mem2 := ram[mem].next;
      var next := ram[mem2].next;
      if lfree == mem2 {
        lfree := ptr2;
      }
      ram := ram[ptr2 := Header(next, mem, false)];
      ram := ram[mem := ram[mem].(next := ptr2)];
      if next != cfg.size {
        ram := ram[next := ram[next].(prev := ptr2)];
      }
      assert ram == WriteSplit(h, mem, ptr2, next, cfg.size);
      used := used - (mem2 - ptr2);
    }

    /** The next block is used: what is given back becomes a block of its own. */
    method SplitTail(mem: int, n: int, ghost k: nat)
      requires Valid() && k < |blocks| && blocks[k].start == mem && blocks[k].used
      requires k + 1 < |blocks| ==> blocks[k+1].used
      requires cfg.min <= n && n + cfg.hdr + cfg.min <= Room(cfg, blocks[k]) && cfg.Aligned(n)
      modifies this`ram, this`lfree, this`used
      ensures var bs := Trim(cfg, blocks, k, n); Holds(bs) && used == UsedSum(bs)
    {
      var ptr2 := mem + cfg.hdr + n;
      TrimKeeps(cfg, blocks, k, n);
      SplitFacts(cfg, ram, blocks, k, ptr2);
      ghost var h := ram;
      if ptr2 < lfree {
        lfree := ptr2;
      }
      var next := ram[mem].next;
      ram := ram[ptr2 := Header(next, mem, false)];
      ram := ram[mem := ram[mem].(next := ptr2)];
      if next != cfg.size {
        ram := ram[next := ram[next].(prev := ptr2)];
      }
      assert ram == WriteSplit(h, mem, ptr2, next, cfg.size);
      used := used - (next - ptr2);
    }
  }

  /** Setting the used flag of block `k` changes its header only. */
  lemma {:induction false} MarkUsed(cfg: Config, h: Ram, bs: seq<Block>, k: nat)
    requires cfg.Valid() && Tiles(cfg, bs, 0, cfg.size) && Chained(h, bs, 0) && k < |bs|
    ensures bs[k].start in h && bs[k].start < cfg.size
    ensures var bs' := bs[..k] + [bs[k].(used := true)] + bs[k+1..];
      Chained(h[bs[k].start := h[bs[k].start].(used := true)], bs', 0)
  {
    var f := bs[k].(used := true);
    Neighbours(cfg, bs, 0, cfg.size, k);
    HeaderAt(h, bs, 0, k);
    if k + 1 < |bs| { HeaderAt(h, bs, 0, k + 1); }
    ChainedReplace(cfg, h, h[bs[k].start := h[bs[k].start].(used := true)], bs, k, k + 1, [f]);
  }

  /** Everything MoveFree needs to know about the chain. */
  lemma {:induction false} MoveFacts(cfg: Config, h: Ram, bs: seq<Block>, k: nat, cut: int)
    requires cfg.Valid() && WellFormed(cfg, bs) && Chained(h, bs, 0) && cfg.size in h
    requires k + 1 < |bs| && bs[k].used && !bs[k+1].used && bs[k].start < cut < bs[k].end
    ensures bs[k].start in h && h[bs[k].start].next == bs[k+1].start == bs[k].end && h[bs[k].start].used
    ensures bs[k+1].start in h && h[bs[k+1].start].next == bs[k+1].end
    ensures bs[k+1].end in h && bs[k].start < bs[k].end < bs[k+1].end
    ensures var y := [Block(bs[k].start, cut, true), Block(cut, bs[k+1].end, false)];
      var bs' := bs[..k] + y + bs[k+2..];
      var h' := WriteSplit(h, bs[k].start, cut, bs[k+1].end, cfg.size);
      && Chained(h', bs', 0) && cfg.size in h' && h'[cfg.size] == h[cfg.size]
      && LowestFree(bs', cfg.size) == (if LowestFree(bs, cfg.size) == bs[k+1].start then cut else LowestFree(bs, cfg.size))
      && UsedSum(bs') == UsedSum(bs) - (bs[k].end - cut)
  {
    Neighbours(cfg, bs, 0, cfg.size, k);
    Neighbours(cfg, bs, 0, cfg.size, k + 1);
    HeaderAt(h, bs, 0, k);
    HeaderAt(h, bs, 0, k + 1);
    LfreeAfterMove(cfg, bs, k, cut);
    MoveUsed(cfg, bs, k, cut);
    WriteSplitChained(cfg, h, bs, k, k + 2, cut);
  }

  /** Everything SplitTail needs to know about the chain. */
  lemma {:induction false} SplitFacts(cfg: Config, h: Ram, bs: seq<Block>, k: nat, cut: int)
    requires cfg.Valid() && WellFormed(cfg, bs) && Chained(h, bs, 0) && cfg.size in h
    requires k < |bs| && bs[k].used && bs[k].start < cut < bs[k].end
    ensures bs[k].start in h && h[bs[k].start].next == bs[k].end && h[bs[k].start].used && bs[k].end in h
    ensures var y := [Block(bs[k].start, cut, true), Block(cut, bs[k].end, false)];
      var bs' := bs[..k] + y + bs[k+1..];
      var h' := WriteSplit(h, bs[k].start, cut, bs[k].end, cfg.size);
      && Chained(h', bs', 0) && cfg.size in h' && h'[cfg.size] == h[cfg.size]
      && LowestFree(bs', cfg.size) == (if cut < LowestFree(bs, cfg.size) then cut else LowestFree(bs, cfg.size))
      && UsedSum(bs') == UsedSum(bs) - (bs[k].end - cut)
  {
    Neighbours(cfg, bs, 0, cfg.size, k);
    HeaderAt(h, bs, 0, k);
    LfreeAfterSplit(cfg, bs, k, cut);
    SplitUsed(cfg, bs, k, cut);
    WriteSplitChained(cfg, h, bs, k, k + 1, cut);
  }

  lemma {:induction false} LfreeAfterMove(cfg: Config, bs: seq<Block>, k: nat, cut: int)
    requires cfg.Valid() && WellFormed(cfg, bs) && k + 1 < |bs| && bs[k].used && !bs[k+1].used
    ensures var y := [Block(bs[k].start, cut, true), Block(cut, bs[k+1].end, false)];
      var l := LowestFree(bs, cfg.size);
      LowestFree(bs[..k] + y + bs[k+2..], cfg.size) == if l == bs[k+1].start then cut else l
  {
    var y := [Block(bs[k].start, cut, true), Block(cut, bs[k+1].end, false)];
    var r := y + bs[k+2..];
    assert bs == bs[..k] + bs[k..] && bs[..k] + y + bs[k+2..] == bs[..k] + r;
    LowestFreeSplit(bs[..k], bs[k..], cfg.size);
    LowestFreeSplit(bs[..k], r, cfg.size);
    assert bs[k..][1..][0] == bs[k+1] && r[1..][0] == y[1];
    TilesSplit(cfg, bs, 0, cfg.size, k);
    Neighbours(cfg, bs, 0, cfg.size, k);
    LowestOfPrefix(cfg, bs[..k], 0, bs[k].start, bs[k+1].start, cut);
  }

  lemma {:induction false} MoveUsed(cfg: Config, bs: seq<Block>, k: nat, cut: int)
    requires k + 1 < |bs| && bs[k].used && !bs[k+1].used
    ensures var y := [Block(bs[k].start, cut, true), Block(cut, bs[k+1].end, false)];
      UsedSum(bs[..k] + y + bs[k+2..]) == UsedSum(bs) - (bs[k].end - cut)
  {
    var y := [Block(bs[k].start, cut, true), Block(cut, bs[k+1].end, false)];
    ReplaceUsed(bs, k, k + 2, y);
    var x := bs[k..k+2];
    assert x == [bs[k]] + [bs[k+1]] && y == [y[0]] + [y[1]];
    UsedSumSplit([bs[k]], [bs[k+1]]);
    UsedSumSplit([y[0]], [y[1]]);
  }

  lemma {:induction false} LfreeAfterSplit(cfg: Config, bs: seq<Block>, k: nat, cut: int)
    requires cfg.Valid() && WellFormed(cfg, bs) && k < |bs| && bs[k].used && bs[k].start < cut < bs[k].end
    ensures var y := [Block(bs[k].start, cut, true), Block(cut, bs[k].end, false)];
      var l := LowestFree(bs, cfg.size);
      LowestFree(bs[..k] + y + bs[k+1..], cfg.size) == if cut < l then cut else l
  {
    var y := [Block(bs[k].start, cut, true), Block(cut, bs[k].end, false)];
    var r := y + bs[k+1..];
    assert bs == bs[..k] + bs[k..] && bs[..k] + y + bs[k+1..] == bs[..k] + r;
    LowestFreeSplit(bs[..k], bs[k..], cfg.size);
    LowestFreeSplit(bs[..k], r, cfg.size);
    assert bs[k..][1..] == bs[k+1..] && r[1..][0] == y[1];
    TilesSplit(cfg, bs, 0, cfg.size, k);
    TilesSplit(cfg, bs, 0, cfg.size, k + 1);
    LowestInRange(cfg, bs[k+1..], bs[k].end, cfg.size);
    LowestOfPrefix(cfg, bs[..k], 0, bs[k].start, LowestFree(bs[k+1..], cfg.size), cut);
  }

  lemma {:induction false} SplitUsed(cfg: Config, bs: seq<Block>, k: nat, cut: int)
    requires k < |bs| && bs[k].used
    ensures var y := [Block(bs[k].start, cut, true), Block(cut, bs[k].end, false)];
      UsedSum(bs[..k] + y + bs[k+1..]) == UsedSum(bs) - (bs[k].end - cut)
  {
    var y := [Block(bs[k].start, cut, true), Block(cut, bs[k].end, false)];
    ReplaceUsed(bs, k, k + 1, y);
    assert bs[k..k+1] == [bs[k]] && y == [y[0]] + [y[1]];
    UsedSumSplit([y[0]], [y[1]]);
  }

  /** Index of the lowest free block. */
  ghost function LowestIndex(bs: seq<Block>): nat {
    if bs == [] || !bs[0].used then 0 else 1 + LowestIndex(bs[1..])
  }

  lemma {:induction false} LowestIndexFacts(cfg: Config, bs: seq<Block>, hi: int)
    ensures var k := LowestIndex(bs);
      && k <= |bs| && LowestFree(bs, hi) == (if k < |bs| then bs[k].start else hi)
      && forall n :: FirstFit(cfg, bs, n) >= k
  {
    if bs != [] && bs[0].used { LowestIndexFacts(cfg, bs[1..], hi); }
  }

  /** The search bound is safe: no block that starts at or above `size - n` has room for `n`. */
  lemma {:induction false} NoneFitsAbove(cfg: Config, bs: seq<Block>, n: int, k: nat)
    requires cfg.Valid() && Tiles(cfg, bs, 0, cfg.size) && k <= |bs|
    requires StartOf(cfg, bs, k) >= cfg.size - n && FirstFit(cfg, bs, n) >= k
    ensures FirstFit(cfg, bs, n) == |bs|
  {
    var f := FirstFit(cfg, bs, n);
    if f < |bs| {
      Neighbours(cfg, bs, 0, cfg.size, f);
      TilesSplit(cfg, bs, 0, cfg.size, k);
      assert bs[f] == bs[k..][f - k];
      StartAbove(cfg, bs[k..], bs[k].start, cfg.size, f - k);
    }
  }

  /** Taking a block above the lowest free one leaves `lfree` right; taking that one needs a new search from it. */
  lemma {:induction false} LfreeAfterTake(cfg: Config, bs: seq<Block>, k: nat, n: int)
    requires cfg.Valid() && WellFormed(cfg, bs) && k < |bs| && !bs[k].used
    ensures var bs' := bs[..k] + Take(cfg, bs[k], n) + bs[k+1..];
      var l := LowestFree(bs, cfg.size);
      && (bs[k].start != l ==> LowestFree(bs', cfg.size) == l)
      && (bs[k].start == l ==> LowestFree(bs', cfg.size) == LowestFree(bs'[k..], cfg.size))
      && bs'[k].start == bs[k].start
  {
    var y := Take(cfg, bs[k], n);
    var bs' := bs[..k] + y + bs[k+1..];
    assert bs == bs[..k] + bs[k..] && bs' == bs[..k] + bs'[k..];
    LowestFreeSplit(bs[..k], bs[k..], cfg.size);
    LowestFreeSplit(bs[..k], bs'[k..], cfg.size);
    assert LowestFree(bs[k..], cfg.size) == bs[k].start;
    TilesSplit(cfg, bs, 0, cfg.size, k);
    LowestOfPrefix(cfg, bs[..k], 0, bs[k].start, bs[k].start, LowestFree(bs'[k..], cfg.size));
  }

  /** A prefix either holds the lowest free block, below its end, or passes on what follows. */
  lemma {:induction false} LowestOfPrefix(cfg: Config, a: seq<Block>, lo: int, mid: int, x: int, z: int)
    requires cfg.Valid() && Tiles(cfg, a, lo, mid)
    ensures (LowestFree(a, x) == x && LowestFree(a, z) == z) || LowestFree(a, x) == LowestFree(a, z) < mid
  {
    if a != [] {
      TilesOrder(cfg, a, lo, mid);
      LowestOfPrefix(cfg, a[1..], a[0].end, mid, x, z);
    }
  }

  /** Offset of block `i`; the end of the heap if there is none. */
  function StartOf(cfg: Config, bs: seq<Block>, i: nat): int
    requires i <= |bs|
  {
    if i < |bs| then bs[i].start else cfg.size
  }

  lemma {:induction false} StartFacts(cfg: Config, bs: seq<Block>, i: nat)
    requires cfg.Valid() && Tiles(cfg, bs, 0, cfg.size) && i <= |bs|
    ensures i < |bs| <==> StartOf(cfg, bs, i) != cfg.size
    ensures i < |bs| ==> 0 <= bs[i].start < cfg.size && StartOf(cfg, bs, i + 1) == bs[i].end
  {
    if i < |bs| {
      Neighbours(cfg, bs, 0, cfg.size, i);
      if i + 1 < |bs| { Neighbours(cfg, bs, 0, cfg.size, i + 1); }
    }
  }

  /** Taking block `k`: the list stays well formed, and what is used grows by the span of the taken block. */
  lemma {:induction false} TakeFacts(cfg: Config, bs: seq<Block>, k: nat, n: int)
    requires cfg.Valid() && WellFormed(cfg, bs) && k < |bs| && FitsIn(cfg, bs[k], n)
    requires n >= cfg.min && cfg.Aligned(n)
    ensures 0 <= bs[k].start && bs[k].end <= cfg.size && StartOf(cfg, bs, k + 1) == bs[k].end
    ensures bs[k].start + cfg.hdr + n <= bs[k].end
    ensures k + 1 < |bs| ==> bs[k].end < cfg.size
    ensures var y := Take(cfg, bs[k], n);
      var bs' := bs[..k] + y + bs[k+1..];
      && y[0].start == bs[k].start
      && Tiles(cfg, bs', 0, cfg.size)
      && UsedSum(bs') == UsedSum(bs) + (y[0].end - y[0].start)
  {
    ZeroAligned(cfg);
    BlockFacts(cfg, bs, 0, cfg.size, k);
    if k + 1 < |bs| { BlockFacts(cfg, bs, 0, cfg.size, k + 1); }
    TakeKeeps(cfg, bs[k], n);
    var y := Take(cfg, bs[k], n);
    ReplaceTiles(cfg, bs, k, k + 1, y);
    ReplaceUsed(bs, k, k + 1, y);
    assert bs[k..k+1] == [bs[k]];
  }

  /** Join block `k`, which is free, with a free successor and then with a free predecessor. */
  function Plug(bs: seq<Block>, k: nat): seq<Block>
    requires k < |bs|
  {
    var bs1 := if k + 1 < |bs| && !bs[k+1].used
               then bs[..k] + [Block(bs[k].start, bs[k+1].end, false)] + bs[k+2..] else bs;
    if k > 0 && !bs1[k-1].used
    then bs1[..k-1] + [Block(bs1[k-1].start, bs1[k].end, false)] + bs1[k+1..] else bs1
  }

  lemma {:induction false} PlugIsFree(bs: seq<Block>, k: nat)
    requires k < |bs|
    ensures Plug(bs[k := bs[k].(used := false)], k) == Free(bs, k)
  {
    var a := bs[k := bs[k].(used := false)];
    var n := if k + 1 < |bs| && !bs[k+1].used then k + 2 else k + 1;
    var bs1 := bs[..k] + [Block(bs[k].start, bs[n-1].end, false)] + bs[n..];
    assert bs1 == if n == k + 2 then a[..k] + [Block(a[k].start, a[k+1].end, false)] + a[k+2..] else a;
    assert bs1[k+1..] == bs[n..];
    if k > 0 { assert bs1[..k-1] == bs[..k-1]; }
  }

  /** Clearing the used flag of block `k` changes its header only. */
  lemma {:induction false} MarkFacts(cfg: Config, h: Ram, bs: seq<Block>, k: nat)
    requires cfg.Valid() && Tiles(cfg, bs, 0, cfg.size) && Chained(h, bs, 0) && k < |bs|
    ensures bs[k].start in h && bs[k].start < cfg.size && h[bs[k].start].next == bs[k].end
    ensures var bs' := bs[k := bs[k].(used := false)];
      && Tiles(cfg, bs', 0, cfg.size)
      && Chained(h[bs[k].start := h[bs[k].start].(used := false)], bs', 0)
      && LowestFree(bs', cfg.size) ==
           if bs[k].start < LowestFree(bs, cfg.size) then bs[k].start else LowestFree(bs, cfg.size)
  {
    var f := bs[k].(used := false);
    Neighbours(cfg, bs, 0, cfg.size, k);
    HeaderAt(h, bs, 0, k);
    if k + 1 < |bs| { HeaderAt(h, bs, 0, k + 1); }
    TilesOne(cfg, f);
    ReplaceTiles(cfg, bs, k, k + 1, [f]);
    var h' := h[bs[k].start := h[bs[k].start].(used := false)];
    ChainedReplace(cfg, h, h', bs, k, k + 1, [f]);
    assert bs[k := f] == bs[..k] + [f] + bs[k+1..];
    LowestAfterFree(cfg, bs, 0, cfg.size, k);
  }

  lemma {:induction false} NotLiveOutside(cfg: Config, bs: seq<Block>, p: int)
    requires cfg.Valid() && WellFormed(cfg, bs) && (p < cfg.hdr || p >= cfg.size)
    ensures Find(cfg, bs, p) == |bs|
  {
    var k := Find(cfg, bs, p);
    if k < |bs| { BlockFacts(cfg, bs, 0, cfg.size, k); }
  }

  /** The header writes of a join replace the two blocks by one. */
  lemma {:induction false} WriteJoinChained(cfg: Config, h: Ram, bs: seq<Block>, k: nat)
    requires cfg.Valid() && Tiles(cfg, bs, 0, cfg.size) && Chained(h, bs, 0) && cfg.size in h
    requires k + 1 < |bs| && !bs[k].used && !bs[k+1].used
    ensures var a, b, n := bs[k].start, bs[k+1].start, bs[k+1].end;
      && a in h && h[a].next == b && b in h && h[b].next == n && n in h && a < n
      && var h' := h[a := h[a].(next := n)][n := h[n].(prev := a)];
         && Chained(h', bs[..k] + [Block(a, n, false)] + bs[k+2..], 0)
         && cfg.size in h' && h'[cfg.size].used == h[cfg.size].used && h'[cfg.size].next == h[cfg.size].next
  {
    JoinFacts(cfg, bs, k);
    HeaderAt(h, bs, 0, k);
    HeaderAt(h, bs, 0, k + 1);
    if k + 2 < |bs| { HeaderAt(h, bs, 0, k + 2); }
    var a, n := bs[k].start, bs[k+1].end;
    var h' := h[a := h[a].(next := n)][n := h[n].(prev := a)];
    ChainedReplace(cfg, h, h', bs, k, k + 2, [Block(a, n, false)]);
  }

  /** Two free neighbours: their offsets, and that one block in their place still tiles the heap. */
  lemma {:induction false} JoinFacts(cfg: Config, bs: seq<Block>, k: nat)
    requires cfg.Valid() && Tiles(cfg, bs, 0, cfg.size) && k + 1 < |bs| && !bs[k].used && !bs[k+1].used
    ensures bs[k].start < bs[k+1].start < bs[k+1].end <= cfg.size && bs[k].end == bs[k+1].start
    ensures k + 2 < |bs| ==> bs[k+2].start == bs[k+1].end < cfg.size
    ensures k + 2 == |bs| ==> bs[k+1].end == cfg.size
    ensures var y := [Block(bs[k].start, bs[k+1].end, false)];
      && Tiles(cfg, bs[..k] + y + bs[k+2..], 0, cfg.size)
      && LowestFree(bs[..k] + y + bs[k+2..], cfg.size) == LowestFree(bs, cfg.size)
  {
    Neighbours(cfg, bs, 0, cfg.size, k);
    Neighbours(cfg, bs, 0, cfg.size, k + 1);
    if k + 2 < |bs| { Neighbours(cfg, bs, 0, cfg.size, k + 2); }
    TilesOne(cfg, Block(bs[k].start, bs[k+1].end, false));
    ReplaceTiles(cfg, bs, k, k + 2, [Block(bs[k].start, bs[k+1].end, false)]);
    LowestAfterJoin(bs, cfg.size, k);
  }

  lemma {:induction false} LowestAtMost(cfg: Config, bs: seq<Block>, lo: int, hi: int, k: nat)
    requires cfg.Valid() && Tiles(cfg, bs, lo, hi) && k < |bs| && !bs[k].used
    ensures LowestFree(bs, hi) <= bs[k].start
  {
    TilesOrder(cfg, bs, lo, hi);
    StartAbove(cfg, bs, lo, hi, k);
    if k > 0 { LowestAtMost(cfg, bs[1..], bs[0].end, hi, k - 1); }
  }

  lemma {:induction false} Neighbours(cfg: Config, bs: seq<Block>, lo: int, hi: int, k: nat)
    requires cfg.Valid() && Tiles(cfg, bs, lo, hi) && k < |bs|
    ensures lo <= bs[k].start < bs[k].end <= hi && Room(cfg, bs[k]) >= cfg.min && cfg.Aligned(bs[k].end)
    ensures if k + 1 < |bs| then bs[k+1].start == bs[k].end else bs[k].end == hi
  {
    TilesOrder(cfg, bs, lo, hi);
    if k > 0 { Neighbours(cfg, bs[1..], bs[0].end, hi, k - 1); }
  }
}
