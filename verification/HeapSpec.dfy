/**
  What mem_malloc, mem_free and mem_trim do to the heap, seen as the list of
  blocks that tile it from offset 0 to MEM_SIZE_ALIGNED.
 */
module HeapSpec {

  import opened Common

  /**
    MEM_ALIGNMENT, SIZEOF_STRUCT_MEM, MIN_SIZE_ALIGNED, MEM_SIZE_ALIGNED, and the
    number of values of mem_size_t.
   */
  datatype Config = Config(align: int, hdr: int, min: int, size: int, modulus: int) {
    ghost predicate Valid() {
      && 0 < align && 0 < hdr && 0 < min && hdr + min <= size
      && size + hdr + min < modulus
      && Aligned(hdr) && Aligned(min) && Aligned(size) && Aligned(modulus)
    }
    /** A multiple of MEM_ALIGNMENT. */
    ghost predicate Aligned(n: int) { exists k :: n == Times(k, align) }
  }

  function Times(k: int, a: int): int { k * a }

  /** A block with its header: offsets `start` up to `end`. */
  datatype Block = Block(start: int, end: int, used: bool)

  /** The data bytes of a block. */
  function Room(cfg: Config, b: Block): int {
    b.end - (b.start + cfg.hdr)
  }

  // ---------------------------------------------------------------------------
  // Specification functions
  // ---------------------------------------------------------------------------

  /** LWIP_MEM_ALIGN_SIZE, assigned to a mem_size_t: the sum may wrap. */
  function AlignSize(cfg: Config, n: int): int
    requires cfg.align > 0
  {
    var r := Times((n + cfg.align - 1) / cfg.align, cfg.align);
    if r >= cfg.modulus then r - cfg.modulus else r
  }

  /** The size mem_malloc and mem_trim work with. */
  function Rounded(cfg: Config, n: int): int
    requires cfg.align > 0
  {
    var r := AlignSize(cfg, n);
    if r < cfg.min then cfg.min else r
  }

  predicate FitsIn(cfg: Config, b: Block, n: int) {
    !b.used && Room(cfg, b) >= n
  }

  /** Index of the lowest free block that fits, found by a scan from the start of the heap. */
  function FirstFit(cfg: Config, bs: seq<Block>, n: int): (k: nat)
    ensures k <= |bs|
    ensures forall i :: 0 <= i < k ==> !FitsIn(cfg, bs[i], n)
    ensures k < |bs| ==> FitsIn(cfg, bs[k], n)
  {
    if bs == [] || FitsIn(cfg, bs[0], n) then 0 else 1 + FirstFit(cfg, bs[1..], n)
  }

  /** A free block is taken whole, or split if a remainder of the minimum size is left. */
  function Take(cfg: Config, b: Block, n: int): seq<Block> {
    if Room(cfg, b) >= n + cfg.hdr + cfg.min
    then [Block(b.start, b.start + cfg.hdr + n, true), Block(b.start + cfg.hdr + n, b.end, false)]
    else [b.(used := true)]
  }

  function Malloc(cfg: Config, bs: seq<Block>, n: int): seq<Block> {
    var k := FirstFit(cfg, bs, n);
    if k == |bs| then bs else bs[..k] + Take(cfg, bs[k], n) + bs[k+1..]
  }

  /** Free block `k` and join it with its free neighbours. */
  function Free(bs: seq<Block>, k: nat): seq<Block>
    requires k < |bs|
  {
    var n := if k + 1 < |bs| && !bs[k+1].used then k + 2 else k + 1;
    var p := if k > 0 && !bs[k-1].used then k - 1 else k;
    bs[..p] + [Block(bs[p].start, bs[n-1].end, false)] + bs[n..]
  }

  /** Shrink the used block `k` to `n` data bytes, if that gives a block of the minimum size or moves a free one. */
  function Trim(cfg: Config, bs: seq<Block>, k: nat, n: int): seq<Block>
    requires k < |bs|
  {
    var b := bs[k];
    var cut := b.start + cfg.hdr + n;
    if n >= Room(cfg, b) then bs
    else if k + 1 < |bs| && !bs[k+1].used then
      bs[..k] + [Block(b.start, cut, true), Block(cut, bs[k+1].end, false)] + bs[k+2..]
    else if n + cfg.hdr + cfg.min <= Room(cfg, b) then
      bs[..k] + [Block(b.start, cut, true), Block(cut, b.end, false)] + bs[k+1..]
    else bs
  }

  // ---------------------------------------------------------------------------
  // Well-formed heaps
  // ---------------------------------------------------------------------------

  /** The blocks tile `lo..hi` in order, aligned, none below the minimum size. */
  ghost predicate Tiles(cfg: Config, bs: seq<Block>, lo: int, hi: int)
    requires cfg.Valid()
  {
    if bs == [] then lo == hi
    else
      && bs[0].start == lo && Room(cfg, bs[0]) >= cfg.min && cfg.Aligned(bs[0].end)
      && Tiles(cfg, bs[1..], bs[0].end, hi)
  }

  predicate Apart(x: Block, y: Block) {
    x.used || y.used
  }

  /** No two free blocks are neighbours. */
  predicate Joined(bs: seq<Block>) {
    |bs| > 1 ==> Apart(bs[0], bs[1]) && Joined(bs[1..])
  }

  ghost predicate WellFormed(cfg: Config, bs: seq<Block>)
    requires cfg.Valid()
  {
    bs != [] && Tiles(cfg, bs, 0, cfg.size) && Joined(bs)
  }

  /** The `used` statistic: the spans of the used blocks. */
  function UsedSum(bs: seq<Block>): int {
    if bs == [] then 0 else (if bs[0].used then bs[0].end - bs[0].start else 0) + UsedSum(bs[1..])
  }

  /** Where `lfree` must point: the lowest free block, or the end. */
  function LowestFree(bs: seq<Block>, hi: int): int {
    if bs == [] then hi else if !bs[0].used then bs[0].start else LowestFree(bs[1..], hi)
  }

  // ---------------------------------------------------------------------------
  // Replacing a stretch of blocks
  // ---------------------------------------------------------------------------

  lemma {:induction false} TilesJoin(cfg: Config, a: seq<Block>, b: seq<Block>, lo: int, mid: int, hi: int)
    requires cfg.Valid() && Tiles(cfg, a, lo, mid) && Tiles(cfg, b, mid, hi)
    ensures Tiles(cfg, a + b, lo, hi)
  {
    if a != [] {
      TilesJoin(cfg, a[1..], b, a[0].end, mid, hi);
      assert (a + b)[1..] == a[1..] + b;
    } else {
      assert a + b == b;
    }
  }

  lemma {:induction false} TilesSplit(cfg: Config, bs: seq<Block>, lo: int, hi: int, k: nat)
    requires cfg.Valid() && Tiles(cfg, bs, lo, hi) && k <= |bs|
    ensures var mid := if k < |bs| then bs[k].start else hi;
      && Tiles(cfg, bs[..k], lo, mid) && Tiles(cfg, bs[k..], mid, hi) && lo <= mid <= hi
      && (k > 0 ==> bs[k-1].end == mid)
  {
    if k > 0 {
      TilesSplit(cfg, bs[1..], bs[0].end, hi, k - 1);
      assert bs[..k][1..] == bs[1..][..k-1];
      assert bs[k..] == bs[1..][k-1..];
    } else {
      assert bs[0..] == bs;
      TilesOrder(cfg, bs, lo, hi);
    }
  }

  lemma {:induction false} TilesOrder(cfg: Config, bs: seq<Block>, lo: int, hi: int)
    requires cfg.Valid() && Tiles(cfg, bs, lo, hi)
    ensures lo <= hi && (bs != [] ==> bs[0].end <= hi)
  {
    if bs != [] { TilesOrder(cfg, bs[1..], bs[0].end, hi); }
  }

  lemma {:induction false} JoinedSplit(a: seq<Block>, b: seq<Block>)
    ensures Joined(a + b) <==>
      Joined(a) && Joined(b) && (a != [] && b != [] ==> Apart(a[|a|-1], b[0]))
  {
    if a == [] {
      assert a + b == b;
    } else {
      JoinedSplit(a[1..], b);
      assert (a + b)[1..] == a[1..] + b;
      if |a| == 1 {
        assert a[1..] + b == b;
      }
    }
  }

  lemma {:induction false} UsedSumSplit(a: seq<Block>, b: seq<Block>)
    ensures UsedSum(a + b) == UsedSum(a) + UsedSum(b)
  {
    if a == [] {
      assert a + b == b;
    } else {
      UsedSumSplit(a[1..], b);
      assert (a + b)[1..] == a[1..] + b;
    }
  }

  lemma {:induction false} LowestFreeSplit(a: seq<Block>, b: seq<Block>, hi: int)
    ensures LowestFree(a + b, hi) == LowestFree(a, LowestFree(b, hi))
  {
    if a == [] {
      assert a + b == b;
    } else {
      LowestFreeSplit(a[1..], b, hi);
      assert (a + b)[1..] == a[1..] + b;
    }
  }

  lemma {:induction false} ReplaceTiles(cfg: Config, bs: seq<Block>, i: nat, j: nat, y: seq<Block>)
    requires cfg.Valid() && Tiles(cfg, bs, 0, cfg.size) && i < j <= |bs|
    requires Tiles(cfg, y, bs[i].start, bs[j-1].end)
    ensures Tiles(cfg, bs[..i] + y + bs[j..], 0, cfg.size)
  {
    TilesSplit(cfg, bs, 0, cfg.size, i);
    TilesSplit(cfg, bs, 0, cfg.size, j);
    TilesJoin(cfg, bs[..i], y, 0, bs[i].start, bs[j-1].end);
    TilesJoin(cfg, bs[..i] + y, bs[j..], 0, bs[j-1].end, cfg.size);
  }

  lemma {:induction false} ReplaceJoined(bs: seq<Block>, i: nat, j: nat, y: seq<Block>)
    requires Joined(bs) && i < j <= |bs| && y != [] && Joined(y)
    requires i > 0 ==> Apart(bs[i-1], y[0])
    requires j < |bs| ==> Apart(y[|y|-1], bs[j])
    ensures Joined(bs[..i] + y + bs[j..])
  {
    assert bs == bs[..i] + bs[i..] && bs == bs[..j] + bs[j..];
    JoinedSplit(bs[..i], bs[i..]);
    JoinedSplit(bs[..j], bs[j..]);
    JoinedSplit(bs[..i], y);
    JoinedSplit(bs[..i] + y, bs[j..]);
  }

  lemma {:induction false} ReplaceUsed(bs: seq<Block>, i: nat, j: nat, y: seq<Block>)
    requires i <= j <= |bs|
    ensures UsedSum(bs[..i] + y + bs[j..]) == UsedSum(bs) - UsedSum(bs[i..j]) + UsedSum(y)
  {
    assert bs == bs[..i] + bs[i..j] + bs[j..];
    UsedSumSplit(bs[..i], bs[i..j]);
    UsedSumSplit(bs[..i] + bs[i..j], bs[j..]);
    UsedSumSplit(bs[..i], y);
    UsedSumSplit(bs[..i] + y, bs[j..]);
  }

  /** Neighbours in a well-formed heap: consecutive offsets, not both free. */
  lemma {:induction false} BlockFacts(cfg: Config, bs: seq<Block>, lo: int, hi: int, k: nat)
    requires cfg.Valid() && Tiles(cfg, bs, lo, hi) && Joined(bs) && k < |bs|
    ensures lo <= bs[k].start && bs[k].end <= hi && Room(cfg, bs[k]) >= cfg.min
    ensures cfg.Aligned(bs[k].end) && (cfg.Aligned(lo) ==> cfg.Aligned(bs[k].start))
    ensures if k + 1 < |bs| then bs[k+1].start == bs[k].end && Apart(bs[k], bs[k+1]) else bs[k].end == hi
    ensures k == 0 ==> bs[k].start == lo
  {
    TilesOrder(cfg, bs, lo, hi);
    if k > 0 { BlockFacts(cfg, bs[1..], bs[0].end, hi, k - 1); }
  }

  lemma {:induction false} TilesOne(cfg: Config, b: Block)
    requires cfg.Valid() && Room(cfg, b) >= cfg.min && cfg.Aligned(b.end)
    ensures Tiles(cfg, [b], b.start, b.end) && Joined([b])
  {
    assert [b][1..] == [];
  }

  lemma {:induction false} TilesTwo(cfg: Config, b: Block, c: Block)
    requires cfg.Valid() && Room(cfg, b) >= cfg.min && cfg.Aligned(b.end) && Apart(b, c)
    requires c.start == b.end && Room(cfg, c) >= cfg.min && cfg.Aligned(c.end)
    ensures Tiles(cfg, [b, c], b.start, c.end) && Joined([b, c]) && UsedSum([b, c]) == UsedSum([b]) + UsedSum([c])
  {
    TilesOne(cfg, c);
    assert [b, c][1..] == [c];
    UsedSumSplit([b], [c]);
    assert [b] + [c] == [b, c];
  }

  // ---------------------------------------------------------------------------
  // The operations keep the heap well formed
  // ---------------------------------------------------------------------------

  lemma {:induction false} AlignSum(cfg: Config, a: int, b: int)
    requires cfg.Aligned(a) && cfg.Aligned(b)
    ensures cfg.Aligned(a + b)
  {
    var k :| a == Times(k, cfg.align);
    var l :| b == Times(l, cfg.align);
    assert a + b == Times(k + l, cfg.align);
  }

  lemma {:induction false} ZeroAligned(cfg: Config)
    ensures cfg.Aligned(0)
  {
    assert 0 == Times(0, cfg.align);
  }

  /** Rounding gives an aligned size of at least the minimum. */
  lemma {:induction false} RoundedFacts(cfg: Config, n: int)
    requires cfg.Valid() && 0 <= n < cfg.modulus
    ensures Rounded(cfg, n) >= cfg.min && cfg.Aligned(Rounded(cfg, n))
  {
    var q := (n + cfg.align - 1) / cfg.align;
    var m :| cfg.modulus == Times(m, cfg.align);
    assert Times(q, cfg.align) - cfg.modulus == Times(q - m, cfg.align);
  }

  lemma {:induction false} RoundUp(n: int, a: int)
    requires a > 0
    ensures n <= Times((n + a - 1) / a, a) < n + a
  {
    var q, r := (n + a - 1) / a, (n + a - 1) % a;
    assert n + a - 1 == q * a + r;
  }

  lemma {:induction false} TimesMonotone(k: int, l: int, a: int)
    requires a > 0 && k <= l
    ensures Times(k, a) <= Times(l, a)
  {
    assert (l - k) * a >= 0;
    assert (l - k) * a == l * a - k * a;
  }

  lemma {:induction false} NextMultiple(q: int, m: int, a: int)
    requires a > 0 && Times(q, a) > Times(m, a) - a
    ensures Times(q, a) >= Times(m, a)
  {
    assert Times(m - 1, a) == Times(m, a) - a;
    if q < m {
      TimesMonotone(q, m - 1, a);
    } else {
      TimesMonotone(m, q, a);
    }
  }

  /** The rounded size covers the request exactly when the rounding does not wrap. */
  lemma {:induction false} RoundedCovers(cfg: Config, n: int)
    requires cfg.Valid() && 0 <= n < cfg.modulus && cfg.modulus > cfg.align + cfg.min
    ensures Rounded(cfg, n) >= n <==> n <= cfg.modulus - cfg.align
  {
    RoundUp(n, cfg.align);
    var q := (n + cfg.align - 1) / cfg.align;
    var m :| cfg.modulus == Times(m, cfg.align);
    if n > cfg.modulus - cfg.align {
      NextMultiple(q, m, cfg.align);
    }
  }

  /** In a 16-bit build a request of 65533 bytes is rounded to 0 and gets the minimum block. */
  lemma {:induction false} WrappedRequest()
    ensures Rounded(Config(4, 8, 12, 512, 0x1_0000), 65533) == 12
  {
  }

  /** A taken block starts where the free one did, has room for `n`, and the rest stays free. */
  lemma {:induction false} TakeKeeps(cfg: Config, b: Block, n: int)
    requires cfg.Valid() && !b.used && Room(cfg, b) >= n >= cfg.min
    requires cfg.Aligned(n) && cfg.Aligned(b.start) && cfg.Aligned(b.end)
    ensures var y := Take(cfg, b, n);
      && Tiles(cfg, y, b.start, b.end) && Joined(y) && y[0].used && Room(cfg, y[0]) >= n
      && UsedSum(y) == y[0].end - y[0].start
  {
    if Room(cfg, b) >= n + cfg.hdr + cfg.min {
      AlignSum(cfg, b.start, cfg.hdr);
      AlignSum(cfg, b.start + cfg.hdr, n);
      TilesTwo(cfg, Block(b.start, b.start + cfg.hdr + n, true), Block(b.start + cfg.hdr + n, b.end, false));
    } else {
      TilesOne(cfg, b.(used := true));
    }
  }

  lemma {:induction false} MallocKeeps(cfg: Config, bs: seq<Block>, n: int)
    requires cfg.Valid() && WellFormed(cfg, bs) && n >= cfg.min && cfg.Aligned(n)
    ensures WellFormed(cfg, Malloc(cfg, bs, n))
  {
    ZeroAligned(cfg);
    var k := FirstFit(cfg, bs, n);
    if k < |bs| {
      BlockFacts(cfg, bs, 0, cfg.size, k);
      if k > 0 { BlockFacts(cfg, bs, 0, cfg.size, k - 1); }
      TakeKeeps(cfg, bs[k], n);
      var y := Take(cfg, bs[k], n);
      ReplaceTiles(cfg, bs, k, k + 1, y);
      ReplaceJoined(bs, k, k + 1, y);
    }
  }

  lemma {:induction false} FreeKeeps(cfg: Config, bs: seq<Block>, k: nat)
    requires cfg.Valid() && WellFormed(cfg, bs) && k < |bs| && bs[k].used
    ensures WellFormed(cfg, Free(bs, k))
    ensures UsedSum(Free(bs, k)) == UsedSum(bs) - (bs[k].end - bs[k].start)
  {
    FreeTiles(cfg, bs, k);
    FreeJoined(bs, k);
    FreeUsed(bs, k);
  }

  lemma {:induction false} FreeTiles(cfg: Config, bs: seq<Block>, k: nat)
    requires cfg.Valid() && Tiles(cfg, bs, 0, cfg.size) && Joined(bs) && k < |bs|
    ensures Tiles(cfg, Free(bs, k), 0, cfg.size)
  {
    var n := if k + 1 < |bs| && !bs[k+1].used then k + 2 else k + 1;
    var p := if k > 0 && !bs[k-1].used then k - 1 else k;
    var y := Block(bs[p].start, bs[n-1].end, false);
    BlockFacts(cfg, bs, 0, cfg.size, k);
    BlockFacts(cfg, bs, 0, cfg.size, p);
    BlockFacts(cfg, bs, 0, cfg.size, n - 1);
    TilesOne(cfg, y);
    ReplaceTiles(cfg, bs, p, n, [y]);
  }

  lemma {:induction false} JoinedAt(bs: seq<Block>, i: nat)
    requires Joined(bs) && i < |bs|
    ensures i + 1 < |bs| ==> Apart(bs[i], bs[i+1])
    ensures i > 0 ==> Apart(bs[i-1], bs[i])
  {
    if i > 0 { JoinedAt(bs[1..], i - 1); }
  }

  lemma {:induction false} FreeJoined(bs: seq<Block>, k: nat)
    requires Joined(bs) && k < |bs| && bs[k].used
    ensures Joined(Free(bs, k))
  {
    var n := if k + 1 < |bs| && !bs[k+1].used then k + 2 else k + 1;
    var p := if k > 0 && !bs[k-1].used then k - 1 else k;
    var y := [Block(bs[p].start, bs[n-1].end, false)];
    assert p > 0 ==> bs[p-1].used by { JoinedAt(bs, p); }
    assert n < |bs| ==> bs[n].used by { JoinedAt(bs, n - 1); }
    assert Joined(y);
    ReplaceJoined(bs, p, n, y);
  }

  lemma {:induction false} FreeUsed(bs: seq<Block>, k: nat)
    requires k < |bs| && bs[k].used
    ensures UsedSum(Free(bs, k)) == UsedSum(bs) - (bs[k].end - bs[k].start)
  {
    var n := if k + 1 < |bs| && !bs[k+1].used then k + 2 else k + 1;
    var p := if k > 0 && !bs[k-1].used then k - 1 else k;
    ReplaceUsed(bs, p, n, [Block(bs[p].start, bs[n-1].end, false)]);
    UsedStretch(bs, p, k, n);
  }

  /** Only block `k` of the stretch that is joined was used. */
  lemma {:induction false} UsedStretch(bs: seq<Block>, p: nat, k: nat, n: nat)
    requires p <= k < n <= |bs| && k - 1 <= p && n <= k + 2 && bs[k].used
    requires (p < k ==> !bs[p].used) && (n == k + 2 ==> !bs[k+1].used)
    ensures UsedSum(bs[p..n]) == bs[k].end - bs[k].start
  {
    var x := bs[p..n];
    assert x == bs[p..k] + ([bs[k]] + bs[k+1..n]);
    UsedSumSplit(bs[p..k], [bs[k]] + bs[k+1..n]);
    UsedSumSplit([bs[k]], bs[k+1..n]);
    if p < k { assert bs[p..k] == [bs[p]]; }
    if n == k + 2 { assert bs[k+1..n] == [bs[k+1]]; }
  }

  lemma {:induction false} TrimKeeps(cfg: Config, bs: seq<Block>, k: nat, n: int)
    requires cfg.Valid() && WellFormed(cfg, bs) && k < |bs| && bs[k].used
    requires n >= cfg.min && cfg.Aligned(n)
    ensures WellFormed(cfg, Trim(cfg, bs, k, n))
  {
    var b := bs[k];
    var cut := b.start + cfg.hdr + n;
    ZeroAligned(cfg);
    BlockFacts(cfg, bs, 0, cfg.size, k);
    if k > 0 { BlockFacts(cfg, bs, 0, cfg.size, k - 1); }
    AlignSum(cfg, b.start, cfg.hdr);
    AlignSum(cfg, b.start + cfg.hdr, n);
    if n >= Room(cfg, b) {
    } else if k + 1 < |bs| && !bs[k+1].used {
      BlockFacts(cfg, bs, 0, cfg.size, k + 1);
      var y := [Block(b.start, cut, true), Block(cut, bs[k+1].end, false)];
      TilesTwo(cfg, y[0], y[1]);
      ReplaceTiles(cfg, bs, k, k + 2, y);
      ReplaceJoined(bs, k, k + 2, y);
    } else if n + cfg.hdr + cfg.min <= Room(cfg, b) {
      var y := [Block(b.start, cut, true), Block(cut, b.end, false)];
      TilesTwo(cfg, y[0], y[1]);
      ReplaceTiles(cfg, bs, k, k + 1, y);
      ReplaceJoined(bs, k, k + 1, y);
    }
  }

  /** mem_malloc gives a block with room for the request, exactly that much wherever the block can be split. */
  lemma {:induction false} MallocGives(cfg: Config, bs: seq<Block>, n: int)
    requires cfg.Valid() && n >= cfg.min && FirstFit(cfg, bs, n) < |bs|
    ensures var k, r := FirstFit(cfg, bs, n), Malloc(cfg, bs, n);
      && k < |r| && r[k].used && r[k].start == bs[k].start && Room(cfg, r[k]) >= n
      && (Room(cfg, r[k]) == n <==> Room(cfg, bs[k]) == n || Room(cfg, bs[k]) >= n + cfg.hdr + cfg.min)
      && (Room(cfg, r[k]) != n ==> r == bs[k := bs[k].(used := true)])
  {
    var k := FirstFit(cfg, bs, n);
    assert bs[..k] + [bs[k].(used := true)] + bs[k+1..] == bs[k := bs[k].(used := true)];
  }

  /**
    mem_trim leaves room for what the caller keeps: exactly that much if nothing has to
    be given back, the next block is free, or a block can be split off; else all of it.
   */
  lemma {:induction false} TrimGives(cfg: Config, bs: seq<Block>, k: nat, n: int)
    requires cfg.Valid() && k < |bs| && bs[k].used && cfg.min <= n <= Room(cfg, bs[k])
    ensures var r := Trim(cfg, bs, k, n);
      && k < |r| && r[k].used && r[k].start == bs[k].start && Room(cfg, r[k]) >= n
      && (Room(cfg, r[k]) == n <==>
            n == Room(cfg, bs[k]) || (k + 1 < |bs| && !bs[k+1].used) || n + cfg.hdr + cfg.min <= Room(cfg, bs[k]))
      && (Room(cfg, r[k]) != n ==> r == bs)
  {
  }

  // ---------------------------------------------------------------------------
  // What an operation leaves alone, and what joining means
  // ---------------------------------------------------------------------------

  /** Join all runs of free blocks. */
  function Coalesce(bs: seq<Block>): seq<Block>
    decreases |bs|
  {
    if |bs| <= 1 then bs
    else if !bs[0].used && !bs[1].used then Coalesce([Block(bs[0].start, bs[1].end, false)] + bs[2..])
    else [bs[0]] + Coalesce(bs[1..])
  }

  lemma {:induction false} CoalesceJoined(bs: seq<Block>)
    requires Joined(bs)
    ensures Coalesce(bs) == bs
  {
    if |bs| > 1 { CoalesceJoined(bs[1..]); }
  }

  lemma {:induction false} CoalesceFront(f: Block, rest: seq<Block>)
    requires !f.used && Joined(rest)
    ensures Coalesce([f] + rest) ==
      if rest != [] && !rest[0].used then [Block(f.start, rest[0].end, false)] + rest[1..] else [f] + rest
  {
    var l := [f] + rest;
    if rest != [] {
      assert l[1] == rest[0] && l[1..] == rest && l[2..] == rest[1..];
      if rest[0].used {
        CoalesceJoined(l);
      } else {
        var m := [Block(f.start, rest[0].end, false)] + rest[1..];
        assert m[1..] == rest[1..];
        CoalesceJoined(m);
      }
    }
  }

  /** Joining only with the two neighbours, as plug_holes does, is enough to join everything. */
  lemma {:induction false} FreeIsCoalesce(bs: seq<Block>, k: nat)
    requires Joined(bs) && k < |bs| && bs[k].used
    ensures Free(bs, k) == Coalesce(bs[k := bs[k].(used := false)])
  {
    var f := bs[k].(used := false);
    var l := bs[k := f];
    if k == 0 {
      assert l == [f] + bs[1..];
      CoalesceFront(f, bs[1..]);
    } else if k == 1 && !bs[0].used {
      var m := Block(bs[0].start, f.end, false);
      assert l[2..] == bs[2..] && bs[1..][1..] == bs[2..];
      CoalesceFront(m, bs[2..]);
    } else {
      FreeIsCoalesce(bs[1..], k - 1);
      assert l[1..] == bs[1..][k-1 := f];
      assert Coalesce(l) == [bs[0]] + Coalesce(l[1..]);
      FreeTail(bs, k);
    }
  }

  /** Freeing a block that does not touch the first one leaves the first one alone. */
  lemma {:induction false} FreeTail(bs: seq<Block>, k: nat)
    requires 0 < k < |bs| && (k == 1 ==> bs[0].used)
    ensures Free(bs, k) == [bs[0]] + Free(bs[1..], k - 1)
  {
    var t := bs[1..];
    assert t[k-1] == bs[k];
    var n := if k + 1 < |bs| && !bs[k+1].used then k + 2 else k + 1;
    var p := if k > 0 && !bs[k-1].used then k - 1 else k;
    assert bs[..p] == [bs[0]] + t[..p-1];
    assert bs[n..] == t[n-1..];
    assert t[p-1] == bs[p] && t[n-2] == bs[n-1];
  }

  datatype Op = DoMalloc(size: int) | DoFree(p: int) | DoTrim(p: int, size: int)

  /** Index of the live block whose data starts at `p`, or the number of blocks. */
  function Find(cfg: Config, bs: seq<Block>, p: int): (k: nat)
    ensures k <= |bs|
    ensures k < |bs| ==> bs[k].used && bs[k].start + cfg.hdr == p
    ensures k == |bs| ==> forall i :: 0 <= i < |bs| ==> !(bs[i].used && bs[i].start + cfg.hdr == p)
  {
    if bs == [] || (bs[0].used && bs[0].start + cfg.hdr == p) then 0 else 1 + Find(cfg, bs[1..], p)
  }

  /** One call; calls on pointers that are not live are not made. */
  function Do(cfg: Config, bs: seq<Block>, op: Op): seq<Block>
    requires cfg.align > 0
  {
    match op
    case DoMalloc(size) =>
      if size == 0 || Rounded(cfg, size) > cfg.size then bs else Malloc(cfg, bs, Rounded(cfg, size))
    case DoFree(p) => var k := Find(cfg, bs, p); if k < |bs| then Free(bs, k) else bs
    case DoTrim(p, size) =>
      var k := Find(cfg, bs, p);
      if k < |bs| && Rounded(cfg, size) <= cfg.size then Trim(cfg, bs, k, Rounded(cfg, size)) else bs
  }

  predicate InRange(cfg: Config, op: Op) {
    match op
    case DoMalloc(size) => 0 <= size < cfg.modulus
    case DoFree(_) => true
    case DoTrim(_, size) => 0 <= size < cfg.modulus
  }

  /** The pointer that a call returns, if any. */
  function Answer(cfg: Config, bs: seq<Block>, op: Op): Option<int>
    requires cfg.align > 0
  {
    match op
    case DoMalloc(size) =>
      var n := Rounded(cfg, size);
      var k := FirstFit(cfg, bs, n);
      if size == 0 || n > cfg.size || k == |bs| then None else Some(bs[k].start + cfg.hdr)
    case DoFree(_) => None
    case DoTrim(p, size) =>
      var k, n := Find(cfg, bs, p), Rounded(cfg, size);
      if n > cfg.size || (k < |bs| && n > Room(cfg, bs[k])) then None else Some(p)
  }

  /** mem_init */
  function Fresh(cfg: Config): seq<Block> {
    [Block(0, cfg.size, false)]
  }

  function Run(cfg: Config, ops: seq<Op>): seq<Block>
    requires cfg.align > 0
  {
    if ops == [] then Fresh(cfg) else Do(cfg, Run(cfg, ops[..|ops|-1]), ops[|ops|-1])
  }

  lemma {:induction false} DoKeeps(cfg: Config, bs: seq<Block>, op: Op)
    requires cfg.Valid() && WellFormed(cfg, bs) && InRange(cfg, op)
    ensures WellFormed(cfg, Do(cfg, bs, op))
  {
    match op
    case DoMalloc(size) =>
      RoundedFacts(cfg, size);
      MallocKeeps(cfg, bs, Rounded(cfg, size));
    case DoFree(p) =>
      var k := Find(cfg, bs, p);
      if k < |bs| { FreeKeeps(cfg, bs, k); }
    case DoTrim(p, size) =>
      var k := Find(cfg, bs, p);
      RoundedFacts(cfg, size);
      if k < |bs| { TrimKeeps(cfg, bs, k, Rounded(cfg, size)); }
  }

  /** Every sequence of calls on live blocks keeps the heap well formed. */
  lemma {:induction false} RunWellFormed(cfg: Config, ops: seq<Op>)
    requires cfg.Valid() && forall i :: 0 <= i < |ops| ==> InRange(cfg, ops[i])
    ensures WellFormed(cfg, Run(cfg, ops))
  {
    if ops == [] {
      TilesOne(cfg, Block(0, cfg.size, false));
    } else {
      RunWellFormed(cfg, ops[..|ops|-1]);
      DoKeeps(cfg, Run(cfg, ops[..|ops|-1]), ops[|ops|-1]);
    }
  }

  /** In a well-formed heap two blocks never overlap. */
  lemma {:induction false} BlocksDisjoint(cfg: Config, bs: seq<Block>, lo: int, hi: int, i: nat, j: nat)
    requires cfg.Valid() && Tiles(cfg, bs, lo, hi) && Joined(bs) && i < j < |bs|
    ensures bs[i].end <= bs[j].start
  {
    if i > 0 {
      BlocksDisjoint(cfg, bs[1..], bs[0].end, hi, i - 1, j - 1);
    } else {
      BlockFacts(cfg, bs[1..], bs[0].end, hi, j - 1);
    }
  }

  /** A call leaves every live block that it is not about exactly where it was. */
  lemma {:induction false} LiveBlocksStay(cfg: Config, bs: seq<Block>, op: Op, i: nat)
    requires cfg.align > 0 && i < |bs| && bs[i].used
    requires op.DoFree? || op.DoTrim? ==> Find(cfg, bs, op.p) != i
    ensures bs[i] in Do(cfg, bs, op)
  {
    match op
    case DoMalloc(size) =>
      var n := Rounded(cfg, size);
      var k := FirstFit(cfg, bs, n);
      if k < |bs| { Elsewhere(bs, k, Take(cfg, bs[k], n), k + 1, i); }
    case DoFree(p) =>
      if Find(cfg, bs, p) < |bs| { FreeElsewhere(bs, Find(cfg, bs, p), i); }
    case DoTrim(p, size) =>
      if Find(cfg, bs, p) < |bs| { TrimElsewhere(cfg, bs, Find(cfg, bs, p), Rounded(cfg, size), i); }
  }

  lemma {:induction false} FreeElsewhere(bs: seq<Block>, k: nat, i: nat)
    requires k < |bs| && i < |bs| && bs[i].used && i != k
    ensures bs[i] in Free(bs, k)
  {
    var n := if k + 1 < |bs| && !bs[k+1].used then k + 2 else k + 1;
    var q := if k > 0 && !bs[k-1].used then k - 1 else k;
    Elsewhere(bs, q, [Block(bs[q].start, bs[n-1].end, false)], n, i);
  }

  lemma {:induction false} TrimElsewhere(cfg: Config, bs: seq<Block>, k: nat, n: int, i: nat)
    requires k < |bs| && i < |bs| && bs[i].used && i != k
    ensures bs[i] in Trim(cfg, bs, k, n)
  {
    var b := bs[k];
    var cut := b.start + cfg.hdr + n;
    if k + 1 < |bs| && !bs[k+1].used {
      Elsewhere(bs, k, [Block(b.start, cut, true), Block(cut, bs[k+1].end, false)], k + 2, i);
    } else {
      Elsewhere(bs, k, [Block(b.start, cut, true), Block(cut, b.end, false)], k + 1, i);
    }
  }

  lemma {:induction false} Elsewhere(bs: seq<Block>, p: nat, y: seq<Block>, n: nat, i: nat)
    requires p <= n <= |bs| && i < |bs| && !(p <= i < n)
    ensures bs[i] in bs[..p] + y + bs[n..]
  {
    var l := bs[..p] + y + bs[n..];
    if i < p {
      assert l[i] == bs[i];
    } else {
      assert l[p + |y| + (i - n)] == bs[i];
    }
  }

  // ---------------------------------------------------------------------------
  // What the callers hold
  // ---------------------------------------------------------------------------

  /** What was asked for last at each pointer that a caller holds. */
  function Book(cfg: Config, live: map<int, int>, bs: seq<Block>, op: Op): map<int, int>
    requires cfg.align > 0
  {
    var a := Answer(cfg, bs, op);
    match op
    case DoMalloc(size) => if a.Some? then live[a.value := size] else live
    case DoFree(p) => live - {p}
    case DoTrim(p, size) => if p in live && a.Some? then live[p := size] else live
  }

  function Live(cfg: Config, ops: seq<Op>): map<int, int>
    requires cfg.align > 0
  {
    if ops == [] then map[]
    else
      var pre := ops[..|ops|-1];
      Book(cfg, Live(cfg, pre), Run(cfg, pre), ops[|ops|-1])
  }

  /** A used block whose data starts at `p` has room for `n` bytes. */
  predicate Gives(cfg: Config, b: Block, p: int, n: int) {
    b.used && b.start + cfg.hdr == p && Room(cfg, b) >= n
  }

  ghost predicate Given(cfg: Config, bs: seq<Block>, p: int, n: int) {
    exists b :: b in bs && Gives(cfg, b, p, n)
  }

  /** Every pointer that a caller holds has its block, with room for what it asked for. */
  ghost predicate AllGiven(cfg: Config, bs: seq<Block>, live: map<int, int>)
    requires cfg.align > 0
  {
    forall p :: p in live ==> Given(cfg, bs, p, Rounded(cfg, live[p]))
  }

  /** Every used block has a caller that holds it. */
  predicate AllHeld(cfg: Config, bs: seq<Block>, live: map<int, int>) {
    forall b :: b in bs && b.used ==> b.start + cfg.hdr in live
  }

  /** A call that is not about `p` leaves its block alone. */
  lemma {:induction false} GivenStays(cfg: Config, bs: seq<Block>, op: Op, p: int, n: int)
    requires cfg.align > 0 && Given(cfg, bs, p, n) && (op.DoFree? || op.DoTrim? ==> op.p != p)
    ensures Given(cfg, Do(cfg, bs, op), p, n)
  {
    var b :| b in bs && Gives(cfg, b, p, n);
    var i :| 0 <= i < |bs| && bs[i] == b;
    LiveBlocksStay(cfg, bs, op, i);
    assert b in Do(cfg, bs, op) && Gives(cfg, b, p, n);
  }

  lemma {:induction false} AnswerGiven(cfg: Config, bs: seq<Block>, op: Op)
    requires cfg.Valid() && InRange(cfg, op)
    requires Answer(cfg, bs, op).Some? && (op.DoTrim? ==> Find(cfg, bs, op.p) < |bs|)
    ensures Given(cfg, Do(cfg, bs, op), Answer(cfg, bs, op).value, Rounded(cfg, op.size))
  {
    var n, r := Rounded(cfg, op.size), Do(cfg, bs, op);
    RoundedFacts(cfg, op.size);
    var k := if op.DoTrim? then Find(cfg, bs, op.p) else FirstFit(cfg, bs, n);
    if op.DoTrim? { TrimGives(cfg, bs, k, n); } else { MallocGives(cfg, bs, n); }
    assert r[k] in r && Gives(cfg, r[k], Answer(cfg, bs, op).value, n);
  }

  /** What a call returns points to a block with room for the request. */
  lemma {:induction false} AnswerIsGiven(cfg: Config, bs: seq<Block>, op: Op)
    requires cfg.Valid() && InRange(cfg, op) && !op.DoFree?
    ensures Answer(cfg, bs, op).Some? && (op.DoTrim? ==> Find(cfg, bs, op.p) < |bs|) ==>
      Given(cfg, Do(cfg, bs, op), Answer(cfg, bs, op).value, Rounded(cfg, op.size))
  {
    if Answer(cfg, bs, op).Some? && (op.DoTrim? ==> Find(cfg, bs, op.p) < |bs|) { AnswerGiven(cfg, bs, op); }
  }

  lemma {:induction false} FoundIfGiven(cfg: Config, bs: seq<Block>, p: int, n: int)
    requires Given(cfg, bs, p, n)
    ensures Find(cfg, bs, p) < |bs|
  {
    var b :| b in bs && Gives(cfg, b, p, n);
    var i :| 0 <= i < |bs| && bs[i] == b;
  }

  lemma {:induction false} AllGivenStays(cfg: Config, bs: seq<Block>, live: map<int, int>, op: Op)
    requires cfg.Valid() && InRange(cfg, op) && AllGiven(cfg, bs, live)
    ensures AllGiven(cfg, Do(cfg, bs, op), Book(cfg, live, bs, op))
  {
    var live' := Book(cfg, live, bs, op);
    forall p | p in live' ensures Given(cfg, Do(cfg, bs, op), p, Rounded(cfg, live'[p])) {
      if op.DoTrim? && op.p == p {
        FoundIfGiven(cfg, bs, p, Rounded(cfg, live[p]));
        TrimmedGiven(cfg, bs, live, op);
      } else if op.DoMalloc? && Answer(cfg, bs, op) == Some(p) {
        AnswerGiven(cfg, bs, op);
      } else {
        GivenStays(cfg, bs, op, p, Rounded(cfg, live[p]));
      }
    }
  }

  lemma {:induction false} TrimmedGiven(cfg: Config, bs: seq<Block>, live: map<int, int>, op: Op)
    requires cfg.Valid() && InRange(cfg, op) && AllGiven(cfg, bs, live) && op.DoTrim? && op.p in live
    requires Find(cfg, bs, op.p) < |bs|
    ensures Given(cfg, Do(cfg, bs, op), op.p, Rounded(cfg, Book(cfg, live, bs, op)[op.p]))
  {
    if Answer(cfg, bs, op).Some? { AnswerGiven(cfg, bs, op); }
  }

  /** Block `b` was used before, and it is not block `k`. */
  predicate UsedIn(bs: seq<Block>, b: Block, k: nat) {
    exists i :: 0 <= i < |bs| && bs[i].used && bs[i].start == b.start && i != k
  }

  /** A used block after a call was used before, and not freed; or it is the one the call is about. */
  lemma {:induction false} UsedBefore(cfg: Config, bs: seq<Block>, op: Op, b: Block)
    requires cfg.Valid() && b in Do(cfg, bs, op) && b.used
    ensures
      || (op.DoMalloc? && Answer(cfg, bs, op) == Some(b.start + cfg.hdr))
      || UsedIn(bs, b, if op.DoFree? then Find(cfg, bs, op.p) else |bs|)
  {
    match op
    case DoMalloc(size) => MallocFrom(cfg, bs, size, b);
    case DoFree(p) => FreeFrom(cfg, bs, p, b);
    case DoTrim(p, size) =>
      var k := Find(cfg, bs, p);
      if k < |bs| && Rounded(cfg, size) <= cfg.size { TrimFrom(cfg, bs, k, Rounded(cfg, size), b); } else { Unchanged(bs, b); }
  }

  lemma {:induction false} Unchanged(bs: seq<Block>, b: Block)
    requires b in bs && b.used
    ensures UsedIn(bs, b, |bs|)
  {
    var i :| 0 <= i < |bs| && bs[i] == b;
  }

  lemma {:induction false} MallocFrom(cfg: Config, bs: seq<Block>, size: int, b: Block)
    requires cfg.Valid() && b in Do(cfg, bs, DoMalloc(size)) && b.used
    ensures Answer(cfg, bs, DoMalloc(size)) == Some(b.start + cfg.hdr) || UsedIn(bs, b, |bs|)
  {
    var n := Rounded(cfg, size);
    var k := FirstFit(cfg, bs, n);
    if size == 0 || n > cfg.size || k == |bs| {
      Unchanged(bs, b);
    } else {
      From(bs, k, Take(cfg, bs[k], n), k + 1, b);
    }
  }

  lemma {:induction false} FreeFrom(cfg: Config, bs: seq<Block>, p: int, b: Block)
    requires cfg.Valid() && b in Do(cfg, bs, DoFree(p)) && b.used
    ensures UsedIn(bs, b, Find(cfg, bs, p))
  {
    var k := Find(cfg, bs, p);
    if k < |bs| {
      var n := if k + 1 < |bs| && !bs[k+1].used then k + 2 else k + 1;
      var q := if k > 0 && !bs[k-1].used then k - 1 else k;
      From(bs, q, [Block(bs[q].start, bs[n-1].end, false)], n, b);
      var i :| 0 <= i < |bs| && !(q <= i < n) && bs[i] == b;
    } else {
      var i :| 0 <= i < |bs| && bs[i] == b;
    }
  }

  lemma {:induction false} TrimFrom(cfg: Config, bs: seq<Block>, k: nat, n: int, b: Block)
    requires k < |bs| && bs[k].used && b in Trim(cfg, bs, k, n) && b.used
    ensures UsedIn(bs, b, |bs|)
  {
    var x := bs[k];
    var cut := x.start + cfg.hdr + n;
    if k + 1 < |bs| && !bs[k+1].used && n < Room(cfg, x) {
      From(bs, k, [Block(x.start, cut, true), Block(cut, bs[k+1].end, false)], k + 2, b);
    } else if n < Room(cfg, x) && n + cfg.hdr + cfg.min <= Room(cfg, x) {
      From(bs, k, [Block(x.start, cut, true), Block(cut, x.end, false)], k + 1, b);
    }
  }

  lemma {:induction false} From(bs: seq<Block>, p: nat, y: seq<Block>, n: nat, b: Block)
    requires p <= n <= |bs| && b in bs[..p] + y + bs[n..]
    ensures b in y || exists i :: 0 <= i < |bs| && !(p <= i < n) && bs[i] == b
  {
    if b !in y {
      if b in bs[..p] {
        var i :| 0 <= i < p && bs[..p][i] == b;
        assert bs[i] == b;
      } else {
        assert b in bs[n..];
        var i :| 0 <= i < |bs| - n && bs[n..][i] == b;
        assert bs[n + i] == b;
      }
    }
  }

  lemma {:induction false} StartsApart(cfg: Config, bs: seq<Block>, i: nat, j: nat)
    requires cfg.Valid() && WellFormed(cfg, bs) && i < |bs| && j < |bs| && bs[i].start == bs[j].start
    ensures i == j
  {
    BlockFacts(cfg, bs, 0, cfg.size, i);
    BlockFacts(cfg, bs, 0, cfg.size, j);
    if i < j { BlocksDisjoint(cfg, bs, 0, cfg.size, i, j); }
    if j < i { BlocksDisjoint(cfg, bs, 0, cfg.size, j, i); }
  }

  lemma {:induction false} AllHeldStays(cfg: Config, bs: seq<Block>, live: map<int, int>, op: Op)
    requires cfg.Valid() && WellFormed(cfg, bs) && AllHeld(cfg, bs, live)
    ensures AllHeld(cfg, Do(cfg, bs, op), Book(cfg, live, bs, op))
  {
    forall b | b in Do(cfg, bs, op) && b.used ensures b.start + cfg.hdr in Book(cfg, live, bs, op) {
      UsedBefore(cfg, bs, op, b);
      if !(op.DoMalloc? && Answer(cfg, bs, op) == Some(b.start + cfg.hdr)) {
        HeldBefore(cfg, bs, live, b, if op.DoFree? then Find(cfg, bs, op.p) else |bs|);
      }
    }
  }

  lemma {:induction false} HeldBefore(cfg: Config, bs: seq<Block>, live: map<int, int>, b: Block, k: nat)
    requires cfg.Valid() && WellFormed(cfg, bs) && AllHeld(cfg, bs, live) && UsedIn(bs, b, k)
    ensures b.start + cfg.hdr in live && (k < |bs| ==> bs[k].start != b.start)
  {
    var i :| 0 <= i < |bs| && bs[i].used && bs[i].start == b.start && i != k;
    assert bs[i] in bs;
    if k < |bs| && bs[k].start == b.start { StartsApart(cfg, bs, i, k); }
  }

  /**
    In every run of calls the used blocks are exactly those that callers hold, and each
    has room for the (rounded) size that was asked for last, also after mem_trim: so no
    two callers ever share a byte (BlocksDisjoint), and nothing leaks.
   */
  lemma {:induction false} LiveTheorem(cfg: Config, ops: seq<Op>)
    requires cfg.Valid() && forall i :: 0 <= i < |ops| ==> InRange(cfg, ops[i])
    ensures AllGiven(cfg, Run(cfg, ops), Live(cfg, ops)) && AllHeld(cfg, Run(cfg, ops), Live(cfg, ops))
  {
    if ops != [] {
      var pre := ops[..|ops|-1];
      LiveTheorem(cfg, pre);
      RunWellFormed(cfg, pre);
      AllGivenStays(cfg, Run(cfg, pre), Live(cfg, pre), ops[|ops|-1]);
      AllHeldStays(cfg, Run(cfg, pre), Live(cfg, pre), ops[|ops|-1]);
    }
  }
}
