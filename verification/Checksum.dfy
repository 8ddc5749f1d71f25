/**
  The Internet checksum (RFC 1071) as inet_chksum.c computes it on a little-endian
  host: three algorithms for flat memory, and the swap-and-fold sum over a chain of
  pbufs of any lengths.
 */
module Checksum {

  type Octet = x: int | 0 <= x < 0x100
  type U16 = x: int | 0 <= x < 0x1_0000
  type U32 = x: int | 0 <= x < 0x1_0000_0000

  // ---------------------------------------------------------------------------
  // One's complement sums
  // ---------------------------------------------------------------------------

  /** One's complement addition: the carry is added back. */
  function Add(a: U16, b: U16): U16 {
    if a + b > 0xffff then a + b - 0xffff else a + b
  }

  /** `b << 8` */
  function High(b: Octet): U16 {
    b as int * 0x100
  }

  /** The 16-bit word that starts at `i`; a last odd byte is padded with zero. */
  function Word(s: seq<Octet>): U16
    requires s != []
  {
    if |s| == 1 then s[0] else s[0] as int + High(s[1])
  }

  /** The sum of RFC 1071, before inversion: words added in one's complement. */
  function OnesSum(s: seq<Octet>): U16 {
    if s == [] then 0
    else if |s| == 1 then Word(s)
    else Add(Word(s), OnesSum(s[2..]))
  }

  /** The plain sum of little-endian words. */
  function Le(s: seq<Octet>): nat {
    if s == [] then 0 else if |s| == 1 then s[0] else s[0] + 0x100 * s[1] + Le(s[2..])
  }

  /** The plain sum of big-endian words. */
  function Be(s: seq<Octet>): nat {
    if s == [] then 0 else if |s| == 1 then 0x100 * s[0] else 0x100 * s[0] + s[1] + Be(s[2..])
  }

  /** What folding arrives at: the residue modulo 0xffff, but 0xffff instead of 0 for a positive number. */
  function Norm(n: nat): U16 {
    if n <= 0xffff then n else Norm(n - 0xffff)
  }

  /** FOLD_U32T */
  function Fold(u: U32): (r: U32)
    ensures u > 0x1_0000 ==> r < u
  {
    u / 0x1_0000 + u % 0x1_0000
  }

  /** SWAP_BYTES_IN_WORD, and lwip_htons on a little-endian host */
  function Swap(w: U16): U16 {
    w % 0x100 * 0x100 + w / 0x100
  }

  lemma {:induction false} NormShift(n: nat, k: nat)
    requires n > 0 || k == 0
    ensures Norm(n + 0xffff * k) == Norm(n)
    decreases k
  {
    if k > 0 { NormShift(n, k - 1); }
  }

  /** A number is its norm plus a multiple of 0xffff. */
  lemma {:induction false} NormIs(n: nat) returns (k: nat)
    ensures n == Norm(n) + 0xffff * k && (Norm(n) == 0 <==> n == 0)
  {
    if n <= 0xffff {
      k := 0;
    } else {
      k := NormIs(n - 0xffff);
      k := k + 1;
    }
  }

  /** Normalising a summand first makes no difference. */
  lemma NormAdd(a: nat, b: nat)
    ensures Norm(a + b) == Norm(Norm(a) + b)
  {
    var k := NormIs(a);
    if Norm(a) + b > 0 {
      NormShift(Norm(a) + b, k);
    }
  }

  lemma NormTwice(a: nat, b: nat)
    ensures Norm(a + b) == Norm(Norm(a) + Norm(b))
  {
    NormAdd(a, b);
    NormAdd(b, Norm(a));
  }

  /** Nor before a shift by one byte. */
  lemma NormScale(n: nat)
    ensures Norm(0x100 * n) == Norm(0x100 * Norm(n))
  {
    var k := NormIs(n);
    if n > 0 {
      NormShift(0x100 * Norm(n), 0x100 * k);
    }
  }

  lemma FoldNorm(u: U32)
    ensures Norm(Fold(u)) == Norm(u)
  {
    var h, l := u / 0x1_0000, u % 0x1_0000;
    if h + l > 0 { NormShift(h + l, h); }
  }

  /** Two folds are enough for every 32-bit number whose first fold is small. */
  lemma FoldTwice(u: U32)
    ensures Fold(u) <= 0x1_fffe ==> Fold(Fold(u)) == Norm(u)
    ensures Fold(u) <= 0x1_fffe
    ensures u <= 0x1_fffe ==> Fold(u) == Norm(u)
  {
    FoldNorm(u);
    FoldNorm(Fold(u));
  }

  /** Swapping the bytes is multiplying by 256. */
  lemma SwapIs(w: U16)
    ensures Swap(w) == Norm(0x100 * w)
  {
    var h, l := w / 0x100, w % 0x100;
    assert 0x100 * w == Swap(w) + 0xffff * h;
    if Swap(w) > 0 { NormShift(Swap(w), h); }
  }

  /** Swapping twice is nothing. */
  lemma ScaleTwice(n: nat)
    ensures Norm(0x100 * Norm(0x100 * n)) == Norm(n)
  {
    NormScale(0x100 * n);
    if n > 0 { NormShift(n, n); }
  }

  // ---------------------------------------------------------------------------
  // Sums of bytes
  // ---------------------------------------------------------------------------

  lemma {:induction false} OnesSumIs(s: seq<Octet>)
    ensures OnesSum(s) == Norm(Le(s))
  {
    if |s| > 1 {
      OnesSumIs(s[2..]);
      NormAdd(Le(s[2..]), Word(s));
    }
  }

  /** Behind a first byte, big- and little-endian change places. */
  lemma {:induction false} Prepend(b: Octet, s: seq<Octet>)
    ensures Le([b] + s) == b + Be(s)
    ensures Be([b] + s) == 0x100 * b + Le(s)
    decreases |s|
  {
    var t := [b] + s;
    if |s| == 1 {
      assert t[2..] == [];
    } else if |s| > 1 {
      assert t[2..] == [s[1]] + s[2..];
      Prepend(s[1], s[2..]);
    }
  }

  /** The two readings differ by a shift of one byte. */
  lemma {:induction false} LeBe(s: seq<Octet>) returns (j: nat, k: nat)
    ensures 0x100 * Le(s) == Be(s) + 0xffff * j
    ensures 0x100 * Be(s) == Le(s) + 0xffff * k
    ensures Le(s) == 0 <==> Be(s) == 0
  {
    if |s| == 0 {
      j, k := 0, 0;
    } else if |s| == 1 {
      j, k := 0, s[0];
    } else {
      j, k := LeBe(s[2..]);
      j, k := j + s[1], k + s[0];
    }
  }

  lemma {:induction false} LeSplit(a: seq<Octet>, b: seq<Octet>)
    ensures Le(a + b) == Le(a) + if |a| % 2 == 0 then Le(b) else Be(b)
  {
    if a == [] {
      assert a + b == b;
    } else if |a| == 1 {
      Prepend(a[0], b);
      assert a + b == [a[0]] + b;
    } else {
      assert (a + b)[2..] == a[2..] + b;
      LeSplit(a[2..], b);
    }
  }

  /** The big-endian sum, normalised and swapped, is the little-endian one. */
  lemma SwapBe(s: seq<Octet>)
    ensures Swap(Norm(Be(s))) == Norm(Le(s))
  {
    var j, k := LeBe(s);
    SwapIs(Norm(Be(s)));
    NormScale(Be(s));
    if Le(s) > 0 { NormShift(Le(s), k); }
  }

  // ---------------------------------------------------------------------------
  // lwip_standard_chksum
  // ---------------------------------------------------------------------------

  /** Version 1: network order words, carries at the end. Up to 64k bytes the accumulator does not overflow. */
  method Chksum1(s: seq<Octet>) returns (r: U16)
    requires |s| <= 0x1_0000
    ensures r == OnesSum(s)
  {
    var acc: U32, i := 0, 0;
    while |s| - i > 1
      invariant 0 <= i <= |s| && acc + Be(s[i..]) == Be(s) && 2 * acc <= 0xffff * i
      decreases |s| - i
    {
      assert s[i..][2..] == s[i+2..];
      var src: U16 := High(s[i]) + s[i+1];
      acc := acc + src;
      i := i + 2;
    }
    if |s| - i > 0 {
      acc := acc + High(s[i]);
    }
    FoldTwice(acc);
    acc := Fold(acc);
    if acc / 0x1_0000 != 0 {
      acc := Fold(acc);
    }
    SwapBe(s);
    OnesSumIs(s);
    r := Swap(acc);
  }

  /** Whole words from `i` on, and the rest. */
  method AddWords(s: seq<Octet>, i0: nat, sum0: U32) returns (sum: U32, i: nat)
    requires i0 <= |s| && 2 * sum0 + 0xffff * (|s| - i0) <= 0x1_ffff_ffff
    ensures i0 <= i <= |s| && |s| - i <= 1 && (|s| - i) % 2 == (|s| - i0) % 2
    ensures sum + Le(s[i..]) == sum0 + Le(s[i0..]) && 2 * sum <= 2 * sum0 + 0xffff * (i - i0)
  {
    sum, i := sum0, i0;
    while |s| - i > 1
      invariant i0 <= i <= |s| && (|s| - i) % 2 == (|s| - i0) % 2
      invariant sum + Le(s[i..]) == sum0 + Le(s[i0..]) && 2 * sum <= 2 * sum0 + 0xffff * (i - i0)
      decreases |s| - i
    {
      assert s[i..][2..] == s[i+2..];
      sum := sum + (s[i] as int + High(s[i+1]));
      i := i + 2;
    }
  }

  /** What the second and third version add up. */
  lemma Rotated(s: seq<Octet>, odd: bool)
    ensures odd && s != [] ==> Be(s) == 0x100 * s[0] + Le(s[1..])
    ensures odd ==> Swap(Norm(Be(s))) == Norm(Le(s))
  {
    if s != [] {
      assert s == [s[0]] + s[1..];
      Prepend(s[0], s[1..]);
    }
    SwapBe(s);
  }

  /** The end of versions 2 and 3: two folds, and a swap if the start address was odd. */
  method FoldSum(s: seq<Octet>, odd: bool, sum: U32) returns (r: U16)
    requires Norm(sum) == Norm(if odd then Be(s) else Le(s))
    ensures r == OnesSum(s)
  {
    FoldTwice(sum);
    r := Fold(Fold(sum));
    Rotated(s, odd);
    if odd {
      r := Swap(r);
    }
    OnesSumIs(s);
  }

  /** Version 2: words of memory, for an even or odd start address. Up to 0x20000 bytes there is no overflow. */
  method Chksum2(s: seq<Octet>, odd: bool) returns (r: U16)
    requires |s| <= 0x2_0000
    ensures r == OnesSum(s)
  {
    var t: U16, i := 0, 0;
    if odd && |s| > 0 {
      t, i := High(s[0]), 1;
    }
    Rotated(s, odd);
    assert s[0..] == s;
    var sum;
    sum, i := AddWords(s, i, 0);
    if |s| - i > 0 {
      t := t + s[i];
    }
    r := FoldSum(s, odd, sum + t);
  }

  /** The 32-bit word of memory at `s[0..4]`. */
  function Long(s: seq<Octet>): U32
    requires |s| >= 4
  {
    Word(s) + 0x1_0000 * Word(s[2..])
  }

  /** 32-bit addition that adds back the carry, as in the unrolled loop. */
  method AddCarry(a: U32, w: U32) returns (r: U32)
    ensures r == if a + w < 0x1_0000_0000 then a + w else a + w - 0xffff_ffff
  {
    var sum: U32 := if a + w < 0x1_0000_0000 then a + w else a + w - 0x1_0000_0000;
    r := sum;
    if sum < a {
      r := sum + 1;
    }
  }

  lemma CarryNorm(a: U32, s: seq<Octet>, r: U32)
    requires |s| >= 4
    requires r == if a + Long(s) < 0x1_0000_0000 then a + Long(s) else a + Long(s) - 0xffff_ffff
    ensures Norm(r + Le(s[4..])) == Norm(a + Le(s))
  {
    var lo, hi, x := Word(s), Word(s[2..]), Le(s[4..]);
    assert s[2..][2..] == s[4..];
    assert Le(s) == lo as int + hi as int + x;
    if hi > 0 { NormShift(a as int + lo as int + hi as int + x, hi); }
    assert Norm(a + Long(s) + x) == Norm(a + Le(s));
    if r != a + Long(s) { NormShift(r + x, 0x1_0001); }
  }

  /** The inner loop of version 3, eight bytes at a time. */
  method AddLongs(s: seq<Octet>, i0: nat, sum0: U32) returns (sum: U32, i: nat)
    requires i0 <= |s|
    ensures i0 <= i <= |s| && |s| - i <= 7
    ensures Norm(sum + Le(s[i..])) == Norm(sum0 + Le(s[i0..]))
  {
    sum, i := sum0, i0;
    while |s| - i > 7
      invariant i0 <= i <= |s| && Norm(sum + Le(s[i..])) == Norm(sum0 + Le(s[i0..]))
      decreases |s| - i
    {
      var p := s[i..];
      var tmp := AddCarry(sum, Long(p));
      CarryNorm(sum, p, tmp);
      var q := p[4..];
      sum := AddCarry(tmp, Long(q));
      CarryNorm(tmp, q, sum);
      assert q[4..] == s[i+8..];
      i := i + 8;
    }
  }

  /** The bulk of version 3, from address `addr + i0` on, up to a last odd byte. */
  method AddBulk(s: seq<Octet>, addr: nat, i0: nat) returns (sum: U32, i: nat)
    requires i0 <= |s|
    ensures i0 <= i <= |s| && |s| - i <= 1 && sum < 0x1000_0000
    ensures Norm(sum + Le(s[i..])) == Norm(Le(s[i0..]))
  {
    sum, i := 0, i0;
    if (addr + i) % 4 != 0 && |s| - i > 1 {
      assert s[i..][2..] == s[i+2..];
      sum := s[i] as int + High(s[i+1]);
      i := i + 2;
    }
    sum, i := AddLongs(s, i, sum);
    sum := MakeRoom(sum, Le(s[i..]));
    sum, i := AddWords(s, i, sum);
  }

  /** A fold in the middle of a sum. */
  method MakeRoom(sum: U32, ghost rest: nat) returns (r: U32)
    ensures r <= 0x1_fffe && Norm(r + rest) == Norm(sum + rest)
  {
    FoldTwice(sum);
    FoldNorm(sum);
    NormTwice(sum, rest);
    NormTwice(Fold(sum), rest);
    r := Fold(sum);
  }

  /** Version 3, for any start address; it has no length limit. */
  method Chksum3(s: seq<Octet>, addr: nat) returns (r: U16)
    ensures r == OnesSum(s)
  {
    var odd := addr % 2 == 1;
    var t: U16, i := 0, 0;
    if odd && |s| > 0 {
      t, i := High(s[0]), 1;
    }
    Rotated(s, odd);
    assert s[0..] == s;
    ghost var total, t0 := Le(s[i..]), t as int;
    var sum;
    sum, i := AddBulk(s, addr, i);
    ghost var rest := Le(s[i..]);
    if |s| - i > 0 {
      t := t + s[i];
    }
    NormTwice(sum + rest, t0);
    NormTwice(total, t0);
    assert sum + t == sum + rest + t0;
    r := FoldSum(s, odd, sum + t);
  }

  // ---------------------------------------------------------------------------
  // Chains of pbufs
  // ---------------------------------------------------------------------------

  /** A pbuf: where its payload lies in memory, and the payload, whose length is a u16_t. */
  datatype Pbuf = Pbuf(addr: nat, data: seq<Octet>)

  function Flat(c: seq<Pbuf>): seq<Octet> {
    if c == [] then [] else c[0].data + Flat(c[1..])
  }

  predicate Short(c: seq<Pbuf>) {
    forall i :: 0 <= i < |c| ==> |c[i].data| < 0x1_0000
  }

  predicate Odd(s: seq<Octet>) { |s| % 2 == 1 }

  lemma OddSum(a: seq<Octet>, b: seq<Octet>)
    ensures Odd(a + b) == (Odd(a) != Odd(b))
  {
  }

  /** The accumulator stands for `n`, in swapped form if `swapped`. */
  predicate Stands(acc: U16, swapped: bool, n: nat) {
    acc == Norm(if swapped then 0x100 * n else n)
  }

  /** Adding the sum of a piece to an accumulator whose form fits the position of the piece. */
  lemma AddPiece(acc: U16, swapped: bool, a: nat, before: seq<Octet>, piece: seq<Octet>)
    requires Stands(acc, swapped, a + Le(before)) && swapped == Odd(before)
    ensures Stands(Norm(acc + OnesSum(piece)), swapped, a + Le(before + piece))
  {
    LeSplit(before, piece);
    OnesSumIs(piece);
    var n := a + Le(before);
    if swapped {
      NormTwice(0x100 * n, Le(piece));
      var j, k := LeBe(piece);
      if 0x100 * n + Le(piece) > 0 { NormShift(0x100 * n + Le(piece), k); }
      assert 0x100 * (n + Be(piece)) == 0x100 * n + Le(piece) + 0xffff * k;
    } else {
      NormTwice(n, Le(piece));
    }
  }

  /** Swapping changes the form, not the number. */
  lemma SwapForm(acc: U16, swapped: bool, n: nat)
    requires Stands(acc, swapped, n)
    ensures Stands(Swap(acc), !swapped, n)
  {
    SwapIs(acc);
    if swapped { ScaleTwice(n); } else { NormScale(n); }
  }

  method AddFold(acc: U16, sum: U16) returns (r: U16)
    ensures r == Norm(acc as int + sum as int)
  {
    FoldTwice(acc as int + sum as int);
    r := Fold(acc as int + sum as int);
  }

  /** One pbuf of the loop: add, fold, and swap if the pbuf is odd. */
  method AddPbuf(acc0: U16, swapped0: bool, p: Pbuf, len: nat, ghost a: nat, ghost before: seq<Octet>)
      returns (acc: U16, swapped: bool)
    requires len <= |p.data| < 0x1_0000
    requires Stands(acc0, swapped0, a + Le(before)) && swapped0 == Odd(before)
    ensures Stands(acc, swapped, a + Le(before + p.data[..len]))
    ensures swapped == (swapped0 != Odd(p.data))
  {
    var sum := Chksum2(p.data[..len], p.addr % 2 == 1);
    AddPiece(acc0, swapped0, a, before, p.data[..len]);
    acc := AddFold(acc0, sum);
    swapped := swapped0;
    if Odd(p.data) {
      SwapForm(acc, swapped, a + Le(before + p.data[..len]));
      swapped := !swapped;
      acc := Swap(acc);
    }
  }

  /** The swap at the end of the loop, if one is due. */
  method Unswap(acc0: U16, swapped: bool, ghost n: nat) returns (acc: U16)
    requires Stands(acc0, swapped, n)
    ensures acc == Norm(n)
  {
    acc := acc0;
    if swapped {
      SwapForm(acc, true, n);
      acc := Swap(acc);
    }
  }

  /** A whole pbuf. */
  method AddWhole(acc0: U16, swapped0: bool, p: Pbuf, ghost a: nat, ghost before: seq<Octet>)
      returns (acc: U16, swapped: bool)
    requires |p.data| < 0x1_0000
    requires Stands(acc0, swapped0, a + Le(before)) && swapped0 == Odd(before)
    ensures Stands(acc, swapped, a + Le(before + p.data)) && swapped == Odd(before + p.data)
  {
    assert p.data[..|p.data|] == p.data;
    OddSum(before, p.data);
    acc, swapped := AddPbuf(acc0, swapped0, p, |p.data|, a, before);
  }

  lemma FlatStep(before: seq<Octet>, q: seq<Pbuf>)
    requires q != [] && Short(q)
    ensures before + Flat(q) == (before + q[0].data) + Flat(q[1..]) && Short(q[1..])
  {
  }

  /** The loop over a chain: for every way of cutting it, the sum of the joined bytes. */
  method ChainSum(c: seq<Pbuf>, acc0: U16) returns (acc: U16)
    requires Short(c)
    ensures acc == Norm(acc0 + Le(Flat(c)))
  {
    acc := acc0;
    var swapped, q := false, c;
    ghost var before: seq<Octet> := [];
    assert before + Flat(c) == Flat(c);
    while q != []
      invariant Short(q) && before + Flat(q) == Flat(c)
      invariant Stands(acc, swapped, acc0 + Le(before)) && swapped == Odd(before)
      decreases |q|
    {
      FlatStep(before, q);
      acc, swapped := AddWhole(acc, swapped, q[0], acc0, before);
      before := before + q[0].data;
      q := q[1..];
    }
    assert before == Flat(c);
    acc := Unswap(acc, swapped, acc0 + Le(before));
  }

  /** The first `n` bytes, or all of them. */
  function First(s: seq<Octet>, n: nat): seq<Octet> {
    if n < |s| then s[..n] else s
  }

  /**
    The loop over the first `chksumLen` bytes of a chain. It swaps on the parity of
    the whole pbuf even where only a part of it counts.
   */
  method PartialSum(c: seq<Pbuf>, chksumLen: nat, acc0: U16) returns (acc: U16)
    requires Short(c)
    ensures acc == Norm(acc0 + Le(First(Flat(c), chksumLen)))
  {
    acc := acc0;
    var swapped, q, left := false, c, chksumLen;
    ghost var before := [];
    while q != [] && left > 0
      invariant Short(q) && 0 <= left && before + First(Flat(q), left) == First(Flat(c), chksumLen)
      invariant Stands(acc, swapped, acc0 + Le(before))
      invariant left > 0 ==> swapped == Odd(before)
      decreases |q|
    {
      var len := if |q[0].data| > left then left else |q[0].data|;
      FirstSplit(before, q[0].data, Flat(q[1..]), left, len);
      OddSum(before, q[0].data[..len]);
      assert left > len ==> q[0].data[..len] == q[0].data;
      acc, swapped := AddPbuf(acc, swapped, q[0], len, acc0, before);
      before := before + q[0].data[..len];
      q, left := q[1..], left - len;
    }
    assert First(Flat(q), left) == [] && before + [] == before;
    acc := Unswap(acc, swapped, acc0 + Le(before));
  }

  lemma FirstSplit(before: seq<Octet>, d: seq<Octet>, rest: seq<Octet>, left: nat, len: nat)
    requires left > 0 && len == if |d| > left then left else |d|
    ensures before + First(d + rest, left) == (before + d[..len]) + First(rest, left - len)
    ensures left > len ==> len == |d|
  {
    assert First(d + rest, left) == d[..len] + First(rest, left - len);
  }

  /** `~acc` */
  function Invert(w: U16): U16 { 0xffff - w }

  /** inet_chksum_pbuf */
  method ChksumPbuf(c: seq<Pbuf>) returns (r: U16)
    requires Short(c)
    ensures r == Invert(OnesSum(Flat(c)))
  {
    var acc := ChainSum(c, 0);
    OnesSumIs(Flat(c));
    r := Invert(acc);
  }

  /** The pseudo header of section 3.1 of RFC 793: addresses, zero, protocol, length in network order. */
  function PseudoHeader(src: seq<Octet>, dst: seq<Octet>, proto: Octet, len: U16): seq<Octet> {
    src + dst + [0, proto, len / 0x100, len % 0x100]
  }

  /** The sum over the two addresses, which lie in memory in network order. */
  method AddressSum(src: seq<Octet>, dst: seq<Octet>) returns (acc: U16)
    requires |src| == 4 && |dst| == 4
    ensures acc == Norm(Le(src + dst))
  {
    assert src[2..][2..] == [] && dst[2..][2..] == [];
    LeSplit(src, dst);
    var sum: U32 := Word(src) as int + Word(src[2..]) as int + Word(dst) as int + Word(dst[2..]) as int;
    FoldTwice(sum);
    acc := Fold(Fold(sum));
  }

  /** Adding protocol and length: `htons` of both. */
  method AddPseudo(acc0: U16, proto: Octet, len: U16) returns (r: U16)
    ensures r == Invert(Norm(acc0 as int + High(proto) + Swap(len)))
  {
    var acc: U32 := acc0 as int + High(proto) + Swap(len);
    FoldTwice(acc);
    r := Invert(Fold(Fold(acc)));
  }

  /** The four bytes behind the addresses are two words. */
  lemma TailSum(proto: Octet, len: U16, data: seq<Octet>)
    ensures Le([0, proto, len / 0x100, len % 0x100] + data) == High(proto) as int + Swap(len) as int + Le(data)
  {
    var tail: seq<Octet> := [0, proto, len / 0x100, len % 0x100];
    LeSplit(tail, data);
    assert tail[2..] == [tail[2], tail[3]] && tail[2..][2..] == [];
  }

  lemma PseudoLe(src: seq<Octet>, dst: seq<Octet>, proto: Octet, len: U16, data: seq<Octet>)
    requires |src| == 4 && |dst| == 4
    ensures Le(PseudoHeader(src, dst, proto, len) + data) ==
            Le(src + dst) + Le(data) + High(proto) as int + Swap(len) as int
  {
    var tail: seq<Octet> := [0, proto, len / 0x100, len % 0x100];
    assert PseudoHeader(src, dst, proto, len) + data == (src + dst) + (tail + data);
    LeSplit(src + dst, tail + data);
    TailSum(proto, len, data);
  }

  lemma PseudoSum(src: seq<Octet>, dst: seq<Octet>, proto: Octet, len: U16, data: seq<Octet>)
    requires |src| == 4 && |dst| == 4
    ensures Norm(Norm(Norm(Le(src + dst)) + Le(data)) + High(proto) + Swap(len)) ==
            OnesSum(PseudoHeader(src, dst, proto, len) + data)
  {
    PseudoLe(src, dst, proto, len, data);
    NormAdd(Le(src + dst), Le(data));
    NormAdd(Le(src + dst) + Le(data), High(proto) as int + Swap(len) as int);
    OnesSumIs(PseudoHeader(src, dst, proto, len) + data);
  }

  /** inet_chksum_pseudo: the RFC 1071 checksum of pseudo header and joined data, for every cut. */
  method ChksumPseudo(c: seq<Pbuf>, proto: Octet, len: U16, src: seq<Octet>, dst: seq<Octet>) returns (r: U16)
    requires Short(c) && |src| == 4 && |dst| == 4
    ensures r == Invert(OnesSum(PseudoHeader(src, dst, proto, len) + Flat(c)))
  {
    var acc := AddressSum(src, dst);
    acc := ChainSum(c, acc);
    PseudoSum(src, dst, proto, len, Flat(c));
    r := AddPseudo(acc, proto, len);
  }

  /** inet_chksum_pseudo_partial: that of the first `chksumLen` bytes. */
  method ChksumPseudoPartial(c: seq<Pbuf>, proto: Octet, len: U16, chksumLen: nat, src: seq<Octet>, dst: seq<Octet>)
      returns (r: U16)
    requires Short(c) && |src| == 4 && |dst| == 4
    ensures r == Invert(OnesSum(PseudoHeader(src, dst, proto, len) + First(Flat(c), chksumLen)))
  {
    var acc := AddressSum(src, dst);
    acc := PartialSum(c, chksumLen, acc);
    PseudoSum(src, dst, proto, len, First(Flat(c), chksumLen));
    r := AddPseudo(acc, proto, len);
  }

  // ---------------------------------------------------------------------------
  // The receiver
  // ---------------------------------------------------------------------------

  /** A word as it lies in memory. */
  function Stored(w: U16): seq<Octet> { [w % 0x100, w / 0x100] }

  /** What UDP sends: zero means `no checksum`. */
  function UdpChecksum(w: U16): U16 { if w == 0 then 0xffff else w }

  /** The sum over a packet in which a zero word was replaced by `w`. */
  lemma StoredSum(a: seq<Octet>, b: seq<Octet>, w: U16)
    requires |a| % 2 == 0
    ensures Le(a + Stored(w) + b) == Le(a + Stored(0) + b) + w
  {
    StoredAt(a, b, w);
    StoredAt(a, b, 0);
  }

  lemma StoredAt(a: seq<Octet>, b: seq<Octet>, w: U16)
    requires |a| % 2 == 0
    ensures Le(a + Stored(w) + b) == Le(a) + w + Le(b)
  {
    assert a + Stored(w) + b == a + (Stored(w) + b);
    LeSplit(a, Stored(w) + b);
    LeSplit(Stored(w), b);
    assert Stored(w)[2..] == [];
  }

  /**
    A checksum computed with a zero field and stored there makes the receiver's
    checksum zero, wherever the (even) field lies and whatever the packet is; so does
    the value that UDP sends instead of zero.
   */
  lemma StoredVerifies(a: seq<Octet>, b: seq<Octet>)
    requires |a| % 2 == 0
    ensures var w := Invert(OnesSum(a + Stored(0) + b));
      && Invert(OnesSum(a + Stored(w) + b)) == 0
      && Invert(OnesSum(a + Stored(UdpChecksum(w)) + b)) == 0
  {
    var s := a + Stored(0) + b;
    OnesSumIs(s);
    var n := Le(s);
    var w := Invert(Norm(n));
    var k := NormIs(n);
    StoredSum(a, b, w);
    OnesSumIs(a + Stored(w) + b);
    NormShift(0xffff, k);
    if w == 0 {
      StoredSum(a, b, 0xffff);
      OnesSumIs(a + Stored(0xffff) + b);
      NormShift(0xffff, k + 1);
    }
  }

  /** Any other value in the field is noticed: it verifies only if it is the same number in one's complement. */
  lemma OnlyTheChecksumVerifies(a: seq<Octet>, b: seq<Octet>, x: U16)
    requires |a| % 2 == 0
    ensures Invert(OnesSum(a + Stored(x) + b)) == 0 <==>
      var w := Invert(OnesSum(a + Stored(0) + b));
      UdpChecksum(x) == UdpChecksum(w) && (x > 0 || Le(a + Stored(0) + b) > 0)
  {
    var s := a + Stored(0) + b;
    OnesSumIs(s);
    OnesSumIs(a + Stored(x) + b);
    StoredSum(a, b, x);
    NormAdd(Le(s), x);
    var k := NormIs(Le(s));
  }
}
