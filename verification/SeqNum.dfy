/**
  32-bit TCP sequence numbers and the comparison macros of
  lwip/priv/tcp_priv.h.

  A sequence number is the residue of an unbounded stream position. The models
  of the receiver and the sender keep the position and hand only its residue to
  the comparisons below, so a branch is taken on 32-bit values alone; the lemmas
  say when such a branch agrees with the order of the positions.
 */
module SeqNum {

  const M32: int := 0x1_0000_0000
  const H32: int := 0x8000_0000

  type U32 = x: int | 0 <= x < 0x1_0000_0000

  /** The sequence number that stands for position `p`. */
  function Wrap(p: int): U32 {
    p % M32
  }

  /** Unsigned 32-bit subtraction. */
  function Sub(a: U32, b: U32): U32 {
    (a - b) % M32
  }

  /** The cast from u32_t to s32_t. */
  function Signed(d: U32): int {
    if d < H32 then d else d - M32
  }

  predicate SeqLt(a: U32, b: U32) { Signed(Sub(a, b)) < 0 }
  predicate SeqLeq(a: U32, b: U32) { Signed(Sub(a, b)) <= 0 }
  predicate SeqGt(a: U32, b: U32) { Signed(Sub(a, b)) > 0 }
  predicate SeqGeq(a: U32, b: U32) { Signed(Sub(a, b)) >= 0 }

  /** TCP_SEQ_BETWEEN: is `b <= a <= c`? */
  predicate SeqBetween(a: U32, b: U32, c: U32) { SeqGeq(a, b) && SeqLeq(a, c) }

  /** Two positions less than half the number space apart. */
  predicate Near(p: int, q: int) {
    -H32 <= p - q < H32
  }

  /** Subtraction of sequence numbers is subtraction of positions, modulo 2^32. */
  lemma WrapSub(p: int, q: int)
    ensures Sub(Wrap(p), Wrap(q)) == Wrap(p - q)
  {
    var k, l := p / M32, q / M32;
    assert p - q == (Wrap(p) - Wrap(q)) + M32 * (k - l);
    WrapShift(Wrap(p) - Wrap(q), k - l);
  }

  lemma WrapShift(d: int, k: int)
    ensures (d + M32 * k) % M32 == d % M32
  {
    var r, q := d % M32, d / M32;
    assert d + M32 * k == M32 * (q + k) + r;
  }

  /** The signed difference of two sequence numbers is the true distance exactly for near positions. */
  lemma SignedDistance(p: int, q: int)
    ensures Signed(Sub(Wrap(p), Wrap(q))) == p - q <==> Near(p, q)
  {
    WrapSub(p, q);
    if Near(p, q) {
      if p - q < 0 {
        WrapShift(p - q, 1);
      }
    }
  }

  /** On near positions every comparison macro decides the order of the positions. */
  lemma NearOrder(p: int, q: int)
    requires Near(p, q)
    ensures SeqLt(Wrap(p), Wrap(q)) <==> p < q
    ensures SeqLeq(Wrap(p), Wrap(q)) <==> p <= q
    ensures SeqGt(Wrap(p), Wrap(q)) <==> p > q
    ensures SeqGeq(Wrap(p), Wrap(q)) <==> p >= q
    ensures Wrap(p) == Wrap(q) <==> p == q
  {
    SignedDistance(p, q);
  }

  /** No comparison depends on the initial sequence number: only differences count. */
  lemma OriginIrrelevant(p: int, q: int, origin: int)
    ensures Sub(Wrap(origin + p), Wrap(origin + q)) == Sub(Wrap(p), Wrap(q))
    ensures Wrap(origin + p) == Wrap(origin + q) <==> Wrap(p) == Wrap(q)
  {
    WrapSub(origin + p, origin + q);
    WrapSub(p, q);
    EqualIffNoDifference(Wrap(p), Wrap(q));
    EqualIffNoDifference(Wrap(origin + p), Wrap(origin + q));
  }

  lemma EqualIffNoDifference(a: U32, b: U32)
    ensures a == b <==> Sub(a, b) == 0
  {
    if a < b { WrapShift(a - b, 1); }
  }

  /** Half the number space is the limit: at distance 2^31 each of the two numbers counts as lower than the other. */
  lemma OrderLostAtHalf(p: int)
    ensures SeqLt(Wrap(p + H32), Wrap(p)) && SeqLt(Wrap(p), Wrap(p + H32))
  {
    WrapSub(p + H32, p);
    WrapSub(p, p + H32);
    WrapShift(H32, -1);
  }

  /** A distance below 2^16 survives the cast of the difference to u16_t. */
  lemma ShortDistance(p: int, q: int)
    requires 0 <= p - q < 0x1_0000
    ensures Sub(Wrap(p), Wrap(q)) % 0x1_0000 == Sub(Wrap(p), Wrap(q)) == p - q
  {
    WrapSub(p, q);
  }
}
