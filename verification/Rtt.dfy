/**
  The round trip estimator of tcp_receive and the backed-off timeout of tcp_slowtmr,
  in ticks of the slow timer. All fields are signed 16-bit numbers.
 */
module Rtt {

  type S16 = x: int | -0x8000 <= x < 0x8000

  function Abs(x: int): nat { if x < 0 then -x else x }

  function Max(a: int, b: int): int { if a < b then b else a }

  /** 3000 ms in ticks of 500 ms. */
  const INITIAL: int := 6

  /** The smoothed time times 8, and the deviation times 4; `>>` of a signed number rounds down. */
  datatype Estimate = Estimate(sa: int, sv: int) {
    function Rto(): int { sa / 8 + sv }

    function Sample(m: int): Estimate {
      var err := m - sa / 8;
      Estimate(sa + err, sv + Abs(err) - sv / 4)
    }
  }

  /** The estimate after some samples. */
  function After(ms: seq<int>): Estimate {
    if ms == [] then Estimate(0, INITIAL) else After(ms[..|ms|-1]).Sample(ms[|ms|-1])
  }

  predicate Within(ms: seq<int>, r: int) {
    forall i :: 0 <= i < |ms| ==> 0 <= ms[i] <= r
  }

  predicate Bounded(e: Estimate, r: int) {
    0 <= e.sa <= 8 * r && 0 <= e.sv <= Max(4 * r, INITIAL)
  }

  lemma SampleKeeps(e: Estimate, m: int, r: int)
    requires 0 <= m <= r && Bounded(e, r)
    ensures Bounded(e.Sample(m), r) && -r <= m - e.sa / 8 <= r
  {
  }

  /** If no sample is larger than `r`, the estimate stays below `r` and the deviation below `4 r`. */
  lemma {:induction false} RunBounded(ms: seq<int>, r: int)
    requires 0 <= r && Within(ms, r)
    ensures Bounded(After(ms), r)
  {
    if ms != [] {
      RunBounded(ms[..|ms|-1], r);
      SampleKeeps(After(ms[..|ms|-1]), ms[|ms|-1], r);
    }
  }

  function Backoff(nrtx: nat): nat
    requires nrtx < 13
  {
    [1, 2, 3, 4, 5, 6, 7, 7, 7, 7, 7, 7, 7][nrtx]
  }

  function Shift(x: int, n: nat): int {
    if n == 0 then x else 2 * Shift(x, n - 1)
  }

  lemma ShiftBound(x: int, n: nat)
    requires 0 <= x && n <= 7
    ensures 0 <= Shift(x, n) <= 128 * x
  {
    assert Shift(x, 1) == 2 * x;
    assert Shift(x, 3) == 8 * x;
    assert Shift(x, 5) == 32 * x;
    assert Shift(x, 7) == 128 * x;
    ShiftGrows(x, n, 7);
  }

  lemma {:induction false} ShiftGrows(x: int, n: nat, k: nat)
    requires 0 <= x && n <= k
    ensures 0 <= Shift(x, n) <= Shift(x, k)
  {
    if n < k {
      ShiftGrows(x, n, k - 1);
    } else if n > 0 {
      ShiftGrows(x, n - 1, n - 1);
    }
  }

  /** Up to 51 ticks per round trip, every timeout of every run fits 16 bits however often it backs off. */
  lemma TimeoutFits(ms: seq<int>, r: int, nrtx: nat)
    requires 0 <= r <= 51 && Within(ms, r) && nrtx < 13
    ensures 0 <= Shift(After(ms).Rto(), Backoff(nrtx)) < 0x8000
  {
    RunBounded(ms, r);
    ShiftBound(After(ms).Rto(), Backoff(nrtx));
  }

  /** The timeout while the `nrtx`-th retransmission is waited for. */
  function TimeoutAt(rto: int, nrtx: nat): int
    requires nrtx < 13
  {
    Shift(rto, Backoff(nrtx))
  }

  /** Exponential backoff: the first retransmission waits twice the estimate, and each later one twice as long as the one before, up to 128 times. */
  lemma BackoffDoubles(rto: int, nrtx: nat)
    requires nrtx < 13
    ensures TimeoutAt(rto, 0) == 2 * rto
    ensures nrtx < 6 ==> TimeoutAt(rto, nrtx + 1) == 2 * TimeoutAt(rto, nrtx)
    ensures nrtx >= 6 ==> TimeoutAt(rto, nrtx) == 128 * rto
  {
    assert Shift(rto, 1) == 2 * rto && Shift(rto, 3) == 8 * rto && Shift(rto, 5) == 32 * rto && Shift(rto, 7) == 128 * rto;
  }

  // ---------------------------------------------------------------------------
  // A steady round trip time is learned
  // ---------------------------------------------------------------------------

  /** The estimate after `n` equal samples. */
  function Steady(e: Estimate, m: int, n: nat): Estimate {
    if n == 0 then e else Steady(e, m, n - 1).Sample(m)
  }

  /** How far the smoothed time is from saying `m`. */
  function Gap(e: Estimate, m: int): nat {
    if e.sa < 8 * m then 8 * m - e.sa else if e.sa > 8 * m + 7 then e.sa - (8 * m + 7) else 0
  }

  /** Each sample brings the smoothed time nearer, without going past; once it is right the deviation falls. */
  lemma SampleNearer(e: Estimate, m: int)
    requires 0 <= e.sv
    ensures var e' := e.Sample(m);
      && 0 <= e'.sv && (Gap(e, m) > 0 ==> Gap(e', m) < Gap(e, m))
      && (Gap(e, m) == 0 ==> e'.sa == e.sa && e'.sv == e.sv - e.sv / 4)
  {
  }

  lemma {:induction false} GapCloses(e: Estimate, m: int, n: nat)
    requires 0 <= e.sv
    ensures 0 <= Steady(e, m, n).sv && (Gap(e, m) <= n ==> Gap(Steady(e, m, n), m) == 0)
    ensures n < Gap(e, m) ==> Gap(Steady(e, m, n), m) <= Gap(e, m) - n
  {
    if n > 0 {
      GapCloses(e, m, n - 1);
      SampleNearer(Steady(e, m, n - 1), m);
    }
  }

  lemma {:induction false} DeviationFalls(e: Estimate, m: int, k: nat, n: nat)
    requires 0 <= e.sv && Gap(e, m) <= k
    ensures Gap(Steady(e, m, k + n), m) == 0 && 0 <= Steady(e, m, k + n).sv
    ensures Steady(e, m, k + n).sv <= (if Steady(e, m, k).sv - n > 3 then Steady(e, m, k).sv - n else 3)
  {
    GapCloses(e, m, k + n);
    if n > 0 {
      DeviationFalls(e, m, k, n - 1);
      GapCloses(e, m, k + n - 1);
      SampleNearer(Steady(e, m, k + n - 1), m);
    }
  }

  /** From whatever estimate: after enough equal samples of `m` ticks the smoothed time is `m`, and the timeout at most 3 ticks more, for good. */
  lemma SteadyLearned(e: Estimate, m: int) returns (n: nat)
    requires 0 <= e.sv
    ensures forall k :: n <= k ==> Steady(e, m, k).sa / 8 == m && m <= Steady(e, m, k).Rto() <= m + 3
  {
    var g := Gap(e, m);
    GapCloses(e, m, g);
    n := g + Steady(e, m, g).sv;
    forall k | n <= k ensures Steady(e, m, k).sa / 8 == m && m <= Steady(e, m, k).Rto() <= m + 3 {
      DeviationFalls(e, m, g, k - g);
    }
  }

  class Pcb {
    var sa: S16
    var sv: S16
    var rto: S16

    constructor ()
      ensures Estimate(sa, sv) == After([]) && rto == INITIAL
    {
      sa, sv, rto := 0, INITIAL, INITIAL;
    }

    /** A sample of `m` ticks: none of the 16-bit operations overflows. */
    method Sample(m0: S16, ghost ms: seq<int>, ghost r: int)
      requires 0 <= r <= 51 && Within(ms, r) && 0 <= m0 <= r && Estimate(sa, sv) == After(ms)
      modifies this
      ensures Estimate(sa, sv) == After(ms + [m0]) && rto == After(ms + [m0]).Rto()
    {
      RunBounded(ms, r);
      SampleKeeps(After(ms), m0, r);
      assert (ms + [m0])[..|ms|] == ms;
      var m: S16 := m0 - sa / 8;
      sa := sa + m;
      if m < 0 {
        m := -m;
      }
      m := m - sv / 4;
      sv := sv + m;
      rto := sa / 8 + sv;
    }

    /** The retransmission timer of an open connection ran out for the `nrtx`-th time. */
    method Timeout(nrtx: nat, ghost ms: seq<int>, ghost r: int)
      requires 0 <= r <= 51 && Within(ms, r) && Estimate(sa, sv) == After(ms) && nrtx < 13
      modifies this`rto
      ensures rto == Shift(After(ms).Rto(), Backoff(nrtx)) && 0 <= rto
    {
      TimeoutFits(ms, r, nrtx);
      rto := Shift(sa / 8 + sv, Backoff(nrtx));
    }
  }
}
