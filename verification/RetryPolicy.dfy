// The exponential back-off shared by the two worker queues.
// A draw of Math.random() is a real in [0, 1); the clock is a parameter.
module RetryPolicy {
  import opened Powers

  const BASE_MS := 1_000
  const CAP_MS := 900_000

  predicate Draw(random: real) {
    0.0 <= random < 1.0
  }

  function Min(a: int, b: int): int {
    if a < b then a else b
  }

  /** The delay before jitter: doubled from the second attempt on, capped at fifteen minutes. */
  function CappedExponential(attempt: int): (cap: int)
    ensures BASE_MS <= cap <= CAP_MS
  {
    Min(BASE_MS * Pow2(if attempt <= 1 then 0 else attempt - 1), CAP_MS)
  }

  /** Math.round on a non-negative number: halves go up. */
  function Round(x: real): int {
    (x + 0.5).Floor
  }

  function Spread(cap: int, random: real): real {
    cap as real * (0.75 + random * 0.5)
  }

  function Jittered(cap: int, random: real): int {
    Min(Round(Spread(cap, random)), CAP_MS)
  }

  function DelayMs(attempt: int, random: real): int {
    Jittered(CappedExponential(attempt), random)
  }

  /** `n` quarters of a delay, rounded like the delay itself. */
  function Quarters(cap: int, n: int): int {
    Round(cap as real * (n as real / 4.0))
  }

  function RetryAt(attempt: int, now: int, random: real): int {
    now + DelayMs(attempt, random)
  }

  /** The delay is the whole millisecond nearest to the jittered one, the later one at a half, and never more
      than fifteen minutes. */
  lemma DelayIsNearest(attempt: int, random: real)
    ensures var exact := CappedExponential(attempt) as real * (0.75 + random * 0.5);
            var delay := DelayMs(attempt, random);
            && delay <= 900_000 && delay as real <= exact + 0.5
            && (delay < 900_000 ==> exact - 0.5 < delay as real)
  {
    assert Round(Spread(CappedExponential(attempt), random)) as real <=
           Spread(CappedExponential(attempt), random) + 0.5;
  }

  lemma ProductNotNegative(a: real, b: real)
    requires a >= 0.0 && b >= 0.0
    ensures a * b >= 0.0
  {
  }

  lemma Distribute(a: real, b: real, c: real)
    ensures a * (b + c) == a * b + a * c
  {
  }

  lemma JitterBounds(cap: int, random: real)
    requires Draw(random) && cap >= 0
    ensures cap as real * 0.75 <= Spread(cap, random) <= cap as real * 1.25
  {
    var c, low, high := cap as real, random * 0.5, 0.5 - random * 0.5;
    ProductNotNegative(c, low);
    ProductNotNegative(c, high);
    Distribute(c, 0.75, low);
    Distribute(c, 0.75 + low, high);
    assert 0.75 + low + high == 1.25;
  }

  /** A cap of at least one second, jittered, stays within a quarter of itself. */
  lemma JitterBand(cap: int, random: real)
    requires Draw(random) && BASE_MS <= cap <= CAP_MS
    ensures Quarters(cap, 3) <= Jittered(cap, random) <= Min(Quarters(cap, 5), CAP_MS)
    ensures 750 <= Jittered(cap, random)
  {
    JitterBounds(cap, random);
  }

  /** Three quarters of the capped delay, at most five quarters, and never above the cap. */
  lemma DelayBand(attempt: int, random: real)
    requires Draw(random)
    ensures var cap := CappedExponential(attempt);
            Quarters(cap, 3) <= DelayMs(attempt, random) <= Min(Quarters(cap, 5), CAP_MS)
    ensures 750 <= DelayMs(attempt, random) <= CAP_MS
  {
    JitterBand(CappedExponential(attempt), random);
  }

  /** Every retry of either queue waits between 750 ms and fifteen minutes. */
  lemma RetryAtIsInTheFuture(attempt: int, now: int, random: real)
    requires Draw(random)
    ensures now + 750 <= RetryAt(attempt, now, random) <= now + CAP_MS
  {
    DelayBand(attempt, random);
  }

  /** The first ten caps are exact powers; from the eleventh attempt on the cap is reached. */
  lemma CapTable()
    ensures CappedExponential(1) == 1_000 && CappedExponential(2) == 2_000
    ensures CappedExponential(3) == 4_000 && CappedExponential(4) == 8_000
    ensures CappedExponential(5) == 16_000 && CappedExponential(6) == 32_000
    ensures CappedExponential(7) == 64_000 && CappedExponential(8) == 128_000
    ensures CappedExponential(9) == 256_000 && CappedExponential(10) == 512_000
    ensures CappedExponential(11) == CAP_MS
  {
  }

  lemma CapReached(attempt: int)
    requires attempt >= 11
    ensures CappedExponential(attempt) == CAP_MS
  {
    CapTable();
    assert Pow2(10) == 1024 by { assert Pow2(5) == 32; }
    Pow2Monotone(10, attempt - 1);
  }

  /** For attempts 1 to 11 the delays grow whatever the two draws are. */
  lemma DelaysGrowDespiteJitter(attempt: int, random: real, next: real)
    requires 1 <= attempt <= 10 && Draw(random) && Draw(next)
    ensures DelayMs(attempt, random) < DelayMs(attempt + 1, next)
  {
    CapTable();
    DelayBand(attempt, random);
    DelayBand(attempt + 1, next);
  }

  /** From the eleventh attempt on the growth stops: some pairs of draws make the next wait shorter. */
  lemma GrowthStopsAtTheCap(attempt: int)
    requires attempt >= 11
    ensures DelayMs(attempt, 0.25) > DelayMs(attempt + 1, 0.0)
  {
    CapReached(attempt);
    CapReached(attempt + 1);
  }

  function TotalWait(randoms: seq<real>): int {
    if randoms == [] then 0 else TotalWait(randoms[..|randoms| - 1]) + DelayMs(|randoms|, randoms[|randoms| - 1])
  }

  /** The seven waits that precede a dead letter add up to between 95.25 s and 158.75 s. */
  lemma WaitsBeforeDeadLetter(randoms: seq<real>)
    requires |randoms| == 7 && forall i :: 0 <= i < 7 ==> Draw(randoms[i])
    ensures 95_250 <= TotalWait(randoms) <= 158_750
  {
    CapTable();
    TotalWaitBand(randoms);
    assert Pow2(7) == 128;
  }

  lemma {:induction false} TotalWaitBand(randoms: seq<real>)
    requires |randoms| <= 7 && forall i :: 0 <= i < |randoms| ==> Draw(randoms[i])
    ensures 750 * (Pow2(|randoms|) - 1) <= TotalWait(randoms) <= 1_250 * (Pow2(|randoms|) - 1)
  {
    if randoms != [] {
      var n := |randoms|;
      TotalWaitBand(randoms[..n - 1]);
      CapTable();
      DelayBand(n, randoms[n - 1]);
      assert Pow2(6) == 64;
    }
  }
}
