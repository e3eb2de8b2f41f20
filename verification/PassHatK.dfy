/** The pass^k estimator: for each task the chance that k trials drawn without replacement all succeed,
    averaged over tasks; and the harness around it. Exact reals. */
module PassHatK {
  import opened Basics

  function Comb(n: nat, k: nat): nat {
    if k == 0 then 1 else if n == 0 then 0 else Comb(n - 1, k - 1) + Comb(n - 1, k)
  }

  function TaskRate(c: nat, trials: nat, k: nat): real {
    if k > trials then 0.0
    else
      CombPositive(trials, k);
      Comb(Min(c, trials), k) as real / Comb(trials, k) as real
  }

  function SumRates(successes: seq<nat>, trials: nat, k: nat): real {
    if successes == [] then 0.0
    else SumRates(successes[..|successes| - 1], trials, k) + TaskRate(successes[|successes| - 1], trials, k)
  }

  /** `None` where the code raises: no trials. */
  function PassHatK(successes: seq<nat>, trials: int, k: nat): Option<real> {
    if trials <= 0 then None
    else if k > trials || successes == [] then Some(0.0)
    else Some(Mean(SumRates(successes, trials, k), |successes|))
  }

  function Mean(total: real, count: nat): real {
    if count == 0 then 0.0 else total / count as real
  }

  // ---------------------------------------------------------------- binomial coefficients

  lemma {:induction false} CombPositive(n: nat, k: nat)
    ensures Comb(n, k) > 0 <==> k <= n
  {
    if k > 0 && n > 0 {
      CombPositive(n - 1, k - 1);
      CombPositive(n - 1, k);
    }
  }

  lemma {:induction false} CombMonotone(c: nat, d: nat, k: nat)
    requires c <= d
    ensures Comb(c, k) <= Comb(d, k)
    decreases d
  {
    if k > 0 && c < d { CombMonotone(c, d - 1, k); }
  }

  /** (k + 1) C(n, k + 1) = (n - k) C(n, k). */
  lemma {:induction false} Absorption(n: nat, k: nat)
    requires k <= n
    ensures (k + 1) * Comb(n, k + 1) == (n - k) * Comb(n, k)
  {
    if n == 0 {
    } else if k == n {
      CombPositive(n, n + 1);
    } else if k == 0 {
      Absorption(n - 1, 0);
    } else {
      Absorption(n - 1, k);
      Absorption(n - 1, k - 1);
      AbsorptionStep(k + 1, n - 1 - k, k, n - k, Comb(n - 1, k + 1), Comb(n - 1, k), Comb(n - 1, k - 1));
    }
  }

  lemma AbsorptionStep(p: nat, q: nat, r: nat, t: nat, a: nat, b: nat, c: nat)
    requires p * a == q * b && r * b == t * c && p + q == r + t
    ensures p * (b + a) == t * (c + b)
  {
    Distributes(p, b, a);
    Distributes(t, c, b);
    Distributes(b, p, q);
    Distributes(b, r, t);
  }

  lemma Distributes(x: nat, y: nat, z: nat)
    ensures x * (y + z) == x * y + x * z
    ensures x * y == y * x && x * z == z * x
  {
  }

  // ---------------------------------------------------------------- what the estimate means

  /** The ways to draw `k` of the trials in `s`. */
  ghost function Draws(s: set<nat>, k: nat): set<set<nat>> {
    set t | t <= s && |t| == k
  }

  ghost function With(x: nat, ts: set<set<nat>>): set<set<nat>> {
    set t | t in ts :: t + {x}
  }

  lemma {:induction false} WithSize(x: nat, ts: set<set<nat>>)
    requires forall t :: t in ts ==> x !in t
    ensures |With(x, ts)| == |ts|
  {
    if ts == {} {
      assert With(x, ts) == {};
    } else {
      var t :| t in ts;
      WithSize(x, ts - {t});
      forall u | u in ts - {t}
        ensures u + {x} != t + {x}
      {
        assert (u + {x}) - {x} == u && (t + {x}) - {x} == t;
      }
      assert With(x, ts) == With(x, ts - {t}) + {t + {x}};
    }
  }

  lemma DrawsBase(s: set<nat>, k: nat)
    requires k == 0 || s == {}
    ensures |Draws(s, k)| == if k == 0 then 1 else 0
  {
    if k == 0 { assert Draws(s, 0) == {{}}; } else { assert Draws(s, k) == {}; }
  }

  /** The binomial coefficient counts the draws. */
  lemma {:induction false} DrawsAreCounted(s: set<nat>, k: nat)
    ensures |Draws(s, k)| == Comb(|s|, k)
  {
    if k == 0 || s == {} {
      DrawsBase(s, k);
    } else {
      var x :| x in s;
      var r := s - {x};
      DrawsAreCounted(r, k);
      DrawsAreCounted(r, k - 1);
      WithSize(x, Draws(r, k - 1));
      DrawsSplit(s, x, k);
      assert |Draws(r, k) + With(x, Draws(r, k - 1))| == |Draws(r, k)| + |With(x, Draws(r, k - 1))|;
      assert |r| == |s| - 1;
    }
  }

  lemma DrawsSplit(s: set<nat>, x: nat, k: nat)
    requires x in s && k > 0
    ensures Draws(s, k) == Draws(s - {x}, k) + With(x, Draws(s - {x}, k - 1))
    ensures Draws(s - {x}, k) !! With(x, Draws(s - {x}, k - 1))
  {
    forall t | t in Draws(s, k) && x in t
      ensures t in With(x, Draws(s - {x}, k - 1))
    {
      assert t - {x} in Draws(s - {x}, k - 1);
      assert t == (t - {x}) + {x};
    }
  }

  /** The estimate of a task is the share of all draws of k trials in which every drawn trial succeeded. */
  lemma RateIsShareOfDraws(all: set<nat>, succeeded: set<nat>, k: nat)
    requires succeeded <= all && k <= |all|
    ensures |Draws(all, k)| > 0
    ensures TaskRate(|succeeded|, |all|, k) == |Draws(succeeded, k)| as real / |Draws(all, k)| as real
    ensures forall t :: t in Draws(succeeded, k) <==> t in Draws(all, k) && t <= succeeded
  {
    assert all == succeeded + (all - succeeded);
    DrawsAreCounted(all, k);
    DrawsAreCounted(succeeded, k);
    CombPositive(|all|, k);
  }

  // ---------------------------------------------------------------- range and monotonicity

  lemma RateRange(c: nat, trials: nat, k: nat)
    ensures 0.0 <= TaskRate(c, trials, k) <= 1.0
  {
    if k <= trials {
      CombPositive(trials, k);
      CombMonotone(Min(c, trials), trials, k);
      QuotientRange(Comb(Min(c, trials), k), Comb(trials, k));
    }
  }

  lemma QuotientRange(x: nat, y: nat)
    requires x <= y && y > 0
    ensures 0.0 <= x as real / y as real <= 1.0
  {
  }

  lemma QuotientOrder(a: nat, b: nat, c: nat, d: nat)
    requires b > 0 && d > 0 && a * d <= c * b
    ensures a as real / b as real <= c as real / d as real
  {
    var p, q, e, f := a as real, b as real, c as real, d as real;
    assert p * f <= e * q;
    assert (p / q) * (q * f) == p * f;
    assert (e / f) * (q * f) == e * q;
    CancelFactor(p / q, e / f, q * f);
  }

  /** Asking for one more trial never helps. */
  lemma RateFallsInK(c: nat, trials: nat, k: nat)
    requires k < trials
    ensures TaskRate(c, trials, k + 1) <= TaskRate(c, trials, k)
  {
    var m := Min(c, trials);
    CombPositive(trials, k);
    CombPositive(trials, k + 1);
    CombPositive(m, k + 1);
    if k + 1 <= m {
      Absorption(m, k);
      Absorption(trials, k);
      CrossFalls(Comb(m, k), Comb(m, k + 1), Comb(trials, k), Comb(trials, k + 1), m - k, trials - k, k + 1);
    }
    QuotientOrder(Comb(m, k + 1), Comb(trials, k + 1), Comb(m, k), Comb(trials, k));
  }

  lemma CrossFalls(a: nat, a': nat, b: nat, b': nat, p: nat, q: nat, j: nat)
    requires j > 0 && j * a' == p * a && j * b' == q * b && p <= q
    ensures a' * b <= a * b'
  {
    var ab := a * b;
    assert j * (a' * b) == p * ab;
    assert j * (a * b') == q * ab;
    assert p * ab <= q * ab;
    CancelNat(a' * b, a * b', j);
  }

  lemma CancelNat(x: nat, y: nat, j: nat)
    requires j > 0 && j * x <= j * y
    ensures x <= y
  {
  }

  lemma SameDenominator(a: nat, c: nat, b: nat)
    requires b > 0 && a <= c
    ensures a as real / b as real <= c as real / b as real
  {
    assert a * b <= c * b;
    QuotientOrder(a, b, c, b);
  }

  lemma RateRisesInSuccesses(c: nat, d: nat, trials: nat, k: nat)
    requires c <= d
    ensures TaskRate(c, trials, k) <= TaskRate(d, trials, k)
  {
    if k <= trials {
      CombPositive(trials, k);
      CombMonotone(Min(c, trials), Min(d, trials), k);
      SameDenominator(Comb(Min(c, trials), k), Comb(Min(d, trials), k), Comb(trials, k));
    }
  }

  lemma {:induction false} SumRatesRange(successes: seq<nat>, trials: nat, k: nat)
    ensures 0.0 <= SumRates(successes, trials, k) <= |successes| as real
  {
    if successes != [] {
      SumRatesRange(successes[..|successes| - 1], trials, k);
      RateRange(successes[|successes| - 1], trials, k);
    }
  }

  lemma {:induction false} SumRatesFall(successes: seq<nat>, trials: nat, k: nat)
    requires k < trials
    ensures SumRates(successes, trials, k + 1) <= SumRates(successes, trials, k)
  {
    if successes != [] {
      SumRatesFall(successes[..|successes| - 1], trials, k);
      RateFallsInK(successes[|successes| - 1], trials, k);
    }
  }

  lemma {:induction false} SumRatesRise(a: seq<nat>, b: seq<nat>, trials: nat, k: nat)
    requires |a| == |b| && forall i :: 0 <= i < |a| ==> a[i] <= b[i]
    ensures SumRates(a, trials, k) <= SumRates(b, trials, k)
  {
    if a != [] {
      SumRatesRise(a[..|a| - 1], b[..|b| - 1], trials, k);
      RateRisesInSuccesses(a[|a| - 1], b[|b| - 1], trials, k);
    }
  }

  lemma DivideKeepsOrder(x: real, y: real, n: real)
    requires x <= y && n > 0.0
    ensures x / n <= y / n
  {
  }

  lemma DivideRange(x: real, n: real)
    requires 0.0 <= x <= n && n > 0.0
    ensures 0.0 <= x / n <= 1.0
  {
  }

  /** For every success table: pass^k is a fraction, does not grow with k, and does not fall when some tasks
      succeed more often. */
  lemma PassHatKShape(successes: seq<nat>, better: seq<nat>, trials: nat, k: nat)
    requires trials >= 1
    requires |successes| == |better| && forall i :: 0 <= i < |successes| ==> successes[i] <= better[i]
    ensures PassHatK(successes, trials, k).Some?
    ensures 0.0 <= PassHatK(successes, trials, k).value <= 1.0
    ensures PassHatK(successes, trials, k + 1).value <= PassHatK(successes, trials, k).value
    ensures PassHatK(successes, trials, k).value <= PassHatK(better, trials, k).value
  {
    if successes != [] && k <= trials {
      var n := |successes| as real;
      SumRatesRange(successes, trials, k);
      DivideRange(SumRates(successes, trials, k), n);
      SumRatesRise(successes, better, trials, k);
      DivideKeepsOrder(SumRates(successes, trials, k), SumRates(better, trials, k), n);
      if k < trials {
        SumRatesFall(successes, trials, k);
        DivideKeepsOrder(SumRates(successes, trials, k + 1), SumRates(successes, trials, k), n);
      }
    }
  }

  // ---------------------------------------------------------------- the harness

  function CountTrue(bs: seq<bool>): nat {
    if bs == [] then 0 else CountTrue(bs[..|bs| - 1]) + if bs[|bs| - 1] then 1 else 0
  }

  function Successes(results: seq<seq<bool>>): (s: seq<nat>)
    ensures |s| == |results|
  {
    if results == [] then [] else Successes(results[..|results| - 1]) + [CountTrue(results[|results| - 1])]
  }

  ghost function TruePositions(bs: seq<bool>): set<int> {
    set i | 0 <= i < |bs| && bs[i]
  }

  /** The successes of a task are its positions that came out true. */
  lemma {:induction false} SuccessesAreCounted(bs: seq<bool>)
    ensures CountTrue(bs) == |TruePositions(bs)|
  {
    if bs == [] {
      assert TruePositions(bs) == {};
    } else {
      var n := |bs| - 1;
      SuccessesAreCounted(bs[..n]);
      assert TruePositions(bs) == TruePositions(bs[..n]) + if bs[n] then {n} else {};
    }
  }

  /** All rewards in order, one per trial: 1.0 for a success, 0.0 otherwise. */
  function Rewards(results: seq<seq<bool>>): seq<real> {
    if results == [] then []
    else Rewards(results[..|results| - 1]) + RewardsOf(results[|results| - 1])
  }

  function RewardsOf(bs: seq<bool>): seq<real> {
    if bs == [] then [] else RewardsOf(bs[..|bs| - 1]) + [if bs[|bs| - 1] then 1.0 else 0.0]
  }

  function Sum(xs: seq<real>): real {
    if xs == [] then 0.0 else Sum(xs[..|xs| - 1]) + xs[|xs| - 1]
  }

  function Average(xs: seq<real>): real {
    Mean(Sum(xs), |xs|)
  }

  datatype Report = Report(passHatK: map<nat, real>, avgReward: real)

  predicate Uniform(results: seq<seq<bool>>, trials: nat) {
    forall i :: 0 <= i < |results| ==> |results[i]| == trials
  }

  /** `None` where the code raises: a task without exactly `trials` results. */
  function Aggregate(results: seq<seq<bool>>, trials: nat): Option<Report> {
    if !Uniform(results, trials) then None
    else Some(Report(map k | 1 <= k <= trials :: PassHatK(Successes(results), trials, k).value,
         Average(Rewards(results))))
  }

  lemma {:induction false} SumConcat(a: seq<real>, b: seq<real>)
    ensures Sum(a + b) == Sum(a) + Sum(b)
  {
    if b == [] {
      assert a + b == a;
    } else {
      SumConcat(a, b[..|b| - 1]);
      assert (a + b)[..|a + b| - 1] == a + b[..|b| - 1];
    }
  }

  lemma {:induction false} RewardsCount(bs: seq<bool>)
    ensures Sum(RewardsOf(bs)) == CountTrue(bs) as real && CountTrue(bs) <= |bs|
  {
    if bs != [] { RewardsCount(bs[..|bs| - 1]); }
  }

  lemma {:induction false} RewardsPerTask(bs: seq<bool>)
    ensures |RewardsOf(bs)| == |bs|
  {
    if bs != [] { RewardsPerTask(bs[..|bs| - 1]); }
  }

  lemma SingleRate(c: nat, trials: nat)
    requires c <= trials && trials >= 1
    ensures TaskRate(c, trials, 1) == Mean(c as real, trials)
  {
    CombOne(c);
    CombOne(trials);
  }

  lemma {:induction false} CombOne(n: nat)
    ensures Comb(n, 1) == n
  {
    if n > 0 { CombOne(n - 1); }
  }

  function Total(ns: seq<nat>): nat {
    if ns == [] then 0 else Total(ns[..|ns| - 1]) + ns[|ns| - 1]
  }

  lemma {:induction false} RewardsAreSuccesses(results: seq<seq<bool>>)
    ensures Sum(Rewards(results)) == Total(Successes(results)) as real
  {
    if results != [] {
      var n := |results| - 1;
      RewardsAreSuccesses(results[..n]);
      RewardsCount(results[n]);
      SumConcat(Rewards(results[..n]), RewardsOf(results[n]));
      var s := Successes(results);
      assert s[..n] == Successes(results[..n]);
    }
  }

  lemma {:induction false} SuccessesWithinTrials(results: seq<seq<bool>>, trials: nat)
    requires Uniform(results, trials)
    ensures forall i :: 0 <= i < |results| ==> Successes(results)[i] <= trials
  {
    if results != [] {
      var n := |results| - 1;
      SuccessesWithinTrials(results[..n], trials);
      RewardsCount(results[n]);
    }
  }

  lemma {:induction false} SingleRates(ns: seq<nat>, trials: nat)
    requires trials >= 1 && forall i :: 0 <= i < |ns| ==> ns[i] <= trials
    ensures SumRates(ns, trials, 1) == Mean(Total(ns) as real, trials)
  {
    if ns == [] {
      assert Mean(0.0, trials) == 0.0;
    } else {
      var n := |ns| - 1;
      SingleRates(ns[..n], trials);
      SingleRate(ns[n], trials);
      MeanAdds(Total(ns[..n]), ns[n], trials);
    }
  }

  lemma {:induction false} RewardsLength(results: seq<seq<bool>>, trials: nat)
    requires Uniform(results, trials)
    ensures |Rewards(results)| == Area(|results|, trials)
  {
    if results != [] {
      var n := |results| - 1;
      RewardsLength(results[..n], trials);
      RewardsPerTask(results[n]);
    }
  }

  /** `n` rows of `t`. */
  function Area(n: nat, t: nat): nat { if n == 0 then 0 else Area(n - 1, t) + t }

  lemma {:induction false} AreaIsProduct(n: nat, t: nat)
    ensures Area(n, t) == n * t
  {
    if n > 0 { AreaIsProduct(n - 1, t); }
  }

  lemma MeanAdds(x: nat, y: nat, t: nat)
    requires t > 0
    ensures Mean((x + y) as real, t) == Mean(x as real, t) + Mean(y as real, t)
  {
  }

  /** Through the harness, pass^1 is the average reward, exactly. */
  lemma PassOneIsAverageReward(results: seq<seq<bool>>, trials: nat)
    requires trials >= 1 && Aggregate(results, trials).Some?
    ensures var r := Aggregate(results, trials).value;
            1 in r.passHatK && r.passHatK[1] == r.avgReward
  {
    var r := Aggregate(results, trials).value;
    assert 1 in r.passHatK && r.passHatK[1] == PassHatK(Successes(results), trials, 1).value;
    PassOneValue(results, trials);
  }

  lemma PassOneValue(results: seq<seq<bool>>, trials: nat)
    requires trials >= 1 && Uniform(results, trials)
    ensures PassHatK(Successes(results), trials, 1).value == Average(Rewards(results))
  {
    if results == [] {
      assert Rewards(results) == [];
    } else {
      var successes, rewards := Successes(results), Rewards(results);
      SuccessesWithinTrials(results, trials);
      RewardsAreSuccesses(results);
      SingleRates(successes, trials);
      RewardsLength(results, trials);
      MeanOfMeans(Total(successes) as real, |results|, trials);
    }
  }

  /** Averaging over rows of equal length is averaging the row averages. */
  lemma MeanOfMeans(x: real, n: nat, t: nat)
    requires n > 0 && t > 0
    ensures Mean(Mean(x, t), n) == Mean(x, Area(n, t))
  {
    AreaIsProduct(n, t);
    Positive(n, t);
    assert (n * t) as real == n as real * t as real;
    ReduceFraction(x, n as real, t as real);
  }

  lemma Positive(n: nat, t: nat)
    requires n > 0 && t > 0
    ensures n * t > 0
  {
  }

  lemma ReduceFraction(x: real, n: real, t: real)
    requires n > 0.0 && t > 0.0
    ensures n * t > 0.0 && x / (n * t) == (x / t) / n
  {
    assert ((x / t) / n) * (n * t) == x;
    assert (x / (n * t)) * (n * t) == x;
    SameQuotient(x / (n * t), (x / t) / n, n * t);
  }

  lemma SameQuotient(x: real, y: real, d: real)
    requires d > 0.0 && x * d == y * d
    ensures x == y
  {
  }

  datatype EpisodeOutcome = EpisodeOutcome(reward: real, done: bool, infraError: bool)

  predicate Passed(o: EpisodeOutcome) { o.done && o.reward >= 1.0 }

  /** A task without exactly `trials` results is refused. */
  lemma AggregateRefusesIff(results: seq<seq<bool>>, trials: nat)
    ensures Aggregate(results, trials).None? <==> exists i :: 0 <= i < |results| && |results[i]| != trials
  {
  }

  /** No trials, no estimate; and beyond the number of trials it is zero. */
  lemma EstimateExistsIff(successes: seq<nat>, trials: int, k: nat)
    ensures PassHatK(successes, trials, k).None? <==> trials < 1
    ensures 1 <= trials < k ==> PassHatK(successes, trials, k) == Some(0.0)
    ensures 1 <= trials < k ==> forall c: nat :: TaskRate(c, trials, k) == 0.0
  {
  }

  /** Retries infrastructure errors only: what counts is the first attempt without one, and giving up means
      that every allowed attempt had one. */
  method RunWithRetry(attempt: nat -> EpisodeOutcome, retries: nat)
      returns (success: bool, infraFailed: bool, tries: nat)
    ensures tries <= retries
    ensures forall i :: 0 <= i < tries ==> attempt(i).infraError
    ensures infraFailed <==> forall i :: 0 <= i <= retries ==> attempt(i).infraError
    ensures !infraFailed ==> !attempt(tries).infraError
    ensures !infraFailed ==> (success <==> attempt(tries).done && attempt(tries).reward >= 1.0)
    ensures infraFailed ==> !success && tries == retries
  {
    tries := 0;
    var result := attempt(0);
    while result.infraError && tries < retries
      invariant tries <= retries && result == attempt(tries)
      invariant forall i :: 0 <= i < tries ==> attempt(i).infraError
    {
      result := attempt(tries + 1);
      tries := tries + 1;
    }
    if result.infraError { return false, true, tries; }
    return Passed(result), false, tries;
  }
}
