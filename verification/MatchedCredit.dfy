/** The multi-bug retrieval score of one instance: coverage averages the best overlap per gold problem,
    precision credits only the best prediction per gold, F1 is their harmonic mean. Exact reals throughout. */
module MatchedCredit {
  import opened Basics

  type Evidence = seq<string>

  function Ids(e: Evidence): set<string> { set x | x in e }

  function Jaccard(a: Evidence, b: Evidence): real {
    if Ids(a) == {} && Ids(b) == {} then 0.0
    else
      NonemptyUnion(Ids(a), Ids(b));
      |Ids(a) * Ids(b)| as real / |Ids(a) + Ids(b)| as real
  }

  lemma NonemptyUnion(a: set<string>, b: set<string>)
    requires a != {} || b != {}
    ensures |a + b| > 0
  {
    assert a + b != {};
  }

  lemma Sizes(a: set<string>, b: set<string>)
    ensures |a * b| <= |a + b|
    ensures |a * b| == |a + b| <==> a == b
  {
    var difference := (a - b) + (b - a);
    assert a + b == (a * b) + difference;
    if |difference| == 0 {
      forall x
        ensures x in a <==> x in b
      {
        assert x !in difference;
      }
    } else {
      var x :| x in difference;
    }
  }

  lemma Ratio(x: nat, y: nat)
    requires 0 < y && x <= y
    ensures 0.0 <= x as real / y as real <= 1.0
    ensures x as real / y as real == 1.0 <==> x == y
  {
  }

  /** The overlap is a fraction, and whole exactly for equal, non-empty evidence. */
  lemma JaccardRange(a: Evidence, b: Evidence)
    ensures 0.0 <= Jaccard(a, b) <= 1.0
    ensures Jaccard(a, b) == 1.0 <==> Ids(a) == Ids(b) != {}
    ensures Jaccard(a, b) == Jaccard(b, a)
  {
    if Ids(a) != {} || Ids(b) != {} {
      NonemptyUnion(Ids(a), Ids(b));
      Sizes(Ids(a), Ids(b));
      Ratio(|Ids(a) * Ids(b)|, |Ids(a) + Ids(b)|);
      assert Ids(a) * Ids(b) == Ids(b) * Ids(a) && Ids(a) + Ids(b) == Ids(b) + Ids(a);
    }
  }

  lemma UnionSize(a: set<string>, b: set<string>)
    ensures |a + b| == |a| + |b| - |a * b|
  {
  }

  /** The overlap is the share of the shared ids in all ids of both. */
  lemma JaccardIsShare(a: Evidence, b: Evidence, shared: nat, all: nat)
    requires shared == |Ids(a) * Ids(b)| && all == |Ids(a)| + |Ids(b)| - shared
    ensures Jaccard(a, b) == if all == 0 then 0.0 else shared as real / all as real
  {
    UnionSize(Ids(a), Ids(b));
    if Ids(a) != {} || Ids(b) != {} { NonemptyUnion(Ids(a), Ids(b)); }
  }

  // ---------------------------------------------------------------- the score as a function

  /** The first prediction of the largest positive overlap with `g`, and that overlap. */
  datatype Match = Match(value: real, index: Option<nat>)

  function BestMatch(g: Evidence, preds: seq<Evidence>): Match {
    if preds == [] then Match(0.0, None)
    else
      var n := |preds| - 1;
      var before := BestMatch(g, preds[..n]);
      if Jaccard(g, preds[n]) > before.value then Match(Jaccard(g, preds[n]), Some(n)) else before
  }

  function SumBest(golds: seq<Evidence>, preds: seq<Evidence>): real {
    if golds == [] then 0.0
    else SumBest(golds[..|golds| - 1], preds) + BestMatch(golds[|golds| - 1], preds).value
  }

  /** The strongest gold credited to prediction `i`, zero when it is no gold's best. */
  function Credit(golds: seq<Evidence>, preds: seq<Evidence>, i: nat): real {
    if golds == [] then 0.0
    else
      var before, m := Credit(golds[..|golds| - 1], preds, i), BestMatch(golds[|golds| - 1], preds);
      if m.index == Some(i) && m.value > before then m.value else before
  }

  function SumCredits(golds: seq<Evidence>, preds: seq<Evidence>, n: nat): real {
    if n == 0 then 0.0 else SumCredits(golds, preds, n - 1) + Credit(golds, preds, n - 1)
  }

  function Coverage(golds: seq<Evidence>, preds: seq<Evidence>): real {
    if golds == [] || preds == [] then 0.0 else SumBest(golds, preds) / |golds| as real
  }

  function Precision(golds: seq<Evidence>, preds: seq<Evidence>): real {
    if golds == [] || preds == [] then 0.0 else SumCredits(golds, preds, |preds|) / |preds| as real
  }

  function HarmonicMean(x: real, y: real): real {
    if x <= 0.0 || y <= 0.0 then 0.0 else 2.0 * x * y / (x + y)
  }

  // ---------------------------------------------------------------- the score as computed

  method FindBest(g: Evidence, preds: seq<Evidence>) returns (m: Match)
    ensures m == BestMatch(g, preds)
  {
    m := Match(0.0, None);
    for i := 0 to |preds|
      invariant m == BestMatch(g, preds[..i])
    {
      assert preds[..i + 1][..i] == preds[..i];
      var value := Jaccard(g, preds[i]);
      if value > m.value { m := Match(value, Some(i)); }
    }
    assert preds[..|preds|] == preds;
  }

  method ScoreInstance(golds: seq<Evidence>, preds: seq<Evidence>) returns (coverage: real, precision: real, f1: real)
    ensures coverage == Coverage(golds, preds) && precision == Precision(golds, preds)
    ensures f1 == HarmonicMean(coverage, precision)
  {
    if golds == [] || preds == [] { return 0.0, 0.0, 0.0; }
    var sum := 0.0;
    var bestPredForGold: map<nat, real> := map[];
    for k := 0 to |golds|
      invariant sum == SumBest(golds[..k], preds)
      invariant forall i: nat ::
                  Credit(golds[..k], preds, i) == if i in bestPredForGold then bestPredForGold[i] else 0.0
    {
      assert golds[..k + 1][..k] == golds[..k];
      var m := FindBest(golds[k], preds);
      sum := sum + m.value;
      if m.index.Some? {
        var before := if m.index.value in bestPredForGold then bestPredForGold[m.index.value] else 0.0;
        bestPredForGold := bestPredForGold[m.index.value := if m.value > before then m.value else before];
      }
    }
    assert golds[..|golds|] == golds;
    var credits := 0.0;
    for i := 0 to |preds|
      invariant credits == SumCredits(golds, preds, i)
    {
      if i in bestPredForGold { credits := credits + bestPredForGold[i]; }
    }
    coverage, precision := sum / |golds| as real, credits / |preds| as real;
    f1 := HarmonicMean(coverage, precision);
  }

  // ---------------------------------------------------------------- ranges

  lemma {:induction false} BestMatchIsBest(g: Evidence, preds: seq<Evidence>)
    ensures var m := BestMatch(g, preds);
            && 0.0 <= m.value <= 1.0
            && (forall p :: p in preds ==> Jaccard(g, p) <= m.value)
            && (m.index.Some? ==> m.value > 0.0 &&
                                  forall j :: 0 <= j < m.index.value && j < |preds| ==> Jaccard(g, preds[j]) < m.value)
            && (if m.index.Some? then m.index.value < |preds| && Jaccard(g, preds[m.index.value]) == m.value
                else m.value == 0.0)
  {
    if preds != [] {
      var n := |preds| - 1;
      BestMatchIsBest(g, preds[..n]);
      JaccardRange(g, preds[n]);
      assert preds == preds[..n] + [preds[n]];
    }
  }

  lemma {:induction false} SumBestRange(golds: seq<Evidence>, preds: seq<Evidence>)
    ensures 0.0 <= SumBest(golds, preds) <= |golds| as real
  {
    if golds != [] {
      SumBestRange(golds[..|golds| - 1], preds);
      BestMatchIsBest(golds[|golds| - 1], preds);
    }
  }

  lemma {:induction false} CreditRange(golds: seq<Evidence>, preds: seq<Evidence>, i: nat)
    ensures 0.0 <= Credit(golds, preds, i) <= 1.0
    ensures i >= |preds| ==> Credit(golds, preds, i) == 0.0
  {
    if golds != [] {
      CreditRange(golds[..|golds| - 1], preds, i);
      BestMatchIsBest(golds[|golds| - 1], preds);
    }
  }

  lemma {:induction false} SumCreditsRange(golds: seq<Evidence>, preds: seq<Evidence>, n: nat)
    ensures 0.0 <= SumCredits(golds, preds, n) <= n as real
  {
    if n > 0 {
      SumCreditsRange(golds, preds, n - 1);
      CreditRange(golds, preds, n - 1);
    }
  }

  lemma QuotientRange(x: real, y: real)
    requires 0.0 <= x <= y && y > 0.0
    ensures 0.0 <= x / y <= 1.0
  {
  }

  /** Coverage and precision are fractions. */
  lemma ScoresAreFractions(golds: seq<Evidence>, preds: seq<Evidence>)
    ensures 0.0 <= Coverage(golds, preds) <= 1.0
    ensures 0.0 <= Precision(golds, preds) <= 1.0
  {
    if golds != [] && preds != [] {
      SumBestRange(golds, preds);
      SumCreditsRange(golds, preds, |preds|);
      QuotientRange(SumBest(golds, preds), |golds| as real);
      QuotientRange(SumCredits(golds, preds, |preds|), |preds| as real);
    }
  }

  /** That sum adds up over lists of golds. */
  lemma {:induction false} SumBestConcat(a: seq<Evidence>, b: seq<Evidence>, preds: seq<Evidence>)
    ensures SumBest(a + b, preds) == SumBest(a, preds) + SumBest(b, preds)
  {
    if b == [] {
      assert a + b == a;
    } else {
      SumBestConcat(a, b[..|b| - 1], preds);
      assert (a + b)[..|a + b| - 1] == a + b[..|b| - 1];
    }
  }

  /** Coverage is a mean: times the number of golds it is the sum of their best overlaps. */
  lemma CoverageIsMean(golds: seq<Evidence>, preds: seq<Evidence>)
    requires preds != []
    ensures |golds| as real * Coverage(golds, preds) == SumBest(golds, preds)
  {
    if golds != [] { TimesQuotient(SumBest(golds, preds), |golds| as real); }
  }

  /** Of one gold the coverage is its best overlap: some prediction has it and none exceeds it. */
  lemma CoverageOfOne(g: Evidence, preds: seq<Evidence>)
    requires preds != []
    ensures exists p :: p in preds && Coverage([g], preds) == Jaccard(g, p)
    ensures forall p :: p in preds ==> Jaccard(g, p) <= Coverage([g], preds)
  {
    var m := BestMatch(g, preds);
    BestMatchIsBest(g, preds);
    JaccardRange(g, preds[0]);
    assert [g][..0] == [];
    CoverageIsMean([g], preds);
    assert Coverage([g], preds) == m.value;
    assert preds[if m.index.Some? then m.index.value else 0] in preds;
  }

  /** Without golds or without predictions every score is zero. */
  lemma NothingScoresZero(golds: seq<Evidence>, preds: seq<Evidence>)
    requires golds == [] || preds == []
    ensures Coverage(golds, preds) == 0.0 && Precision(golds, preds) == 0.0
    ensures HarmonicMean(Coverage(golds, preds), Precision(golds, preds)) == 0.0
  {
  }

  // ---------------------------------------------------------------- credit is matched

  predicate Claims(g: Evidence, preds: seq<Evidence>, i: nat) { BestMatch(g, preds).index == Some(i) }

  /** The credit of a prediction is the strongest overlap among the golds whose best match it is, and zero
      when it is nobody's best match. */
  lemma {:induction false} CreditIsStrongest(golds: seq<Evidence>, preds: seq<Evidence>, i: nat)
    ensures forall g :: g in golds && Claims(g, preds, i) ==> BestMatch(g, preds).value <= Credit(golds, preds, i)
    ensures Credit(golds, preds, i) == 0.0
         || exists g :: g in golds && Claims(g, preds, i) && BestMatch(g, preds).value == Credit(golds, preds, i)
  {
    if golds != [] {
      var init, last := golds[..|golds| - 1], golds[|golds| - 1];
      CreditIsStrongest(init, preds, i);
      assert golds == init + [last];
      if Credit(golds, preds, i) != Credit(init, preds, i) {
        assert last in golds && Claims(last, preds, i);
      } else if Credit(init, preds, i) != 0.0 {
        var g :| g in init && Claims(g, preds, i) && BestMatch(g, preds).value == Credit(init, preds, i);
        assert g in golds;
      }
    }
  }

  lemma OneCredit(golds: seq<Evidence>, g: Evidence, preds: seq<Evidence>, i: nat)
    ensures Credit(golds + [g], preds, i) <= Credit(golds, preds, i) +
              if BestMatch(g, preds).index == Some(i) then BestMatch(g, preds).value else 0.0
  {
    assert (golds + [g])[..|golds|] == golds;
    CreditRange(golds, preds, i);
    BestMatchIsBest(g, preds);
  }

  /** One more gold adds at most its own best overlap to the credits. */
  lemma {:induction false} OneGoldsCredit(golds: seq<Evidence>, g: Evidence, preds: seq<Evidence>, n: nat)
    ensures var m := BestMatch(g, preds);
            SumCredits(golds + [g], preds, n) <= SumCredits(golds, preds, n) +
              if m.index.Some? && m.index.value < n then m.value else 0.0
  {
    if n > 0 {
      OneGoldsCredit(golds, g, preds, n - 1);
      OneCredit(golds, g, preds, n - 1);
    }
  }

  lemma {:induction false} CreditsWithinMatches(golds: seq<Evidence>, preds: seq<Evidence>)
    ensures SumCredits(golds, preds, |preds|) <= SumBest(golds, preds)
  {
    if golds == [] {
      NoGoldsNoCredit(preds, |preds|);
    } else {
      var init, g := golds[..|golds| - 1], golds[|golds| - 1];
      CreditsWithinMatches(init, preds);
      OneGoldsCredit(init, g, preds, |preds|);
      BestMatchIsBest(g, preds);
      assert golds == init + [g];
    }
  }

  lemma {:induction false} NoGoldsNoCredit(preds: seq<Evidence>, n: nat)
    ensures SumCredits([], preds, n) == 0.0
  {
    if n > 0 { NoGoldsNoCredit(preds, n - 1); }
  }

  /** No gold is credited twice: the total precision credit never exceeds the total coverage. */
  lemma CreditIsMatched(golds: seq<Evidence>, preds: seq<Evidence>)
    ensures |preds| as real * Precision(golds, preds) <= |golds| as real * Coverage(golds, preds)
  {
    if golds != [] && preds != [] {
      CreditsWithinMatches(golds, preds);
      TimesQuotient(SumCredits(golds, preds, |preds|), |preds| as real);
      TimesQuotient(SumBest(golds, preds), |golds| as real);
    }
  }

  lemma TimesQuotient(x: real, y: real)
    requires y > 0.0
    ensures y * (x / y) == x
  {
  }

  /** F1 lies between the two when both are positive, and is zero otherwise; it does not care which is which. */
  lemma F1IsBetween(x: real, y: real)
    ensures if x <= 0.0 || y <= 0.0 then HarmonicMean(x, y) == 0.0
            else (x <= y ==> x <= HarmonicMean(x, y) <= y) && (y <= x ==> y <= HarmonicMean(x, y) <= x)
    ensures HarmonicMean(x, y) == HarmonicMean(y, x)
  {
    if 0.0 < x <= y { HarmonicMeanBetween(x, y); }
    if 0.0 < y <= x { HarmonicMeanBetween(y, x); }
  }

  /** Twice its inverse is the sum of the inverses. */
  lemma F1IsHarmonic(x: real, y: real)
    requires x > 0.0 && y > 0.0
    ensures HarmonicMean(x, y) > 0.0 && 2.0 / HarmonicMean(x, y) == 1.0 / x + 1.0 / y
  {
    var s, h := x + y, HarmonicMean(x, y);
    assert x * y > 0.0;
    assert h * s == 2.0 * (x * y);
    PositiveFactor(h, s);
    assert h * (s / (x * y)) == 2.0;
    assert 1.0 / x + 1.0 / y == s / (x * y);
  }

  lemma PositiveFactor(h: real, s: real)
    requires s > 0.0 && h * s > 0.0
    ensures h > 0.0
  {
  }

  lemma HarmonicMeanBetween(x: real, y: real)
    requires 0.0 < x <= y
    ensures x <= HarmonicMean(x, y) <= y
    ensures HarmonicMean(x, y) == HarmonicMean(y, x)
  {
    var s := x + y;
    assert 2.0 * x * y - x * s == x * (y - x);
    assert y * s - 2.0 * x * y == y * (y - x);
    DivideBounds(x, 2.0 * x * y, y, s);
  }

  lemma DivideBounds(lo: real, v: real, hi: real, s: real)
    requires s > 0.0 && lo * s <= v <= hi * s
    ensures lo <= v / s <= hi
  {
    assert v == (v / s) * s;
    CancelFactor(lo, v / s, s);
    CancelFactor(v / s, hi, s);
  }

  // ---------------------------------------------------------------- duplicates

  lemma DuplicateNeverMatches(g: Evidence, preds: seq<Evidence>, i: nat)
    requires i < |preds|
    ensures BestMatch(g, preds + [preds[i]]) == BestMatch(g, preds)
  {
    BestMatchIsBest(g, preds);
    assert (preds + [preds[i]])[..|preds|] == preds;
  }

  lemma {:induction false} DuplicateKeepsSums(golds: seq<Evidence>, preds: seq<Evidence>, i: nat, k: nat)
    requires i < |preds|
    ensures SumBest(golds, preds + [preds[i]]) == SumBest(golds, preds)
    ensures Credit(golds, preds + [preds[i]], k) == Credit(golds, preds, k)
  {
    if golds != [] {
      DuplicateKeepsSums(golds[..|golds| - 1], preds, i, k);
      DuplicateNeverMatches(golds[|golds| - 1], preds, i);
    }
  }

  lemma {:induction false} DuplicateKeepsCredits(golds: seq<Evidence>, preds: seq<Evidence>, i: nat, n: nat)
    requires i < |preds|
    ensures SumCredits(golds, preds + [preds[i]], n) == SumCredits(golds, preds, n)
  {
    if n > 0 {
      DuplicateKeepsCredits(golds, preds, i, n - 1);
      DuplicateKeepsSums(golds, preds, i, n - 1);
    }
  }

  /** Appending a copy of a prediction leaves coverage as it is and scales precision by n / (n + 1), so it
      never raises it and lowers it exactly when it was positive. */
  lemma DuplicatesNeverPay(golds: seq<Evidence>, preds: seq<Evidence>, i: nat)
    requires i < |preds|
    ensures var more := preds + [preds[i]];
            && Coverage(golds, more) == Coverage(golds, preds)
            && |more| as real * Precision(golds, more) == |preds| as real * Precision(golds, preds)
            && Precision(golds, more) <= Precision(golds, preds)
            && (Precision(golds, more) < Precision(golds, preds) <==> Precision(golds, preds) > 0.0)
  {
    var more, n := preds + [preds[i]], |preds|;
    DuplicateKeepsSums(golds, preds, i, n);
    if golds != [] {
      DuplicateTotal(golds, preds, i);
      SumCreditsRange(golds, preds, n);
      Diluted(SumCredits(golds, preds, n), n);
    }
  }

  lemma DuplicateTotal(golds: seq<Evidence>, preds: seq<Evidence>, i: nat)
    requires i < |preds|
    ensures SumCredits(golds, preds + [preds[i]], |preds| + 1) == SumCredits(golds, preds, |preds|)
  {
    var n := |preds|;
    DuplicateKeepsSums(golds, preds, i, n);
    DuplicateKeepsCredits(golds, preds, i, n);
    CreditRange(golds, preds, n);
  }

  lemma Diluted(s: real, n: nat)
    requires n > 0 && s >= 0.0
    ensures var p, q := s / n as real, s / (n + 1) as real;
            (n + 1) as real * q == n as real * p && q <= p && (q < p <==> p > 0.0)
  {
    var p, q := s / n as real, s / (n + 1) as real;
    assert n as real * p == s && n as real * q + q == s;
    assert n as real * (p - q) == q;
  }

  // ---------------------------------------------------------------- when order does not matter

  lemma SameElements(a: seq<Evidence>, b: seq<Evidence>)
    requires multiset(a) == multiset(b)
    ensures |a| == |b| && forall p :: p in a <==> p in b
  {
    assert |multiset(a)| == |a| && |multiset(b)| == |b|;
    forall p
      ensures p in a <==> p in b
    {
      assert p in a <==> p in multiset(a);
      assert p in b <==> p in multiset(b);
    }
  }

  /** The best overlap does not depend on the order of the predictions. */
  lemma BestValueIgnoresOrder(g: Evidence, preds: seq<Evidence>, other: seq<Evidence>)
    requires forall p :: p in preds <==> p in other
    ensures BestMatch(g, preds).value == BestMatch(g, other).value
  {
    BestMatchIsBest(g, preds);
    BestMatchIsBest(g, other);
    var m, o := BestMatch(g, preds), BestMatch(g, other);
    assert m.index.Some? ==> preds[m.index.value] in other;
    assert o.index.Some? ==> other[o.index.value] in preds;
  }

  lemma {:induction false} SumBestIgnoresOrder(golds: seq<Evidence>, preds: seq<Evidence>, other: seq<Evidence>)
    requires forall p :: p in preds <==> p in other
    ensures SumBest(golds, preds) == SumBest(golds, other)
  {
    if golds != [] {
      SumBestIgnoresOrder(golds[..|golds| - 1], preds, other);
      BestValueIgnoresOrder(golds[|golds| - 1], preds, other);
    }
  }

  /** Coverage never depends on the order of the predictions. */
  lemma CoverageIgnoresOrder(golds: seq<Evidence>, preds: seq<Evidence>, other: seq<Evidence>)
    requires multiset(preds) == multiset(other)
    ensures Coverage(golds, preds) == Coverage(golds, other)
  {
    SameElements(preds, other);
    SumBestIgnoresOrder(golds, preds, other);
  }

  /** Predictions that tie for a gold's best overlap hold the same evidence. */
  predicate TiesAreCopies(golds: seq<Evidence>, preds: seq<Evidence>) {
    forall g :: g in golds ==> OneBestKind(g, preds)
  }

  predicate OneBestKind(g: Evidence, preds: seq<Evidence>) {
    forall p, q :: p in preds && q in preds && TiesForBest(g, p, preds) && TiesForBest(g, q, preds) ==> Ids(p) == Ids(q)
  }

  predicate TiesForBest(g: Evidence, p: Evidence, preds: seq<Evidence>) {
    Jaccard(g, p) == BestMatch(g, preds).value > 0.0
  }

  predicate FirstOfItsKind(preds: seq<Evidence>, i: int)
    requires 0 <= i < |preds|
  {
    forall j :: 0 <= j < i ==> Ids(preds[j]) != Ids(preds[i])
  }

  /** The best match of `g` holds exactly this evidence. */
  predicate ClaimsKind(g: Evidence, preds: seq<Evidence>, c: set<string>) {
    var m := BestMatch(g, preds);
    m.index.Some? && m.index.value < |preds| && Ids(preds[m.index.value]) == c
  }

  /** The strongest gold whose best match holds this evidence. */
  function KindCredit(golds: seq<Evidence>, preds: seq<Evidence>, c: set<string>): real {
    if golds == [] then 0.0
    else
      var before, g := KindCredit(golds[..|golds| - 1], preds, c), golds[|golds| - 1];
      if ClaimsKind(g, preds, c) && BestMatch(g, preds).value > before then BestMatch(g, preds).value else before
  }

  /** A best match is the first prediction with its evidence. */
  lemma MatchIsFirstOfItsKind(g: Evidence, preds: seq<Evidence>, i: nat)
    requires i < |preds|
    ensures BestMatch(g, preds).index == Some(i) <==> FirstOfItsKind(preds, i) && ClaimsKind(g, preds, Ids(preds[i]))
  {
    BestMatchIsBest(g, preds);
    var m := BestMatch(g, preds);
    if m.index.Some? {
      var k := m.index.value;
      forall j | 0 <= j < |preds| && Ids(preds[j]) == Ids(preds[k])
        ensures k <= j
      {
        assert Jaccard(g, preds[j]) == m.value;
      }
    }
  }

  lemma {:induction false} CreditIsOfKind(golds: seq<Evidence>, preds: seq<Evidence>, i: nat)
    requires i < |preds|
    ensures Credit(golds, preds, i) == if FirstOfItsKind(preds, i) then KindCredit(golds, preds, Ids(preds[i])) else 0.0
  {
    if golds != [] {
      CreditIsOfKind(golds[..|golds| - 1], preds, i);
      MatchIsFirstOfItsKind(golds[|golds| - 1], preds, i);
    }
  }

  function Kinds(preds: seq<Evidence>): set<set<string>> {
    set p | p in preds :: Ids(p)
  }

  ghost function KindSum(golds: seq<Evidence>, preds: seq<Evidence>, kinds: set<set<string>>): real {
    if kinds == {} then 0.0
    else
      var c :| c in kinds;
      KindCredit(golds, preds, c) + KindSum(golds, preds, kinds - {c})
  }

  lemma {:induction false} KindSumTakes(golds: seq<Evidence>, preds: seq<Evidence>, kinds: set<set<string>>,
      c: set<string>)
    requires c in kinds
    ensures KindSum(golds, preds, kinds) == KindCredit(golds, preds, c) + KindSum(golds, preds, kinds - {c})
    decreases kinds
  {
    var d :| d in kinds && KindSum(golds, preds, kinds) == KindCredit(golds, preds, d) +
        KindSum(golds, preds, kinds - {d});
    if d != c {
      KindSumTakes(golds, preds, kinds - {d}, c);
      KindSumTakes(golds, preds, kinds - {c}, d);
      assert kinds - {d} - {c} == kinds - {c} - {d};
    }
  }

  /** The credits of the first `n` predictions are those of the kinds of evidence among them. */
  lemma {:induction false} CreditsAreByKind(golds: seq<Evidence>, preds: seq<Evidence>, n: nat)
    requires n <= |preds|
    ensures SumCredits(golds, preds, n) == KindSum(golds, preds, Kinds(preds[..n]))
  {
    if n == 0 {
      assert Kinds(preds[..0]) == {};
    } else {
      var c, before := Ids(preds[n - 1]), Kinds(preds[..n - 1]);
      CreditsAreByKind(golds, preds, n - 1);
      CreditIsOfKind(golds, preds, n - 1);
      KindsSnoc(preds, n);
      if FirstOfItsKind(preds, n - 1) {
        KindSumTakes(golds, preds, before + {c}, c);
        assert before + {c} - {c} == before;
      } else {
        assert before + {c} == before;
      }
    }
  }

  lemma KindsSnoc(preds: seq<Evidence>, n: nat)
    requires 0 < n <= |preds|
    ensures Kinds(preds[..n]) == Kinds(preds[..n - 1]) + {Ids(preds[n - 1])}
    ensures FirstOfItsKind(preds, n - 1) <==> Ids(preds[n - 1]) !in Kinds(preds[..n - 1])
  {
    var init, p := preds[..n - 1], preds[n - 1];
    assert preds[..n] == init + [p];
    forall q | q in init
      ensures exists j :: 0 <= j < n - 1 && preds[j] == q
    {
      var j :| 0 <= j < |init| && init[j] == q;
      assert preds[j] == q;
    }
    assert forall j :: 0 <= j < n - 1 ==> preds[j] == init[j] && preds[j] in init;
  }

  /** Which kind of evidence a gold's best match holds does not depend on order either, unless kinds tie. */
  lemma ClaimIgnoresOrder(g: Evidence, preds: seq<Evidence>, other: seq<Evidence>, c: set<string>)
    requires forall p :: p in preds <==> p in other
    requires OneBestKind(g, preds)
    ensures BestMatch(g, preds).value == BestMatch(g, other).value
    ensures ClaimsKind(g, preds, c) <==> ClaimsKind(g, other, c)
  {
    BestValueIgnoresOrder(g, preds, other);
    BestMatchIsBest(g, preds);
    BestMatchIsBest(g, other);
    var m, o := BestMatch(g, preds), BestMatch(g, other);
    if m.index.Some? {
      var p, q := preds[m.index.value], other[o.index.value];
      assert p in preds && TiesForBest(g, p, preds);
      assert q in other && TiesForBest(g, q, preds);
    }
  }

  lemma {:induction false} KindCreditIgnoresOrder(golds: seq<Evidence>, preds: seq<Evidence>, other: seq<Evidence>,
      c: set<string>)
    requires forall p :: p in preds <==> p in other
    requires TiesAreCopies(golds, preds)
    ensures KindCredit(golds, preds, c) == KindCredit(golds, other, c)
  {
    if golds != [] {
      var init, g := golds[..|golds| - 1], golds[|golds| - 1];
      assert golds == init + [g];
      KindCreditIgnoresOrder(init, preds, other, c);
      ClaimIgnoresOrder(g, preds, other, c);
    }
  }

  lemma {:induction false} KindSumIgnoresOrder(golds: seq<Evidence>, preds: seq<Evidence>, other: seq<Evidence>,
      kinds: set<set<string>>)
    requires forall p :: p in preds <==> p in other
    requires TiesAreCopies(golds, preds)
    ensures KindSum(golds, preds, kinds) == KindSum(golds, other, kinds)
    decreases kinds
  {
    if kinds != {} {
      var c :| c in kinds;
      KindSumTakes(golds, preds, kinds, c);
      KindSumTakes(golds, other, kinds, c);
      KindCreditIgnoresOrder(golds, preds, other, c);
      KindSumIgnoresOrder(golds, preds, other, kinds - {c});
    }
  }

  /** Precision and F1 are the same for every order of the predictions whenever predictions that tie for a
      gold's best overlap hold the same evidence. */
  lemma PrecisionIgnoresOrderWithoutTies(golds: seq<Evidence>, preds: seq<Evidence>, other: seq<Evidence>)
    requires multiset(preds) == multiset(other)
    requires TiesAreCopies(golds, preds)
    ensures Precision(golds, preds) == Precision(golds, other)
    ensures HarmonicMean(Coverage(golds, preds), Precision(golds, preds))
         == HarmonicMean(Coverage(golds, other), Precision(golds, other))
  {
    SameElements(preds, other);
    CoverageIgnoresOrder(golds, preds, other);
    CreditsAreByKind(golds, preds, |preds|);
    CreditsAreByKind(golds, other, |other|);
    assert preds[..|preds|] == preds && other[..|other|] == other;
    assert Kinds(preds) == Kinds(other);
    KindSumIgnoresOrder(golds, preds, other, Kinds(preds));
  }

  // ---------------------------------------------------------------- order matters

  /** The same predictions in another order can score another precision: a tie goes to the earlier one. */
  lemma PrecisionDependsOnOrder()
    ensures var golds, p, q := [["a", "b"], ["a"]], ["a"], ["b"];
            Precision(golds, [p, q]) == 0.5 && Precision(golds, [q, p]) == 0.75
  {
    var g, h, p, q := ["a", "b"], ["a"], ["a"], ["b"];
    TieOverlaps();
    TwoMatches(g, p, q);
    TwoMatches(h, p, q);
    TwoMatches(g, q, p);
    TwoMatches(h, q, p);
    TwoCredits(g, h, [p, q]);
    TwoCredits(g, h, [q, p]);
  }

  lemma TieOverlaps()
    ensures Jaccard(["a", "b"], ["a"]) == 0.5 && Jaccard(["a", "b"], ["b"]) == 0.5
    ensures Jaccard(["a"], ["a"]) == 1.0 && Jaccard(["a"], ["b"]) == 0.0
  {
    assert Ids(["a", "b"]) == {"a", "b"} && Ids(["a"]) == {"a"} && Ids(["b"]) == {"b"};
    assert {"a", "b"} * {"a"} == {"a"} && {"a", "b"} + {"a"} == {"a", "b"};
    assert {"a", "b"} * {"b"} == {"b"} && {"a", "b"} + {"b"} == {"a", "b"};
    assert {"a"} * {"b"} == {};
    assert "a"[0] != "b"[0];
    JaccardRange(["a"], ["a"]);
  }

  lemma TwoMatches(g: Evidence, p: Evidence, q: Evidence)
    requires Jaccard(g, p) >= 0.0
    ensures BestMatch(g, [p, q]) ==
            if Jaccard(g, q) > Jaccard(g, p) then Match(Jaccard(g, q), Some(1))
            else if Jaccard(g, p) > 0.0 then Match(Jaccard(g, p), Some(0))
            else Match(0.0, None)
  {
    assert [p, q][..1] == [p] && [p][..0] == [];
    assert BestMatch(g, [p]) == if Jaccard(g, p) > 0.0 then Match(Jaccard(g, p), Some(0)) else Match(0.0, None);
  }

  function Stronger(before: real, m: Match, i: nat): real {
    if m.index == Some(i) && m.value > before then m.value else before
  }

  lemma CreditOfTwo(g: Evidence, h: Evidence, preds: seq<Evidence>, i: nat)
    ensures Credit([g, h], preds, i) == Stronger(Stronger(0.0, BestMatch(g, preds), i), BestMatch(h, preds), i)
  {
    assert [g, h][..1] == [g] && [g][..0] == [];
    assert Credit([g], preds, i) == Stronger(0.0, BestMatch(g, preds), i);
  }

  lemma TwoCredits(g: Evidence, h: Evidence, preds: seq<Evidence>)
    ensures SumCredits([g, h], preds, 2)
         == Stronger(Stronger(0.0, BestMatch(g, preds), 0), BestMatch(h, preds), 0)
            + Stronger(Stronger(0.0, BestMatch(g, preds), 1), BestMatch(h, preds), 1)
  {
    CreditOfTwo(g, h, preds, 0);
    CreditOfTwo(g, h, preds, 1);
    assert SumCredits([g, h], preds, 1) == SumCredits([g, h], preds, 0) + Credit([g, h], preds, 0);
  }
}
