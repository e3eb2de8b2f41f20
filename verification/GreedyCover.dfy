/** Greedy covering: repeatedly take the first candidate that covers the most still-uncovered pairs. Stated for
    any candidates and any pairs they carry. */
module GreedyCover {
  import opened Basics

  function Gain<T, P(==)>(pairs: T -> set<P>, x: T, covered: set<P>): nat {
    |pairs(x) - covered|
  }

  /** The first candidate of the largest positive gain, if any. */
  function Best<T, P(==)>(pairs: T -> set<P>, xs: seq<T>, covered: set<P>): Option<T> {
    if xs == [] then None
    else Better(pairs, Best(pairs, xs[..|xs| - 1], covered), xs[|xs| - 1], covered)
  }

  function Better<T, P(==)>(pairs: T -> set<P>, b: Option<T>, x: T, covered: set<P>): Option<T> {
    if Gain(pairs, x, covered) > BestGain(pairs, b, covered) then Some(x) else b
  }

  function BestGain<T, P(==)>(pairs: T -> set<P>, b: Option<T>, covered: set<P>): nat {
    if b.Some? then Gain(pairs, b.value, covered) else 0
  }

  lemma {:induction false} BestIsBest<T, P>(pairs: T -> set<P>, xs: seq<T>, covered: set<P>)
    ensures var b := Best(pairs, xs, covered);
            && (b.Some? ==> b.value in xs && Gain(pairs, b.value, covered) > 0)
            && (forall x :: x in xs ==> Gain(pairs, x, covered) <= BestGain(pairs, b, covered))
  {
    if xs != [] {
      BestIsBest(pairs, xs[..|xs| - 1], covered);
      assert xs == xs[..|xs| - 1] + [xs[|xs| - 1]];
    }
  }

  /** And among equals it is the first. */
  lemma {:induction false} BestIsFirst<T, P>(pairs: T -> set<P>, xs: seq<T>, covered: set<P>)
    requires Best(pairs, xs, covered).Some?
    ensures var b := Best(pairs, xs, covered).value;
            exists i :: 0 <= i < |xs| && xs[i] == b &&
              forall j :: 0 <= j < i ==> Gain(pairs, xs[j], covered) < Gain(pairs, b, covered)
  {
    var n := |xs| - 1;
    var before, b := Best(pairs, xs[..n], covered), Best(pairs, xs, covered).value;
    BestIsBest(pairs, xs[..n], covered);
    if Gain(pairs, xs[n], covered) > BestGain(pairs, before, covered) {
      assert xs[n] == b;
      assert forall j :: 0 <= j < n ==> xs[j] == xs[..n][j] && xs[j] in xs[..n];
    } else {
      BestIsFirst(pairs, xs[..n], covered);
      var i :| 0 <= i < n && xs[..n][i] == b &&
        forall j :: 0 <= j < i ==> Gain(pairs, xs[..n][j], covered) < Gain(pairs, b, covered);
      assert xs[i] == b && forall j :: 0 <= j < i ==> xs[j] == xs[..n][j];
    }
  }

  function AllPairs<T, P(==)>(pairs: T -> set<P>, xs: seq<T>): set<P> {
    if xs == [] then {} else AllPairs(pairs, xs[..|xs| - 1]) + pairs(xs[|xs| - 1])
  }

  lemma {:induction false} PairsOfMember<T, P>(pairs: T -> set<P>, xs: seq<T>, x: T)
    requires x in xs
    ensures pairs(x) <= AllPairs(pairs, xs)
  {
    if xs[|xs| - 1] != x { PairsOfMember(pairs, xs[..|xs| - 1], x); }
  }

  lemma {:induction false} AllPairsWithin<T, P>(pairs: T -> set<P>, xs: seq<T>, bound: set<P>)
    requires forall x :: x in xs ==> pairs(x) <= bound
    ensures AllPairs(pairs, xs) <= bound
  {
    if xs != [] { AllPairsWithin(pairs, xs[..|xs| - 1], bound); }
  }

  lemma PickShrinks<T, P>(pairs: T -> set<P>, xs: seq<T>, x: T, covered: set<P>)
    requires x in xs
    ensures |AllPairs(pairs, xs) - (covered + pairs(x))| == |AllPairs(pairs, xs) - covered| - Gain(pairs, x, covered)
  {
    PairsOfMember(pairs, xs, x);
    var all := AllPairs(pairs, xs);
    assert all - covered == (all - (covered + pairs(x))) + (pairs(x) - covered);
  }

  /** The picks made from `covered` on, in order. */
  function Greedy<T, P(==)>(pairs: T -> set<P>, xs: seq<T>, covered: set<P>): seq<T>
    decreases |AllPairs(pairs, xs) - covered|
  {
    match Best(pairs, xs, covered)
    case None => []
    case Some(x) =>
      BestIsBest(pairs, xs, covered);
      PickShrinks(pairs, xs, x, covered);
      [x] + Greedy(pairs, xs, covered + pairs(x))
  }

  // ---------------------------------------------------------------- the loop that removes its picks

  /** `rest` is `xs` without some candidates that have nothing left to add. */
  ghost predicate Thinned<T, P>(pairs: T -> set<P>, rest: seq<T>, xs: seq<T>, covered: set<P>)
    decreases |xs|
  {
    if xs == [] then rest == []
    else
      var init, x := xs[..|xs| - 1], xs[|xs| - 1];
      || (rest != [] && rest[|rest| - 1] == x && Thinned(pairs, rest[..|rest| - 1], init, covered))
      || (Gain(pairs, x, covered) == 0 && Thinned(pairs, rest, init, covered))
  }

  lemma {:induction false} ThinnedReflexive<T, P>(pairs: T -> set<P>, xs: seq<T>, covered: set<P>)
    ensures Thinned(pairs, xs, xs, covered)
  {
    if xs != [] { ThinnedReflexive(pairs, xs[..|xs| - 1], covered); }
  }

  /** Thinning never changes the choice. */
  lemma {:induction false} ThinnedBest<T, P>(pairs: T -> set<P>, rest: seq<T>, xs: seq<T>, covered: set<P>)
    requires Thinned(pairs, rest, xs, covered)
    ensures Best(pairs, rest, covered) == Best(pairs, xs, covered)
    decreases |xs|
  {
    if xs != [] {
      var init, x := xs[..|xs| - 1], xs[|xs| - 1];
      if rest != [] && rest[|rest| - 1] == x && Thinned(pairs, rest[..|rest| - 1], init, covered) {
        ThinnedBest(pairs, rest[..|rest| - 1], init, covered);
      } else {
        ThinnedBest(pairs, rest, init, covered);
      }
    }
  }

  lemma GainShrinks<T, P>(pairs: T -> set<P>, x: T, covered: set<P>, more: set<P>)
    requires covered <= more
    ensures Gain(pairs, x, covered) == 0 ==> Gain(pairs, x, more) == 0
    ensures pairs(x) <= more ==> Gain(pairs, x, more) == 0
  {
    if Gain(pairs, x, covered) == 0 {
      assert pairs(x) - covered == {};
      assert pairs(x) - more == {};
    }
    if pairs(x) <= more { assert pairs(x) - more == {}; }
  }

  /** Removing a candidate that is covered by now keeps the list thinned. */
  lemma {:induction false} ThinnedRemove<T, P>(pairs: T -> set<P>, rest: seq<T>, xs: seq<T>, covered: set<P>,
                                               more: set<P>, i: nat)
    requires Thinned(pairs, rest, xs, covered) && covered <= more
    requires i < |rest| && pairs(rest[i]) <= more
    ensures Thinned(pairs, rest[..i] + rest[i + 1..], xs, more)
    decreases |xs|
  {
    var init, x := xs[..|xs| - 1], xs[|xs| - 1];
    GainShrinks(pairs, x, covered, more);
    var out := rest[..i] + rest[i + 1..];
    if rest[|rest| - 1] == x && Thinned(pairs, rest[..|rest| - 1], init, covered) {
      var front := rest[..|rest| - 1];
      if i == |rest| - 1 {
        assert out == front;
        ThinnedGrow(pairs, front, init, covered, more);
      } else {
        ThinnedRemove(pairs, front, init, covered, more, i);
        assert out[..|out| - 1] == front[..i] + front[i + 1..];
      }
    } else {
      ThinnedRemove(pairs, rest, init, covered, more, i);
    }
  }

  lemma {:induction false} ThinnedGrow<T,
      P>(pairs: T -> set<P>, rest: seq<T>, xs: seq<T>, covered: set<P>, more: set<P>)
    requires Thinned(pairs, rest, xs, covered) && covered <= more
    ensures Thinned(pairs, rest, xs, more)
    decreases |xs|
  {
    if xs != [] {
      var init, x := xs[..|xs| - 1], xs[|xs| - 1];
      GainShrinks(pairs, x, covered, more);
      if rest != [] && rest[|rest| - 1] == x && Thinned(pairs, rest[..|rest| - 1], init, covered) {
        ThinnedGrow(pairs, rest[..|rest| - 1], init, covered, more);
      } else {
        ThinnedGrow(pairs, rest, init, covered, more);
      }
    }
  }

  /** The first candidate of maximal gain is the choice, if it gains anything. */
  lemma {:induction false} FirstMaximumIsBest<T, P>(pairs: T -> set<P>, xs: seq<T>, covered: set<P>, i: nat)
    requires i < |xs|
    requires forall j :: 0 <= j < |xs| ==> Gain(pairs, xs[j], covered) <= Gain(pairs, xs[i], covered)
    requires forall j :: 0 <= j < i ==> Gain(pairs, xs[j], covered) < Gain(pairs, xs[i], covered)
    ensures Best(pairs, xs, covered) == if Gain(pairs, xs[i], covered) > 0 then Some(xs[i]) else None
  {
    var init := xs[..|xs| - 1];
    if i == |xs| - 1 {
      BestIsBest(pairs, init, covered);
      if i > 0 { assert Gain(pairs, xs[0], covered) < Gain(pairs, xs[i], covered); }
    } else {
      FirstMaximumIsBest(pairs, init, covered, i);
    }
  }

  method BestIndex<T, P(==)>(pairs: T -> set<P>, xs: seq<T>, covered: set<P>) returns (i: nat)
    requires xs != []
    ensures i < |xs|
    ensures forall j :: 0 <= j < |xs| ==> Gain(pairs, xs[j], covered) <= Gain(pairs, xs[i], covered)
    ensures forall j :: 0 <= j < i ==> Gain(pairs, xs[j], covered) < Gain(pairs, xs[i], covered)
    ensures Best(pairs, xs, covered) == if Gain(pairs, xs[i], covered) > 0 then Some(xs[i]) else None
  {
    i := 0;
    for j := 1 to |xs|
      invariant i < j
      invariant forall h :: 0 <= h < j ==> Gain(pairs, xs[h], covered) <= Gain(pairs, xs[i], covered)
      invariant forall h :: 0 <= h < i ==> Gain(pairs, xs[h], covered) < Gain(pairs, xs[i], covered)
    {
      if Gain(pairs, xs[j], covered) > Gain(pairs, xs[i], covered) { i := j; }
    }
    FirstMaximumIsBest(pairs, xs, covered, i);
  }

  method CollectPairs<T, P(==)>(pairs: T -> set<P>, xs: seq<T>) returns (all: set<P>)
    ensures all == AllPairs(pairs, xs)
  {
    all := {};
    for i := 0 to |xs|
      invariant all == AllPairs(pairs, xs[..i])
    {
      assert xs[..i + 1][..i] == xs[..i];
      all := all + pairs(xs[i]);
    }
    assert xs[..|xs|] == xs;
  }

  /** The selection loop. Its picks are those of the loop-free description, which removes nothing. */
  method SelectCover<T, P(==)>(pairs: T -> set<P>, matrix: seq<T>) returns (chosen: seq<T>)
    ensures chosen == Greedy(pairs, matrix, {})
  {
    var all := CollectPairs(pairs, matrix);
    var covered: set<P>, remaining := {}, matrix;
    chosen := [];
    ThinnedReflexive(pairs, matrix, covered);
    while covered != all && remaining != []
      invariant Thinned(pairs, remaining, matrix, covered)
      invariant chosen + Greedy(pairs, matrix, covered) == Greedy(pairs, matrix, {})
      decreases |remaining|
    {
      var i := BestIndex(pairs, remaining, covered);
      var best := remaining[i];
      ThinnedBest(pairs, remaining, matrix, covered);
      ZeroGain(pairs, best, covered);
      if pairs(best) - covered == {} { break; }
      ThinnedRemove(pairs, remaining, matrix, covered, covered + pairs(best), i);
      GreedyStep(pairs, matrix, covered, chosen, best);
      covered, chosen, remaining := covered + pairs(best), chosen + [best], remaining[..i] + remaining[i + 1..];
    }
    ThinnedBest(pairs, remaining, matrix, covered);
    if covered == all { CoveredLeavesNothing(pairs, matrix, covered); }
    assert chosen + [] == chosen;
  }

  lemma GreedyStep<T, P>(pairs: T -> set<P>, xs: seq<T>, covered: set<P>, chosen: seq<T>, best: T)
    requires Best(pairs, xs, covered) == Some(best)
    ensures chosen + Greedy(pairs, xs, covered) == chosen + [best] + Greedy(pairs, xs, covered + pairs(best))
  {
    assert chosen + ([best] + Greedy(pairs, xs, covered + pairs(best)))
        == chosen + [best] + Greedy(pairs, xs, covered + pairs(best));
  }

  lemma ZeroGain<T, P>(pairs: T -> set<P>, x: T, covered: set<P>)
    ensures Gain(pairs, x, covered) == 0 <==> pairs(x) <= covered
    ensures Gain(pairs, x, covered) == 0 <==> pairs(x) - covered == {}
  {
    if pairs(x) <= covered { assert pairs(x) - covered == {}; }
    if pairs(x) - covered == {} {
      forall p | p in pairs(x) ensures p in covered { assert p !in pairs(x) - covered; }
    }
  }

  lemma CoveredLeavesNothing<T, P>(pairs: T -> set<P>, xs: seq<T>, covered: set<P>)
    requires AllPairs(pairs, xs) <= covered
    ensures Best(pairs, xs, covered) == None
  {
    forall x | x in xs
      ensures Gain(pairs, x, covered) == 0
    {
      PairsOfMember(pairs, xs, x);
      ZeroGain(pairs, x, covered);
    }
    BestIsBest(pairs, xs, covered);
  }

  // ---------------------------------------------------------------- what the picks achieve

  lemma {:induction false} AllPairsCons<T, P>(pairs: T -> set<P>, x: T, xs: seq<T>)
    ensures AllPairs(pairs, [x] + xs) == pairs(x) + AllPairs(pairs, xs)
  {
    if xs == [] {
      assert [x] + xs == [x];
      assert [x][..0] == [];
    } else {
      AllPairsCons(pairs, x, xs[..|xs| - 1]);
      assert ([x] + xs)[..|xs|] == [x] + xs[..|xs| - 1];
    }
  }

  /** The picks cover every pair, come from the candidates, and number at most one per pair. */
  lemma {:induction false} GreedyCovers<T, P>(pairs: T -> set<P>, xs: seq<T>, covered: set<P>)
    ensures AllPairs(pairs, xs) <= covered + AllPairs(pairs, Greedy(pairs, xs, covered))
    ensures forall x :: x in Greedy(pairs, xs, covered) ==> x in xs
    ensures |Greedy(pairs, xs, covered)| <= |AllPairs(pairs, xs) - covered|
    decreases |AllPairs(pairs, xs) - covered|
  {
    BestIsBest(pairs, xs, covered);
    match Best(pairs, xs, covered)
    case None =>
      forall x | x in xs
        ensures pairs(x) <= covered
      {
        ZeroGain(pairs, x, covered);
      }
      AllPairsWithin(pairs, xs, covered);
    case Some(x) =>
      PickShrinks(pairs, xs, x, covered);
      var rest := Greedy(pairs, xs, covered + pairs(x));
      GreedyCovers(pairs, xs, covered + pairs(x));
      AllPairsCons(pairs, x, rest);
  }

  /** What a list adds is at most its length times the best single gain. */
  lemma {:induction false} GainsBound<T, P>(pairs: T -> set<P>, cover: seq<T>, covered: set<P>, g: nat)
    requires forall x :: x in cover ==> Gain(pairs, x, covered) <= g
    ensures |AllPairs(pairs, cover) - covered| <= |cover| * g
  {
    if cover == [] {
      assert AllPairs(pairs, cover) - covered == {};
    } else {
      var n := |cover| - 1;
      GainsBound(pairs, cover[..n], covered, g);
      DifferenceOfUnion(AllPairs(pairs, cover[..n]), pairs(cover[n]), covered);
      assert Gain(pairs, cover[n], covered) <= g;
      assert (n + 1) * g == n * g + g;
    }
  }

  lemma DifferenceOfUnion<P>(a: set<P>, b: set<P>, c: set<P>)
    ensures |(a + b) - c| <= |a - c| + |b - c|
  {
    assert (a + b) - c == (a - c) + (b - c);
    UnionBound(a - c, b - c);
  }

  lemma UnionBound<P>(a: set<P>, b: set<P>)
    ensures |a + b| <= |a| + |b|
  {
    assert a + b == a + (b - a);
    assert |b - a| <= |b| by { assert b == (b - a) + (b * a); }
  }

  /** Against any other cover, each pick gains at least its share of what is left uncovered. */
  lemma PickGainsItsShare<T, P>(pairs: T -> set<P>, xs: seq<T>, covered: set<P>, cover: seq<T>)
    requires forall x :: x in cover ==> x in xs
    requires AllPairs(pairs, xs) <= AllPairs(pairs, cover)
    ensures |AllPairs(pairs, xs) - covered| <= |cover| * BestGain(pairs, Best(pairs, xs, covered), covered)
  {
    BestIsBest(pairs, xs, covered);
    GainsBound(pairs, cover, covered, BestGain(pairs, Best(pairs, xs, covered), covered));
    SubsetSize(AllPairs(pairs, xs) - covered, AllPairs(pairs, cover) - covered);
  }

  function Pow(b: nat, e: nat): nat { if e == 0 then 1 else b * Pow(b, e - 1) }

  function Uncovered<T, P(==)>(pairs: T -> set<P>, xs: seq<T>, covered: set<P>, picks: seq<T>): nat {
    |AllPairs(pairs, xs) - (covered + AllPairs(pairs, picks))|
  }

  lemma MultiplyBounds(u: nat, left: nat, start: nat, n: nat, p: nat, q: nat)
    requires n >= 1 && u * p <= q * left && left * n <= (n - 1) * start
    ensures u * (n * p) <= ((n - 1) * q) * start
  {
    calc {
      u * (n * p);
      (u * p) * n;
    <= { MulMonotone(u * p, q * left, n); }
      (q * left) * n;
      q * (left * n);
    <= { MulMonotone(left * n, (n - 1) * start, q); }
      q * ((n - 1) * start);
      ((n - 1) * q) * start;
    }
  }

  lemma MulMonotone(a: nat, b: nat, k: nat)
    requires a <= b
    ensures a * k <= b * k && k * a <= k * b
  {
  }

  /** At most the (1 - 1/n)^k part of `start` is left, stated without division. */
  predicate Decayed(u: nat, start: nat, n: nat, k: nat)
    requires n >= 1
  {
    u * Pow(n, k) <= Pow(n - 1, k) * start
  }

  /** Geometric decay: after `k` picks, what is uncovered times n^k is at most (n-1)^k times what was
      uncovered at the start, where n is the size of any other cover. */
  lemma {:induction false} GeometricDecay<T, P>(pairs: T -> set<P>, xs: seq<T>, covered: set<P>, cover: seq<T>, k: nat)
    requires cover != [] && forall x :: x in cover ==> x in xs
    requires AllPairs(pairs, xs) <= AllPairs(pairs, cover)
    requires k <= |Greedy(pairs, xs, covered)|
    ensures Decayed(Uncovered(pairs, xs, covered, Greedy(pairs, xs, covered)[..k]),
                    |AllPairs(pairs, xs) - covered|, |cover|, k)
    decreases k
  {
    var picks := Greedy(pairs, xs, covered);
    if k == 0 {
      assert picks[..0] == [];
      assert covered + AllPairs(pairs, picks[..0]) == covered;
    } else {
      BestIsBest(pairs, xs, covered);
      var x := Best(pairs, xs, covered).value;
      GeometricDecay(pairs, xs, covered + pairs(x), cover, k - 1);
      UncoveredCons(pairs, xs, covered, k);
      PickGainsItsShare(pairs, xs, covered, cover);
      PickShrinks(pairs, xs, x, covered);
      DecayStep(Uncovered(pairs, xs, covered, picks[..k]), |AllPairs(pairs, xs) - (covered + pairs(x))|,
                |AllPairs(pairs, xs) - covered|, Gain(pairs, x, covered), |cover|, k);
    }
  }

  lemma UncoveredCons<T, P>(pairs: T -> set<P>, xs: seq<T>, covered: set<P>, k: nat)
    requires 0 < k <= |Greedy(pairs, xs, covered)|
    ensures var x := Best(pairs, xs, covered).value;
            Uncovered(pairs, xs, covered, Greedy(pairs, xs, covered)[..k]) ==
            Uncovered(pairs, xs, covered + pairs(x), Greedy(pairs, xs, covered + pairs(x))[..k - 1])
  {
    var x := Best(pairs, xs, covered).value;
    var picks, rest := Greedy(pairs, xs, covered), Greedy(pairs, xs, covered + pairs(x));
    assert picks[..k] == [x] + rest[..k - 1];
    AllPairsCons(pairs, x, rest[..k - 1]);
    assert covered + AllPairs(pairs, picks[..k]) == covered + pairs(x) + AllPairs(pairs, rest[..k - 1]);
  }

  lemma DecayStep(u: nat, left: nat, start: nat, g: nat, n: nat, k: nat)
    requires n >= 1 && k >= 1 && left == start - g && start <= n * g
    requires Decayed(u, left, n, k - 1)
    ensures Decayed(u, start, n, k)
  {
    Shrinkage(start, left, g, n);
    MultiplyBounds(u, left, start, n, Pow(n, k - 1), Pow(n - 1, k - 1));
  }

  lemma Shrinkage(start: nat, left: nat, g: nat, n: nat)
    requires n >= 1 && left == start - g && start <= n * g
    ensures left * n <= (n - 1) * start
  {
    assert left * n == start * n - g * n;
  }

  /** Hence the number of picks: once n^k passes (n-1)^k times the number of pairs, k picks are enough. */
  lemma PicksBound<T, P>(pairs: T -> set<P>, xs: seq<T>, cover: seq<T>, k: nat)
    requires cover != [] && forall x :: x in cover ==> x in xs
    requires AllPairs(pairs, xs) <= AllPairs(pairs, cover)
    requires Pow(|cover| - 1, k) * |AllPairs(pairs, xs)| < Pow(|cover|, k)
    ensures |Greedy(pairs, xs, {})| <= k
  {
    var picks := Greedy(pairs, xs, {});
    if |picks| > k {
      GeometricDecay(pairs, xs, {}, cover, k);
      assert AllPairs(pairs, xs) - {} == AllPairs(pairs, xs);
      var u := Uncovered(pairs, xs, {}, picks[..k]);
      if u > 0 { MulMonotone(1, u, Pow(|cover|, k)); }
      assert u == 0;
      NothingAfterFullCover(pairs, xs, {}, k);
    }
  }

  /** When `k` picks leave nothing uncovered there is no further pick. */
  lemma {:induction false} NothingAfterFullCover<T, P>(pairs: T -> set<P>, xs: seq<T>, covered: set<P>, k: nat)
    requires k <= |Greedy(pairs, xs, covered)|
    requires Uncovered(pairs, xs, covered, Greedy(pairs, xs, covered)[..k]) == 0
    ensures |Greedy(pairs, xs, covered)| == k
    decreases k
  {
    var picks := Greedy(pairs, xs, covered);
    if k == 0 {
      assert picks[..0] == [];
      assert AllPairs(pairs, xs) - (covered + {}) == {};
      CoveredLeavesNothing(pairs, xs, covered);
    } else {
      var x := Best(pairs, xs, covered).value;
      UncoveredCons(pairs, xs, covered, k);
      NothingAfterFullCover(pairs, xs, covered + pairs(x), k - 1);
    }
  }

  lemma {:induction false} PairHasOwner<T, P>(pairs: T -> set<P>, xs: seq<T>, p: P)
    requires p in AllPairs(pairs, xs)
    ensures exists x :: x in xs && p in pairs(x)
  {
    var x := xs[|xs| - 1];
    if p !in pairs(x) {
      PairHasOwner(pairs, xs[..|xs| - 1], p);
      var y :| y in xs[..|xs| - 1] && p in pairs(y);
      assert y in xs;
    }
  }

  /** The selection as a whole: every pair of every candidate occurs in some pick, the picks are candidates,
      and there are no more of them than pairs. */
  lemma SelectionCovers<T, P>(pairs: T -> set<P>, xs: seq<T>)
    ensures forall x, p :: x in xs && p in pairs(x) ==> exists c :: c in Greedy(pairs, xs, {}) && p in pairs(c)
    ensures forall c :: c in Greedy(pairs, xs, {}) ==> c in xs
    ensures |Greedy(pairs, xs, {})| <= |AllPairs(pairs, xs)|
  {
    var chosen := Greedy(pairs, xs, {});
    GreedyCovers(pairs, xs, {});
    assert AllPairs(pairs, xs) - {} == AllPairs(pairs, xs);
    forall x, p | x in xs && p in pairs(x)
      ensures exists c :: c in chosen && p in pairs(c)
    {
      PairsOfMember(pairs, xs, x);
      PairHasOwner(pairs, chosen, p);
    }
  }

  /** Near-optimal: against any other cover, k picks leave at most the (1 - 1/n)^k part of the pairs, where n
      is the size of that cover; stated without division. */
  lemma SelectionNearOptimal<T, P>(pairs: T -> set<P>, xs: seq<T>, cover: seq<T>, k: nat)
    requires cover != [] && forall x :: x in cover ==> x in xs
    requires AllPairs(pairs, xs) <= AllPairs(pairs, cover)
    requires k <= |Greedy(pairs, xs, {})|
    ensures |AllPairs(pairs, xs) - AllPairs(pairs, Greedy(pairs, xs, {})[..k])| * Pow(|cover|, k)
         <= Pow(|cover| - 1, k) * |AllPairs(pairs, xs)|
  {
    var all, picks := AllPairs(pairs, xs), Greedy(pairs, xs, {})[..k];
    assert all - {} == all;
    assert {} + AllPairs(pairs, picks) == AllPairs(pairs, picks);
    assert Uncovered(pairs, xs, {}, picks) == |all - AllPairs(pairs, picks)|;
    GeometricDecay(pairs, xs, {}, cover, k);
  }
}
