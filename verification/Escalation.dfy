/** The proactive ladder that runs when the contents still exceed the critical budget: collapse-drain,
    then reactive-compact behind its breaker, then a deterministic truncation that cannot fail. */
module Escalation {
  import opened Basics
  import opened Transcript
  import TailTrim
  import opened Repair
  import opened Rounds

  const MARKER := Content(User, [Text("[older context truncated to fit the model window]")])
  const MAX_COLLAPSE_FRACTION := 0.2

  /** The token estimator is any non-negative measure of a content. */
  function Total(est: Content -> nat, cs: seq<Content>): nat {
    if cs == [] then 0 else Total(est, cs[..|cs| - 1]) + est(cs[|cs| - 1])
  }

  lemma {:induction false} TotalConcat(est: Content -> nat, a: seq<Content>, b: seq<Content>)
    ensures Total(est, a + b) == Total(est, a) + Total(est, b)
  {
    if b == [] {
      assert a + b == a;
    } else {
      TotalConcat(est, a, b[..|b| - 1]);
      assert (a + b)[..|a + b| - 1] == a + b[..|b| - 1];
    }
  }

  /** What the repair takes out. */
  function Stranded(cs: seq<Content>, whole: seq<Content>): seq<Content> {
    if cs == [] then []
    else Stranded(cs[..|cs| - 1], whole) + if Survives(cs[|cs| - 1], whole) then [] else [cs[|cs| - 1]]
  }

  /** The repair frees exactly what it takes out. */
  lemma {:induction false} RepairConservesTokens(est: Content -> nat, cs: seq<Content>, whole: seq<Content>)
    ensures Total(est, Surviving(cs, whole)) + Total(est, Stranded(cs, whole)) == Total(est, cs)
  {
    if cs != [] {
      var init, last := cs[..|cs| - 1], cs[|cs| - 1];
      var lives := Survives(last, whole);
      RepairConservesTokens(est, init, whole);
      TotalConcat(est, Surviving(init, whole), if lives then [last] else []);
      TotalConcat(est, Stranded(init, whole), if lives then [] else [last]);
      assert Total(est, [last]) == est(last) by { assert [last][..0] == []; }
    }
  }

  lemma SurvivingSnoc(cs: seq<Content>, c: Content, whole: seq<Content>)
    ensures Surviving(cs + [c], whole) == Surviving(cs, whole) + if Survives(c, whole) then [c] else []
  {
    assert (cs + [c])[..|cs|] == cs;
  }

  lemma {:induction false} SurvivingConcat(a: seq<Content>, b: seq<Content>, whole: seq<Content>)
    ensures Surviving(a + b, whole) == Surviving(a, whole) + Surviving(b, whole)
  {
    if b == [] {
      assert a + b == a;
    } else {
      var init, last := b[..|b| - 1], b[|b| - 1];
      SurvivingConcat(a, init, whole);
      SurvivingSnoc(a + init, last, whole);
      assert a + b == a + init + [last];
    }
  }

  // ---------------------------------------------------------------- truncation

  /** The first starter at or after `i`: where the second round begins. */
  function NextStarter(cs: seq<Content>, i: nat): (f: nat)
    requires i <= |cs|
    ensures i <= f <= |cs|
    ensures forall m :: i <= m < f ==> RoleOf(cs[m]) != Starter
    ensures f < |cs| ==> RoleOf(cs[f]) == Starter
    decreases |cs| - i
  {
    if i == |cs| || RoleOf(cs[i]) == Starter then i else NextStarter(cs, i + 1)
  }

  function FirstRoundEnd(cs: seq<Content>): nat
    requires cs != []
  {
    NextStarter(cs, 1)
  }

  /** The first round ends before the first user turn behind the first content, or with the history. */
  lemma FirstRoundEndsAtUserTurn(cs: seq<Content>)
    requires cs != []
    ensures var f := FirstRoundEnd(cs);
            && 1 <= f <= |cs| && (forall m :: 1 <= m < f ==> !UserTurn(cs[m]))
            && (f < |cs| ==> UserTurn(cs[f]))
  {
    forall m | 0 <= m < |cs| { StarterIsUserTurn(cs[m]); }
  }

  /** Where the budgeted tail starts: walk back from the end, always taking the last content, and stop
      before the first one that would pass the budget. */
  function TailStart(est: Content -> nat, cs: seq<Content>, lo: nat, k: nat, acc: nat, budget: nat): (start: nat)
    requires lo <= k <= |cs|
    ensures lo <= start <= k
    ensures lo < k == |cs| ==> start < k
  {
    if k == lo || (k < |cs| && acc + est(cs[k - 1]) > budget) then k
    else TailStart(est, cs, lo, k - 1, acc + est(cs[k - 1]), budget)
  }

  function TailOf(est: Content -> nat, cs: seq<Content>, budget: nat): (k: nat)
    requires cs != []
    ensures FirstRoundEnd(cs) <= k <= |cs|
    ensures FirstRoundEnd(cs) < |cs| ==> k < |cs|
  {
    var f := FirstRoundEnd(cs);
    TailStart(est, cs, f, |cs|, Total(est, cs[..f]), budget)
  }

  /** The marker goes in only where something was dropped and no user-role content borders the seam. */
  predicate Marked(est: Content -> nat, cs: seq<Content>, budget: nat)
    requires cs != []
  {
    var f, k := FirstRoundEnd(cs), TailOf(est, cs, budget);
    f < k < |cs| && cs[k].role != User && cs[f - 1].role != User
  }

  function Seam(est: Content -> nat, cs: seq<Content>, budget: nat): seq<Content>
    requires cs != []
  {
    cs[..FirstRoundEnd(cs)] + (if Marked(est, cs, budget) then [MARKER] else []) + cs[TailOf(est, cs, budget)..]
  }

  function Truncated(est: Content -> nat, cs: seq<Content>, budget: nat): seq<Content> {
    if |cs| <= 1 then cs else Repaired(Seam(est, cs, budget))
  }

  method DeterministicTruncate(est: Content -> nat, cs: seq<Content>, budget: nat) returns (out: seq<Content>)
    ensures out == Truncated(est, cs, budget)
  {
    if |cs| <= 1 { return cs; }
    var f := 1;
    while f < |cs| && RoleOf(cs[f]) != Starter
      invariant 1 <= f <= |cs|
      invariant NextStarter(cs, f) == FirstRoundEnd(cs)
    {
      f := f + 1;
    }
    var head := cs[..f];
    if f == |cs| {
      assert Seam(est, cs, budget) == head;
      out := RepairOrphansNonprefix(head);
      return;
    }
    var acc := SumEstimates(est, head);
    var k := |cs|;
    while k > f && (k == |cs| || acc + est(cs[k - 1]) <= budget)
      invariant f <= k <= |cs| && acc >= 0
      invariant TailStart(est, cs, f, k, acc, budget) == TailOf(est, cs, budget)
    {
      acc := acc + est(cs[k - 1]);
      k := k - 1;
    }
    var rebuilt := head + cs[k..];
    if f < k && cs[k].role != User && head[|head| - 1].role != User {
      rebuilt := head + [MARKER] + cs[k..];
    }
    assert rebuilt == Seam(est, cs, budget);
    out := RepairOrphansNonprefix(rebuilt);
  }

  method SumEstimates(est: Content -> nat, cs: seq<Content>) returns (sum: nat)
    ensures sum == Total(est, cs)
  {
    sum := 0;
    for i := 0 to |cs|
      invariant sum == Total(est, cs[..i])
    {
      assert cs[..i + 1][..i] == cs[..i];
      sum := sum + est(cs[i]);
    }
    assert cs[..|cs|] == cs;
  }

  /** Never longer than its input. */
  lemma TruncationNeverLengthens(est: Content -> nat, cs: seq<Content>, budget: nat)
    ensures |Truncated(est, cs, budget)| <= |cs|
  {
    if |cs| > 1 {
      var seam := Seam(est, cs, budget);
      SurvivingContents(seam, seam);
    }
  }

  lemma {:induction false} TailWithinBudget(est: Content -> nat, cs: seq<Content>, lo: nat, k: nat, acc: nat,
      budget: nat)
    requires lo <= k < |cs|
    ensures var s := TailStart(est, cs, lo, k, acc, budget);
            && (s == k || acc + Total(est, cs[s..k]) <= budget)
            && (s > lo ==> acc + Total(est, cs[s - 1..k]) > budget)
    decreases k
  {
    if k > lo {
      assert cs[k - 1..k][..0] == [];
      assert Total(est, cs[k - 1..k]) == est(cs[k - 1]);
    }
    if k > lo && acc + est(cs[k - 1]) <= budget {
      var acc' := acc + est(cs[k - 1]);
      var s := TailStart(est, cs, lo, k - 1, acc', budget);
      TailWithinBudget(est, cs, lo, k - 1, acc', budget);
      TotalSnoc(est, cs, s, k);
      if s > lo { TotalSnoc(est, cs, s - 1, k); }
    }
  }

  lemma TotalSnoc(est: Content -> nat, cs: seq<Content>, s: nat, k: nat)
    requires s < k <= |cs|
    ensures Total(est, cs[s..k]) == Total(est, cs[s..k - 1]) + est(cs[k - 1])
  {
    assert cs[s..k][..k - s - 1] == cs[s..k - 1];
  }

  lemma TotalOne(est: Content -> nat, c: Content)
    ensures Total(est, [c]) == est(c)
  {
    assert [c][..0] == [];
  }

  /** The kept parts use at most the budget, or the first round and the last content when those alone
      pass it. */
  lemma KeptPartsBound(est: Content -> nat, cs: seq<Content>, budget: nat)
    requires |cs| >= 2 && FirstRoundEnd(cs) < |cs|
    ensures var f, k := FirstRoundEnd(cs), TailOf(est, cs, budget);
            var least := Total(est, cs[..f]) + est(cs[|cs| - 1]);
            Total(est, cs[..f]) + Total(est, cs[k..]) <= if budget < least then least else budget
  {
    var f, k := FirstRoundEnd(cs), TailOf(est, cs, budget);
    var n, acc := |cs|, Total(est, cs[..f]);
    TailWithinBudget(est, cs, f, n - 1, acc + est(cs[n - 1]), budget);
    assert cs[k..] == cs[k..n];
    TotalSnoc(est, cs, k, n);
    assert k == n - 1 ==> cs[k..n - 1] == [];
  }

  /** And they are as many as fit: keeping one content more would pass the budget. */
  lemma KeptPartsAreMost(est: Content -> nat, cs: seq<Content>, budget: nat)
    requires |cs| >= 2 && FirstRoundEnd(cs) < TailOf(est, cs, budget)
    ensures Total(est, cs[..FirstRoundEnd(cs)]) + Total(est, cs[TailOf(est, cs, budget) - 1..]) > budget
  {
    var f := FirstRoundEnd(cs);
    OneMoreIsTooMuch(est, cs, f, Total(est, cs[..f]), budget);
    DropIsSlice(cs, TailOf(est, cs, budget) - 1);
  }

  lemma OneMoreIsTooMuch(est: Content -> nat, cs: seq<Content>, lo: nat, acc: nat, budget: nat)
    requires lo < |cs| && lo < TailStart(est, cs, lo, |cs|, acc, budget)
    ensures acc + Total(est, cs[TailStart(est, cs, lo, |cs|, acc, budget) - 1..|cs|]) > budget
  {
    var n, k := |cs|, TailStart(est, cs, lo, |cs|, acc, budget);
    TailWithinBudget(est, cs, lo, n - 1, acc + est(cs[n - 1]), budget);
    TotalSnoc(est, cs, k - 1, n);
  }

  lemma DropIsSlice<T>(s: seq<T>, i: nat)
    requires i <= |s|
    ensures s[i..] == s[i..|s|]
  {
  }

  /** The least the fail-safe can keep: the first round and the last content. */
  function Least(est: Content -> nat, cs: seq<Content>): nat
    requires cs != []
  {
    Total(est, cs[..FirstRoundEnd(cs)]) + est(cs[|cs| - 1])
  }

  /** Token bound: budget or least, and the marker only when it was put in. */
  lemma TruncationBound(est: Content -> nat, cs: seq<Content>, budget: nat)
    requires cs != []
    ensures Total(est, Truncated(est, cs, budget))
         <= Max(budget, Least(est, cs)) + (if Marked(est, cs, budget) then est(MARKER) else 0)
  {
    var f := FirstRoundEnd(cs);
    if |cs| == 1 {
      assert cs[..f] == cs;
    } else {
      RepairConservesTokens(est, Seam(est, cs, budget), Seam(est, cs, budget));
      SeamTokens(est, cs, budget);
      if f < |cs| { KeptPartsBound(est, cs, budget); }
    }
  }

  lemma SeamContents(est: Content -> nat, cs: seq<Content>, budget: nat)
    requires cs != []
    ensures forall c :: c in Seam(est, cs, budget) ==> c in cs || c == MARKER
    ensures Unmixed(cs) ==> Unmixed(Seam(est, cs, budget))
  {
  }

  /** Pairing: the result is orphan-free except when a lone orphan response was handed in. */
  lemma TruncationOrphanFreeIff(est: Content -> nat, cs: seq<Content>, budget: nat)
    requires Unmixed(cs)
    ensures OrphanFree(Truncated(est, cs, budget)) <==> |cs| != 1 || OrphanFree(cs)
  {
    if |cs| > 1 {
      SeamContents(est, cs, budget);
      UnmixedCallersAreAnswered(Seam(est, cs, budget));
      RepairIsGreatest(Seam(est, cs, budget));
    }
  }

  ghost predicate MarkerClear(out: seq<Content>, m: int) {
    0 < m < |out| - 1 && out[m] == MARKER && out[m - 1].role != User && out[m + 1].role != User
  }

  /** When the marker goes in, its neighbours are the end of the first round and the start of the kept
      tail, neither on the user role, and the repair removes neither. */
  lemma MarkerNeverBesideUser(est: Content -> nat, cs: seq<Content>, budget: nat)
    requires |cs| >= 2 && ResponsesAreUser(cs) && Marked(est, cs, budget)
    ensures exists m :: MarkerClear(Truncated(est, cs, budget), m)
  {
    var f, k := FirstRoundEnd(cs), TailOf(est, cs, budget);
    var seam := Seam(est, cs, budget);
    var before, after := cs[..f - 1], cs[k + 1..];
    assert cs[..f] == before + [cs[f - 1]] && cs[k..] == [cs[k]] + after;
    assert seam == before + [cs[f - 1], MARKER, cs[k]] + after;
    assert cs[f - 1] in cs && cs[k] in cs;
    TriadSurvives(before, cs[f - 1], cs[k], after);
    assert Truncated(est, cs, budget) == Repaired(seam);
  }

  /** When it goes in: in a history without one, the marker is in the result if and only if contents were dropped
      between first round and kept tail and neither side of the gap is on the user role. */
  lemma MarkerInIff(est: Content -> nat, cs: seq<Content>, budget: nat)
    requires |cs| >= 2 && MARKER !in cs && ResponsesAreUser(cs)
    ensures var f, k := FirstRoundEnd(cs), TailOf(est, cs, budget);
            MARKER in Truncated(est, cs, budget) <==>
            f < k < |cs| && cs[f - 1].role in {Model, Unset} && cs[k].role in {Model, Unset}
  {
    var seam := Seam(est, cs, budget);
    SurvivingContents(seam, seam);
    if Marked(est, cs, budget) {
      MarkerNeverBesideUser(est, cs, budget);
      var m :| MarkerClear(Truncated(est, cs, budget), m);
      assert Truncated(est, cs, budget)[m] == MARKER;
    }
  }

  /** Contents without responses pass the repair together with the marker between them. */
  lemma TriadSurvives(before: seq<Content>, x: Content, y: Content, after: seq<Content>)
    requires !HasResponse(x) && !HasResponse(y) && x.role != User && y.role != User
    ensures exists m :: MarkerClear(Repaired(before + [x, MARKER, y] + after), m)
  {
    var triad := [x, MARKER, y];
    var whole := before + triad + after;
    SurvivingConcat(before + triad, after, whole);
    SurvivingConcat(before, triad, whole);
    AllSurvive(triad, whole);
    var a, b := Surviving(before, whole), Surviving(after, whole);
    assert Repaired(whole) == a + triad + b;
    assert MarkerClear(a + triad + b, |a| + 1);
  }

  /** The contents the fail-safe drops: those between the seam's two sides, and those the repair takes out. */
  function TruncatedAway(est: Content -> nat, cs: seq<Content>, budget: nat): seq<Content>
    requires cs != []
  {
    cs[FirstRoundEnd(cs)..TailOf(est, cs, budget)] + Stranded(Seam(est, cs, budget), Seam(est, cs, budget))
  }

  /** Conservation: tokens kept and tokens dropped add up to tokens given, plus the marker if it was put in. */
  lemma TruncationConservesTokens(est: Content -> nat, cs: seq<Content>, budget: nat)
    requires |cs| >= 2
    ensures Total(est, Truncated(est, cs, budget)) + Total(est, TruncatedAway(est, cs, budget)) ==
            Total(est, cs) + if Marked(est, cs, budget) then est(MARKER) else 0
  {
    var seam := Seam(est, cs, budget);
    RepairConservesTokens(est, seam, seam);
    SeamTokens(est, cs, budget);
    TotalConcat(est, cs[FirstRoundEnd(cs)..TailOf(est, cs, budget)], Stranded(seam, seam));
  }

  /** The fail-safe is described as always reducing. It never grows a request that already weighs as much as
      the larger of the budget and the least it must keep, plus the marker. */
  lemma HeavyRequestNeverGrows(est: Content -> nat, cs: seq<Content>, budget: nat)
    requires cs != [] && Total(est, cs) >= Max(budget, Least(est, cs)) + est(MARKER)
    ensures Total(est, Truncated(est, cs, budget)) <= Total(est, cs)
  {
    TruncationBound(est, cs, budget);
  }

  /** `out` is no heavier than the request exactly when no marker was added or the contents between first round
      and kept tail weigh at least the marker. */
  ghost predicate ReducesIffMiddlePays(est: Content -> nat, cs: seq<Content>, budget: nat, out: seq<Content>)
    requires cs != []
  {
    var f, k := FirstRoundEnd(cs), TailOf(est, cs, budget);
    Total(est, out) <= Total(est, cs) <==> !Marked(est, cs, budget) || est(MARKER) <= Total(est, cs[f..k])
  }

  /** Below that weight: on a chained history whose kept tail does not open on a response the repair strands
      nothing, and whether the fail-safe grows the request is settled by the slice it leaves out. */
  lemma TruncationReducesIff(est: Content -> nat, cs: seq<Content>, budget: nat)
    requires cs != [] && Chained(cs)
    requires TailOf(est, cs, budget) < |cs| ==> !HasResponse(cs[TailOf(est, cs, budget)])
    ensures ReducesIffMiddlePays(est, cs, budget, Truncated(est, cs, budget))
  {
    NothingStranded(est, cs, budget);
    SeamReducesIff(est, cs, budget);
  }

  lemma SeamReducesIff(est: Content -> nat, cs: seq<Content>, budget: nat)
    requires cs != []
    ensures ReducesIffMiddlePays(est, cs, budget, Seam(est, cs, budget))
  {
    SeamTokens(est, cs, budget);
  }

  lemma NothingStranded(est: Content -> nat, cs: seq<Content>, budget: nat)
    requires cs != [] && Chained(cs)
    requires TailOf(est, cs, budget) < |cs| ==> !HasResponse(cs[TailOf(est, cs, budget)])
    ensures Truncated(est, cs, budget) == Seam(est, cs, budget)
  {
    if |cs| == 1 {
      assert FirstRoundEnd(cs) == 1;
    } else {
      SeamIsOrphanFree(est, cs, budget);
      RepairIsIdentityIff(Seam(est, cs, budget));
    }
  }

  lemma ChainedPrefix(cs: seq<Content>, f: nat)
    requires Chained(cs) && f <= |cs|
    ensures Chained(cs[..f])
  {
    var head := cs[..f];
    forall j, r | 0 <= j < |head| && Demands(head[j], r)
      ensures exists i :: LeadsTo(head, i, j) && HoldsCallFor(head[i], r)
    {
      var i :| LeadsTo(cs, i, j) && HoldsCallFor(cs[i], r);
      assert LeadsTo(head, i, j);
    }
  }

  lemma OrphanFreeConcat(a: seq<Content>, b: seq<Content>)
    requires OrphanFree(a) && OrphanFree(b)
    ensures OrphanFree(a + b)
  {
    forall c, r | c in a + b && Demands(c, r)
      ensures Answered(a + b, r)
    {
      if c in a { AnsweredMonotone(a, a + b, r); } else { AnsweredMonotone(b, a + b, r); }
    }
  }

  lemma ChainedIsOrphanFree(cs: seq<Content>)
    requires Chained(cs)
    ensures OrphanFree(cs)
  {
    TailTrim.ChainedIsPaired(cs);
    PairedIsOrphanFree(cs);
  }

  lemma SeamIsOrphanFree(est: Content -> nat, cs: seq<Content>, budget: nat)
    requires cs != [] && Chained(cs)
    requires TailOf(est, cs, budget) < |cs| ==> !HasResponse(cs[TailOf(est, cs, budget)])
    ensures OrphanFree(Seam(est, cs, budget))
  {
    var f, k := FirstRoundEnd(cs), TailOf(est, cs, budget);
    var mark := if Marked(est, cs, budget) then [MARKER] else [];
    ChainedPrefix(cs, f);
    ChainedIsOrphanFree(cs[..f]);
    if k < |cs| {
      TailTrim.CleanCutKeepsChains(cs, k);
      ChainedIsOrphanFree(cs[k..]);
    }
    OrphanFreeConcat(cs[..f], mark);
    OrphanFreeConcat(cs[..f] + mark, cs[k..]);
  }

  /** Token accounting at the seam. */
  lemma SeamTokens(est: Content -> nat, cs: seq<Content>, budget: nat)
    requires cs != []
    ensures Total(est, Seam(est, cs, budget)) + Total(est, cs[FirstRoundEnd(cs)..TailOf(est, cs, budget)])
         == Total(est, cs) + (if Marked(est, cs, budget) then est(MARKER) else 0)
    ensures Total(est, Seam(est, cs, budget))
         == Total(est, cs[..FirstRoundEnd(cs)]) + Total(est, cs[TailOf(est, cs, budget)..])
            + (if Marked(est, cs, budget) then est(MARKER) else 0)
  {
    var f, k := FirstRoundEnd(cs), TailOf(est, cs, budget);
    var head, middle, tail := cs[..f], cs[f..k], cs[k..];
    var mark := if Marked(est, cs, budget) then [MARKER] else [];
    TotalThree(est, head, mark, tail);
    TotalOne(est, MARKER);
    assert cs == head + middle + tail;
    TotalThree(est, head, middle, tail);
  }

  lemma TotalThree(est: Content -> nat, a: seq<Content>, b: seq<Content>, c: seq<Content>)
    ensures Total(est, a + b + c) == Total(est, a) + Total(est, b) + Total(est, c)
  {
    TotalConcat(est, a + b, c);
    TotalConcat(est, a, b);
  }

  function OneTokenEach(c: Content): nat { if c == MARKER then 5 else 1 }

  /** It can grow: a short user turn, the latest one at that, is swapped for a longer marker. */
  lemma TruncationCanGrow()
    ensures var u, m, w := Content(User, [Text("u")]), Content(Model, [Text("m")]), Content(User, [Text("w")]);
            var cs := [u, m, w, m];
            && Total(OneTokenEach, cs) == 4
            && Truncated(OneTokenEach, cs, 3) == [u, m, MARKER, m]
            && Total(OneTokenEach, Truncated(OneTokenEach, cs, 3)) == 8
  {
    var u, m, w := Content(User, [Text("u")]), Content(Model, [Text("m")]), Content(User, [Text("w")]);
    var cs, out := [u, m, w, m], [u, m, MARKER, m];
    FourTokens(OneTokenEach, cs);
    FourTokens(OneTokenEach, out);
    SwappedForMarker(u, m, w);
    RepairIsIdentityIff(out);
  }

  /** The second round opens with the third content and does not fit. */
  lemma SwappedForMarker(u: Content, m: Content, w: Content)
    requires RoleOf(m) == Assistant && RoleOf(w) == Starter && m.role == Model
    requires OneTokenEach(u) == OneTokenEach(m) == OneTokenEach(w) == 1
    ensures Seam(OneTokenEach, [u, m, w, m], 3) == [u, m, MARKER, m]
  {
    var cs := [u, m, w, m];
    assert FirstRoundEnd(cs) == NextStarter(cs, 2) == 2;
    assert cs[..2] == [u, m] && [u, m][..1] == [u];
    TotalOne(OneTokenEach, u);
    assert Total(OneTokenEach, cs[..2]) == 2;
    assert TailStart(OneTokenEach, cs, 2, 3, 3, 3) == 3;
    assert TailOf(OneTokenEach, cs, 3) == 3;
  }

  lemma FourTokens(est: Content -> nat, cs: seq<Content>)
    requires |cs| == 4
    ensures Total(est, cs) == est(cs[0]) + est(cs[1]) + est(cs[2]) + est(cs[3])
  {
    assert cs[..3][..2] == cs[..2] && cs[..2][..1] == cs[..1] && cs[..1][..0] == [];
    assert Total(est, cs[..3]) == Total(est, cs[..2]) + est(cs[2]);
    assert Total(est, cs[..2]) == Total(est, cs[..1]) + est(cs[1]);
  }

  // ---------------------------------------------------------------- the ladder

  datatype Tier = Collapse | Compact | Failsafe

  /** What a strategy's answer turns the contents into; a strategy that declines changes nothing. */
  function Applied(cs: seq<Content>, answer: Option<seq<Msg>>): seq<Content> {
    if answer.Some? then Repaired(Rebuilt(answer.value, cs)) else cs
  }

  function Accepts(est: Content -> nat, budget: nat, cs: seq<Content>, answer: Option<seq<Msg>>): bool {
    answer.Some? && Total(est, Applied(cs, answer)) <= budget
  }

  /** The ladder for any two strategy answers; `tier7` is what tier 7 answered, `None` when it declined,
      failed, or its breaker skipped it. */
  function Escalated(est: Content -> nat, budget: nat, cs: seq<Content>, tier6: Option<seq<Msg>>,
                     tier7: Option<seq<Msg>>): (seq<Content>, Tier)
  {
    var after6 := Applied(cs, tier6);
    var after7 := Applied(after6, tier7);
    if Accepts(est, budget, cs, tier6) then (after6, Collapse)
    else if Accepts(est, budget, after6, tier7) then (after7, Compact)
    else (Truncated(est, after7, budget), Failsafe)
  }

  function DrainAnswer(cs: seq<Content>, render: Content -> string): Option<seq<Msg>> {
    var rs := Partition(ContentsToMsgs(cs, render));
    if |rs| <= 2 then None else Some(Flatten(KeptRounds(rs, DropCount(|rs|, MAX_COLLAPSE_FRACTION))))
  }

  function CompactAnswer(cs: seq<Content>, render: Content -> string, breakerOpen: bool,
                         summary: Option<string>): Option<seq<Msg>> {
    if breakerOpen then None else ReactiveCompact(ContentsToMsgs(cs, render), summary)
  }

  /** What the tier-7 summarizer is handed, if the ladder gets that far: the contents left by tier 6, unless
      they fit the budget or are too few to compact. */
  function Tier7Input(est: Content -> nat, budget: nat, cs: seq<Content>,
      render: Content -> string): Option<seq<Content>> {
    var tier6 := DrainAnswer(cs, render);
    if Accepts(est, budget, cs, tier6) || |Applied(cs, tier6)| < 2 then None else Some(Applied(cs, tier6))
  }

  /** The ladder with the real strategies. `compact` is what the tier-7 summarizer would answer, `None` when it
      raises; `raised` reports a call that raised. */
  method ProactiveRecover(req: TailTrim.LlmRequest, est: Content -> nat, budget: nat, render: Content -> string,
                          failures: nat, cap: nat, compact: seq<Content> -> Option<string>)
    returns (tier: Tier, raised: bool)
    modifies req
    ensures var cs := old(req.contents);
            var tier6 := DrainAnswer(cs, render);
            var after6 := Applied(cs, tier6);
            && (req.contents, tier) == Escalated(est, budget, cs, tier6,
                                                 CompactAnswer(after6, render, failures >= cap, compact(after6)))
            && (var input := Tier7Input(est, budget, cs, render);
                raised <==> failures < cap && input.Some? && compact(input.value).None?)
  {
    var contents := req.contents;
    raised := false;
    var answer6 := CollapseDrain(ContentsToMsgs(contents, render), MAX_COLLAPSE_FRACTION);
    if answer6.Some? {
      var cand := MsgsToContents(answer6.value, contents);
      if Total(est, cand) <= budget {
        req.contents := cand;
        return Collapse, false;
      }
      contents := cand;
    }
    if failures < cap {
      var answer7 := ReactiveCompact(ContentsToMsgs(contents, render), compact(contents));
      if answer7.Some? {
        var cand := MsgsToContents(answer7.value, contents);
        if Total(est, cand) <= budget {
          req.contents := cand;
          return Compact, false;
        }
        contents := cand;
      } else {
        raised := |contents| >= 2;
      }
    }
    req.contents := DeterministicTruncate(est, contents, budget);
    tier := Failsafe;
  }

  /** Which tier settles the call: tier 6 if its answer fits the budget, then tier 7 if what it makes of that does,
      and the fail-safe otherwise. */
  lemma LadderTiersIff(est: Content -> nat, budget: nat, cs: seq<Content>, tier6: Option<seq<Msg>>,
                       tier7: Option<seq<Msg>>)
    ensures var after6 := if tier6.Some? then Repaired(Rebuilt(tier6.value, cs)) else cs;
            var after7 := if tier7.Some? then Repaired(Rebuilt(tier7.value, after6)) else after6;
            var (out, tier) := Escalated(est, budget, cs, tier6, tier7);
            && (tier == Collapse <==> tier6.Some? && Total(est, after6) <= budget)
            && (tier == Compact <==> tier != Collapse && tier7.Some? && Total(est, after7) <= budget)
            && out == match tier
                      case Collapse => after6
                      case Compact => after7
                      case Failsafe => Truncated(est, after7, budget)
  {
  }

  lemma AppliedKeepsShape(cs: seq<Content>, answer: Option<seq<Msg>>)
    requires Unmixed(cs)
    ensures Unmixed(Applied(cs, answer))
    ensures answer.Some? ==> OrphanFree(Applied(cs, answer))
    ensures OrphanFree(cs) ==> OrphanFree(Applied(cs, answer))
  {
    if answer.Some? {
      RebuiltContents(answer.value, cs);
      SurvivingContents(Rebuilt(answer.value, cs), Rebuilt(answer.value, cs));
      UnmixedCallersAreAnswered(Rebuilt(answer.value, cs));
      RepairIsGreatest(Rebuilt(answer.value, cs));
    }
  }

  /** Whatever the strategies answer, the ladder hands over an orphan-free request, unless it was given a
      lone orphan response that neither strategy replaced. */
  lemma LadderIsOrphanFree(est: Content -> nat, budget: nat, cs: seq<Content>, tier6: Option<seq<Msg>>,
                           tier7: Option<seq<Msg>>)
    requires Unmixed(cs)
    requires OrphanFree(cs) || |cs| != 1
    ensures OrphanFree(Escalated(est, budget, cs, tier6, tier7).0)
  {
    AppliedKeepsShape(cs, tier6);
    var after6 := Applied(cs, tier6);
    AppliedKeepsShape(after6, tier7);
    TruncationOrphanFreeIff(est, Applied(after6, tier7), budget);
  }

  /** Whatever the strategies answer, the result estimates within budget or is the truncation of what they
      left, within its own bound, and no longer than that. */
  lemma LadderBound(est: Content -> nat, budget: nat, cs: seq<Content>, tier6: Option<seq<Msg>>,
      tier7: Option<seq<Msg>>)
    ensures var left := Applied(Applied(cs, tier6), tier7);
            var (out, tier) := Escalated(est, budget, cs, tier6, tier7);
            if tier != Failsafe then Total(est, out) <= budget
            else && out == Truncated(est, left, budget) && |out| <= |left|
                 && (left != [] ==> Total(est, out) <= Max(budget, Least(est, left)) + est(MARKER))
  {
    var left := Applied(Applied(cs, tier6), tier7);
    TruncationNeverLengthens(est, left, budget);
    if left != [] { TruncationBound(est, left, budget); }
  }
}
