/** The tool-output prune: old response payloads are overwritten in place by a small placeholder, all of
    them or none. The response objects are shared with the outgoing request, so a prune persists. */
module Prune {
  import opened Basics
  import opened Transcript
  import TailTrim

  const PLACEHOLDER := "{\"pruned\": \"[old tool output cleared to save context]\"}"
  const PER_RESULT_MINIMUM := 1_000

  /** Plugin knobs; `measure` is the token size of a serialized payload, any non-negative measure. */
  datatype Knobs = Knobs(tail: nat, protect: nat, minimum: nat, measure: string -> nat) {
    ghost predicate Valid() { tail >= 1 && protect >= 1 && minimum >= 1 }
  }

  // ---------------------------------------------------------------- the prune on values

  function PayloadSize(p: Part, m: string -> nat): nat {
    if p.Response? then m(p.payload) else 0
  }

  function PartTokens(parts: seq<Part>, m: string -> nat): nat {
    if parts == [] then 0 else PartTokens(parts[..|parts| - 1], m) + PayloadSize(parts[|parts| - 1], m)
  }

  function PayloadTokens(cs: seq<Content>, m: string -> nat): nat {
    if cs == [] then 0 else PayloadTokens(cs[..|cs| - 1], m) + PartTokens(cs[|cs| - 1].parts, m)
  }

  /** Worth clearing: not from a protected tool, large enough, and larger than the placeholder. */
  predicate Clearable(p: Part, m: string -> nat) {
    && p.Response? && p.name !in TailTrim.PRUNE_PROTECTED_TOOLS
    && m(p.payload) >= PER_RESULT_MINIMUM && m(p.payload) > m(PLACEHOLDER)
  }

  function Freed(p: Part, m: string -> nat): nat {
    if Clearable(p, m) then m(p.payload) - m(PLACEHOLDER) else 0
  }

  function FreedParts(parts: seq<Part>, m: string -> nat): nat {
    if parts == [] then 0 else FreedParts(parts[..|parts| - 1], m) + Freed(parts[|parts| - 1], m)
  }

  function FreedTotal(cs: seq<Content>, m: string -> nat): nat {
    if cs == [] then 0 else FreedTotal(cs[..|cs| - 1], m) + FreedParts(cs[|cs| - 1].parts, m)
  }

  function ClearedPart(p: Part, m: string -> nat): Part {
    if Clearable(p, m) then p.(payload := PLACEHOLDER) else p
  }

  function ClearedParts(parts: seq<Part>, m: string -> nat): (out: seq<Part>)
    ensures |out| == |parts|
    ensures forall k :: 0 <= k < |parts| ==> out[k] == ClearedPart(parts[k], m)
  {
    if parts == [] then [] else ClearedParts(parts[..|parts| - 1], m) + [ClearedPart(parts[|parts| - 1], m)]
  }

  function Cleared(c: Content, m: string -> nat): Content {
    Content(c.role, ClearedParts(c.parts, m))
  }

  function ClearedAll(cs: seq<Content>, m: string -> nat): (out: seq<Content>)
    ensures |out| == |cs|
  {
    if cs == [] then [] else ClearedAll(cs[..|cs| - 1], m) + [Cleared(cs[|cs| - 1], m)]
  }

  lemma {:induction false} ClearedAllAt(cs: seq<Content>, m: string -> nat, i: nat)
    requires i < |cs|
    ensures ClearedAll(cs, m)[i] == Cleared(cs[i], m)
  {
    if i < |cs| - 1 { ClearedAllAt(cs[..|cs| - 1], m, i); }
  }

  /** The first `b` contents cleared, the others as they are. */
  function ClearedBelow(cs: seq<Content>, b: nat, m: string -> nat): seq<Content>
    requires b <= |cs|
  {
    ClearedAll(cs[..b], m) + cs[b..]
  }

  lemma ClearedBelowAt(cs: seq<Content>, b: nat, m: string -> nat, i: nat)
    requires b <= |cs| && i < |cs|
    ensures ClearedBelow(cs, b, m)[i] == if i < b then Cleared(cs[i], m) else cs[i]
  {
    if i < b { ClearedAllAt(cs[..b], m, i); }
  }

  lemma PrunedAt(cs: seq<Content>, kn: Knobs, i: nat)
    requires i < |cs|
    ensures |Pruned(cs, kn)| == |cs|
    ensures Pruned(cs, kn)[i] == if Commits(cs, kn) && i < Boundary(cs, kn) then Cleared(cs[i], kn.measure) else cs[i]
  {
    ClearedBelowAt(cs, Boundary(cs, kn), kn.measure, i);
  }

  /** Walk back from `k`, protecting contents until their payloads reach the protected budget. */
  function Walk(cs: seq<Content>, k: nat, running: nat, kn: Knobs): (b: nat)
    requires k <= |cs|
    ensures b <= k
  {
    if k == 0 || running >= kn.protect then k
    else Walk(cs, k - 1, running + PartTokens(cs[k - 1].parts, kn.measure), kn)
  }

  lemma WalkStep(cs: seq<Content>, k: nat, running: nat, kn: Knobs)
    requires 0 < k <= |cs| && running < kn.protect
    ensures Walk(cs, k, running, kn) == Walk(cs, k - 1, running + PartTokens(cs[k - 1].parts, kn.measure), kn)
  {
  }

  /** Everything below the boundary is old enough to prune. */
  function Boundary(cs: seq<Content>, kn: Knobs): (b: nat)
    ensures b <= |cs|
  {
    Walk(cs, |cs| - Min(kn.tail, |cs|), 0, kn)
  }

  /** The payload tokens of the contents from `lo` up to `hi`. */
  function RangeTokens(cs: seq<Content>, lo: nat, hi: nat, m: string -> nat): nat
    requires lo <= hi <= |cs|
    decreases hi - lo
  {
    if lo == hi then 0 else PartTokens(cs[lo].parts, m) + RangeTokens(cs, lo + 1, hi, m)
  }

  /** Protecting the contents from `b` up to `split` reaches the budget, and no fewer of them do. */
  ghost predicate JustEnough(cs: seq<Content>, b: nat, split: nat, kn: Knobs)
    requires b <= split <= |cs|
  {
    && (b == 0 || RangeTokens(cs, b, split, kn.measure) >= kn.protect)
    && (b < split ==> RangeTokens(cs, b + 1, split, kn.measure) < kn.protect)
  }

  lemma {:induction false} WalkProtects(cs: seq<Content>, k: nat, split: nat, running: nat, kn: Knobs)
    requires k <= split <= |cs| && running == RangeTokens(cs, k, split, kn.measure)
    requires k < split ==> RangeTokens(cs, k + 1, split, kn.measure) < kn.protect
    ensures JustEnough(cs, Walk(cs, k, running, kn), split, kn)
    decreases k
  {
    if k > 0 && running < kn.protect {
      WalkProtects(cs, k - 1, split, running + PartTokens(cs[k - 1].parts, kn.measure), kn);
    }
  }

  /** What the boundary means: besides the last `tail` contents, just enough of the newest payloads are
      protected to reach the budget, or everything when there are not enough. */
  lemma BoundaryIsLatestEnough(cs: seq<Content>, kn: Knobs)
    ensures var split, b := |cs| - Min(kn.tail, |cs|), Boundary(cs, kn);
            b <= split && JustEnough(cs, b, split, kn)
  {
    var split := |cs| - Min(kn.tail, |cs|);
    WalkProtects(cs, split, split, 0, kn);
  }

  predicate Commits(cs: seq<Content>, kn: Knobs) {
    FreedTotal(cs[..Boundary(cs, kn)], kn.measure) >= kn.minimum
  }

  function Pruned(cs: seq<Content>, kn: Knobs): seq<Content> {
    if Commits(cs, kn) then ClearedBelow(cs, Boundary(cs, kn), kn.measure) else cs
  }

  // ---------------------------------------------------------------- one prune

  lemma {:induction false} ClearedPartsFree(parts: seq<Part>, m: string -> nat)
    ensures PartTokens(ClearedParts(parts, m), m) + FreedParts(parts, m) == PartTokens(parts, m)
  {
    if parts != [] {
      var out := ClearedParts(parts, m);
      ClearedPartsFree(parts[..|parts| - 1], m);
      assert out[..|parts| - 1] == ClearedParts(parts[..|parts| - 1], m);
    }
  }

  lemma {:induction false} ClearedAllFree(cs: seq<Content>, m: string -> nat)
    ensures PayloadTokens(ClearedAll(cs, m), m) + FreedTotal(cs, m) == PayloadTokens(cs, m)
  {
    if cs != [] {
      var init, last, out := cs[..|cs| - 1], cs[|cs| - 1], ClearedAll(cs, m);
      ClearedAllFree(init, m);
      ClearedPartsFree(last.parts, m);
      assert out[..|cs| - 1] == ClearedAll(init, m);
    }
  }

  lemma {:induction false} PayloadTokensConcat(a: seq<Content>, b: seq<Content>, m: string -> nat)
    ensures PayloadTokens(a + b, m) == PayloadTokens(a, m) + PayloadTokens(b, m)
  {
    if b == [] {
      assert a + b == a;
    } else {
      PayloadTokensConcat(a, b[..|b| - 1], m);
      assert (a + b)[..|a + b| - 1] == a + b[..|b| - 1];
    }
  }

  lemma ClearedBelowFrees(cs: seq<Content>, b: nat, m: string -> nat)
    requires b <= |cs|
    ensures PayloadTokens(ClearedBelow(cs, b, m), m) + FreedTotal(cs[..b], m) == PayloadTokens(cs, m)
  {
    TakeAndDrop(cs, b);
    SplitFrees(cs, cs[..b], cs[b..], m);
  }

  lemma SplitFrees(cs: seq<Content>, below: seq<Content>, kept: seq<Content>, m: string -> nat)
    requires cs == below + kept
    ensures PayloadTokens(ClearedAll(below, m) + kept, m) + FreedTotal(below, m) == PayloadTokens(cs, m)
  {
    ClearedAllFree(below, m);
    PayloadTokensConcat(below, kept, m);
    PayloadTokensConcat(ClearedAll(below, m), kept, m);
  }

  /** All or nothing: a prune changes no content, or lowers the payload total by exactly the freed sum,
      which is at least the configured minimum. */
  lemma PruneFreesExactly(cs: seq<Content>, kn: Knobs)
    requires kn.Valid()
    ensures var freed := FreedTotal(cs[..Boundary(cs, kn)], kn.measure);
            if freed < kn.minimum then Pruned(cs, kn) == cs
            else PayloadTokens(Pruned(cs, kn), kn.measure) == PayloadTokens(cs, kn.measure) - freed
  {
    if Commits(cs, kn) {
      ClearedBelowFrees(cs, Boundary(cs, kn), kn.measure);
    }
  }

  /** What the boundary is measured in: payloads of responses count what the measure says, everything else
      nothing. */
  lemma PayloadsCount(front: seq<Part>, p: Part, m: string -> nat)
    ensures PartTokens(front + [p], m) == PartTokens(front, m) + if p.Response? then m(p.payload) else 0
  {
    assert (front + [p])[..|front|] == front;
  }

  /** `d` is `c` with the placeholder for each result of an unprotected tool that measures at least 1,000 tokens
      and more than the placeholder; everything else is as it was. */
  ghost predicate IsSwept(c: Content, d: Content, m: string -> nat) {
    && d.role == c.role && |d.parts| == |c.parts|
    && forall k :: 0 <= k < |c.parts| ==>
         var p := c.parts[k];
         d.parts[k] == if p.Response? && p.name !in {"LoadGaPlaybook", "select_recipe"}
                          && m(p.payload) >= 1_000 && m(p.payload) > m(PLACEHOLDER)
                       then Response(p.id, p.name, PLACEHOLDER) else p
  }

  /** The contents below `b` are swept, the others as they were. */
  ghost predicate SweptBelow(cs: seq<Content>, b: nat, ds: seq<Content>, m: string -> nat) {
    |ds| == |cs| && forall i :: 0 <= i < |cs| ==> if i < b then IsSwept(cs[i], ds[i], m) else ds[i] == cs[i]
  }

  lemma ClearedIsSwept(c: Content, m: string -> nat)
    ensures IsSwept(c, Cleared(c, m), m)
  {
  }

  lemma SweptIsCleared(c: Content, d: Content, m: string -> nat)
    requires IsSwept(c, d, m)
    ensures d == Cleared(c, m)
  {
    assert d.parts == Cleared(c, m).parts;
  }

  lemma SweptBelowIs(cs: seq<Content>, b: nat, ds: seq<Content>, m: string -> nat)
    requires b <= |cs|
    ensures SweptBelow(cs, b, ds, m) <==> ds == ClearedBelow(cs, b, m)
  {
    forall i | 0 <= i < |cs|
      ensures ClearedBelow(cs, b, m)[i] == if i < b then Cleared(cs[i], m) else cs[i]
      ensures |ds| == |cs| ==> (IsSwept(cs[i], ds[i], m) <==> ds[i] == Cleared(cs[i], m))
    {
      ClearedBelowAt(cs, b, m, i);
      ClearedIsSwept(cs[i], m);
      if |ds| == |cs| && IsSwept(cs[i], ds[i], m) { SweptIsCleared(cs[i], ds[i], m); }
    }
  }

  /** What a prune does, without saying how: there is one way to sweep below the boundary, and the prune does it if
      that lowers the payload total by at least the minimum, and otherwise nothing. */
  lemma PruneSweepsOrKeeps(cs: seq<Content>, kn: Knobs, ds: seq<Content>)
    requires kn.Valid() && SweptBelow(cs, Boundary(cs, kn), ds, kn.measure)
    ensures PayloadTokens(ds, kn.measure) <= PayloadTokens(cs, kn.measure)
    ensures Pruned(cs, kn) ==
            if PayloadTokens(cs, kn.measure) - PayloadTokens(ds, kn.measure) >= kn.minimum then ds else cs
  {
    SweptBelowIs(cs, Boundary(cs, kn), ds, kn.measure);
    ClearedBelowFrees(cs, Boundary(cs, kn), kn.measure);
  }

  /** That way exists. */
  lemma SweptExists(cs: seq<Content>, kn: Knobs)
    ensures exists ds :: SweptBelow(cs, Boundary(cs, kn), ds, kn.measure)
  {
    SweptBelowIs(cs, Boundary(cs, kn), ClearedBelow(cs, Boundary(cs, kn), kn.measure), kn.measure);
  }

  /** Nothing at or above the boundary changes, no protected tool's result changes, and no part loses its
      kind, id or name. */
  lemma PruneFrame(cs: seq<Content>, kn: Knobs)
    ensures var ds := Pruned(cs, kn);
            && |ds| == |cs|
            && (forall i :: Boundary(cs, kn) <= i < |cs| ==> ds[i] == cs[i])
            && (forall i :: 0 <= i < |cs| ==> ds[i].role == cs[i].role && |ds[i].parts| == |cs[i].parts|)
            && (forall i, k :: 0 <= i < |cs| && 0 <= k < |cs[i].parts| ==>
                  var p, q := cs[i].parts[k], ds[i].parts[k];
                  q == p || (p.Response? && !TailTrim.ProtectedResult(p) && q == Response(p.id, p.name, PLACEHOLDER)))
  {
    forall i | 0 <= i < |cs| { PrunedAt(cs, kn, i); }
  }

  lemma PrunedAnswers(c: Content, r: Part, m: string -> nat)
    requires r.Response?
    ensures HoldsCallFor(c, r) <==> HoldsCallFor(Cleared(c, m), r)
    ensures HasResponse(c) <==> HasResponse(Cleared(c, m))
  {
    var d := Cleared(c, m);
    forall k | 0 <= k < |c.parts|
      ensures Answers(c.parts[k], r) <==> Answers(d.parts[k], r)
      ensures c.parts[k].Response? <==> d.parts[k].Response?
    {
      assert d.parts[k] == ClearedPart(c.parts[k], m);
    }
    if HoldsCallFor(c, r) {
      var k :| 0 <= k < |c.parts| && Answers(c.parts[k], r);
      assert Answers(d.parts[k], r);
    }
    if HoldsCallFor(d, r) {
      var k :| 0 <= k < |c.parts| && Answers(d.parts[k], r);
      assert Answers(c.parts[k], r);
    }
    if HasResponse(c) {
      var k :| 0 <= k < |c.parts| && c.parts[k].Response?;
      assert d.parts[k].Response? && d.parts[k] in d.parts;
    }
    if HasResponse(d) {
      var k :| 0 <= k < |c.parts| && d.parts[k].Response?;
      assert c.parts[k].Response? && c.parts[k] in c.parts;
    }
  }

  lemma PrunedAnswersAt(cs: seq<Content>, kn: Knobs, x: nat, r: Part)
    requires x < |cs| && r.Response?
    ensures HoldsCallFor(cs[x], r) <==> HoldsCallFor(Pruned(cs, kn)[x], r)
    ensures HasResponse(cs[x]) <==> HasResponse(Pruned(cs, kn)[x])
  {
    PrunedAt(cs, kn, x);
    PrunedAnswers(cs[x], r, kn.measure);
  }

  /** A response of the pruned list asks for the same call as the response it was. */
  lemma PrunedDemand(cs: seq<Content>, kn: Knobs, j: nat, r: Part) returns (p: Part)
    requires j < |cs| && Demands(Pruned(cs, kn)[j], r)
    ensures Demands(cs[j], p) && p.id == r.id && p.name == r.name
  {
    var d := Pruned(cs, kn)[j];
    PruneFrame(cs, kn);
    var k :| 0 <= k < |d.parts| && d.parts[k] == r;
    p := cs[j].parts[k];
  }

  /** Clearing payloads never breaks a call/response pair, so a trim after a prune is still safe. */
  lemma PruneKeepsChains(cs: seq<Content>, kn: Knobs)
    requires Chained(cs)
    ensures Chained(Pruned(cs, kn))
  {
    var ds := Pruned(cs, kn);
    forall j, r | 0 <= j < |ds| && Demands(ds[j], r)
      ensures exists i :: LeadsTo(ds, i, j) && HoldsCallFor(ds[i], r)
    {
      var p := PrunedDemand(cs, kn, j, r);
      var i :| LeadsTo(cs, i, j) && HoldsCallFor(cs[i], p);
      forall x | 0 <= x < |cs|
        ensures HasResponse(cs[x]) <==> HasResponse(ds[x])
      {
        PrunedAnswersAt(cs, kn, x, p);
      }
      PrunedAnswersAt(cs, kn, i, p);
      var call :| call in ds[i].parts && Answers(call, p);
      assert Answers(call, r);
      assert LeadsTo(ds, i, j);
    }
  }

  // ---------------------------------------------------------------- many prunes

  /** The walk only looks at the contents it protects. */
  lemma {:induction false} WalkSeesProtectedOnly(cs: seq<Content>, ds: seq<Content>, k: nat, running: nat, kn: Knobs)
    requires k <= |cs| && k <= |ds|
    requires forall i :: Walk(cs, k, running, kn) <= i < k ==> cs[i] == ds[i]
    ensures Walk(ds, k, running, kn) == Walk(cs, k, running, kn)
  {
    if k > 0 && running < kn.protect {
      WalkSeesProtectedOnly(cs, ds, k - 1, running + PartTokens(cs[k - 1].parts, kn.measure), kn);
    }
  }

  lemma {:induction false} WalkMonotoneInRunning(cs: seq<Content>, k: nat, low: nat, high: nat, kn: Knobs)
    requires k <= |cs| && low <= high
    ensures Walk(cs, k, low, kn) <= Walk(cs, k, high, kn)
  {
    if k > 0 && high < kn.protect {
      var t := PartTokens(cs[k - 1].parts, kn.measure);
      WalkMonotoneInRunning(cs, k - 1, low + t, high + t, kn);
    }
  }

  lemma {:induction false} WalkMonotoneInStart(cs: seq<Content>, k: nat, start: nat, running: nat, kn: Knobs)
    requires k <= start <= |cs|
    ensures Walk(cs, k, 0, kn) <= Walk(cs, start, running, kn)
    decreases start
  {
    if k == start {
      WalkMonotoneInRunning(cs, k, 0, running, kn);
    } else if running < kn.protect {
      WalkMonotoneInStart(cs, k, start - 1, running + PartTokens(cs[start - 1].parts, kn.measure), kn);
    }
  }

  /** A prune leaves the boundary where it is. */
  lemma BoundaryAfterPrune(cs: seq<Content>, kn: Knobs)
    ensures Boundary(Pruned(cs, kn), kn) == Boundary(cs, kn)
  {
    forall i | 0 <= i < |cs| { PrunedAt(cs, kn, i); }
    BoundarySeesProtectedOnly(cs, Pruned(cs, kn), kn);
  }

  lemma BoundarySeesProtectedOnly(cs: seq<Content>, ds: seq<Content>, kn: Knobs)
    requires |ds| == |cs| && forall i :: Boundary(cs, kn) <= i < |cs| ==> ds[i] == cs[i]
    ensures Boundary(ds, kn) == Boundary(cs, kn)
  {
    WalkSeesProtectedOnly(cs, ds, |cs| - Min(kn.tail, |cs|), 0, kn);
  }

  /** Appending contents never moves the boundary back. */
  lemma BoundaryAfterAppend(cs: seq<Content>, c: Content, kn: Knobs)
    requires kn.Valid()
    ensures Boundary(cs, kn) <= Boundary(cs + [c], kn)
  {
    var ds := cs + [c];
    var old_, new_ := |cs| - Min(kn.tail, |cs|), |ds| - Min(kn.tail, |ds|);
    WalkSeesProtectedOnly(ds, cs, new_, 0, kn);
    WalkMonotoneInStart(cs, old_, new_, 0, kn);
  }

  lemma {:induction false} ClearedFreesNothing(parts: seq<Part>, m: string -> nat)
    requires forall p :: p in parts ==> !Clearable(p, m)
    ensures FreedParts(parts, m) == 0
  {
    if parts != [] { ClearedFreesNothing(parts[..|parts| - 1], m); }
  }

  lemma {:induction false} ClearedPrefixFreesNothing(cs: seq<Content>, m: string -> nat)
    requires forall c, p :: c in cs && p in c.parts ==> !Clearable(p, m)
    ensures FreedTotal(cs, m) == 0
  {
    if cs != [] {
      assert cs[|cs| - 1] in cs;
      ClearedPrefixFreesNothing(cs[..|cs| - 1], m);
      ClearedFreesNothing(cs[|cs| - 1].parts, m);
    }
  }

  lemma ClearedIsUnclearable(c: Content, m: string -> nat)
    ensures forall p :: p in Cleared(c, m).parts ==> !Clearable(p, m)
    ensures Cleared(Cleared(c, m), m) == Cleared(c, m)
  {
    var d := Cleared(c, m);
    assert Cleared(d, m).parts == d.parts;
  }

  /** Pruning twice is pruning once. */
  lemma PruneIsIdempotent(cs: seq<Content>, kn: Knobs)
    requires kn.Valid()
    ensures Pruned(Pruned(cs, kn), kn) == Pruned(cs, kn)
  {
    if Commits(cs, kn) {
      BoundaryAfterPrune(cs, kn);
      ClearedBelowFreesNothing(cs, Boundary(cs, kn), kn.measure);
    }
  }

  lemma ClearedBelowFreesNothing(cs: seq<Content>, b: nat, m: string -> nat)
    requires b <= |cs|
    ensures FreedTotal(ClearedBelow(cs, b, m)[..b], m) == 0
  {
    var ds := ClearedAll(cs[..b], m);
    forall c, p | c in ds && p in c.parts
      ensures !Clearable(p, m)
    {
      var i :| 0 <= i < b && ds[i] == c;
      ClearedAllAt(cs[..b], m, i);
      ClearedIsUnclearable(cs[i], m);
    }
    ClearedPrefixFreesNothing(ds, m);
    assert ClearedBelow(cs, b, m)[..b] == ds;
  }

  /** A session: contents arrive, and at some calls the prune runs. */
  datatype Event = Arrives(c: Content) | Prunes

  function Run(events: seq<Event>, kn: Knobs): seq<Content> {
    if events == [] then []
    else
      var before, e := Run(events[..|events| - 1], kn), events[|events| - 1];
      if e.Arrives? then before + [e.c] else Pruned(before, kn)
  }

  function Raw(events: seq<Event>): seq<Content> {
    if events == [] then []
    else Raw(events[..|events| - 1]) + if events[|events| - 1].Arrives? then [events[|events| - 1].c] else []
  }

  /** Over any run the boundary never moves back, so what was prunable stays prunable. */
  lemma {:induction false} BoundaryNeverMovesBack(events: seq<Event>, n: nat, kn: Knobs)
    requires kn.Valid() && n <= |events|
    ensures Boundary(Run(events[..n], kn), kn) <= Boundary(Run(events, kn), kn)
  {
    if n < |events| {
      var init := events[..|events| - 1];
      BoundaryNeverMovesBack(init, n, kn);
      assert init[..n] == events[..n];
      var before, e := Run(init, kn), events[|events| - 1];
      if e.Arrives? { BoundaryAfterAppend(before, e.c, kn); } else { BoundaryAfterPrune(before, kn); }
    } else {
      assert events[..n] == events;
    }
  }

  /** Over any run of arrivals and prunes every content is as it arrived or cleared once, and everything
      in the protected region is exactly as it arrived: no cleared payload ever re-enters it. */
  lemma {:induction false} ProtectedRegionIsVerbatim(events: seq<Event>, kn: Knobs)
    requires kn.Valid()
    ensures var now, raw := Run(events, kn), Raw(events);
            && |now| == |raw|
            && (forall i :: Boundary(now, kn) <= i < |raw| ==> now[i] == raw[i])
            && (forall i :: 0 <= i < |raw| ==> now[i] == raw[i] || now[i] == Cleared(raw[i], kn.measure))
  {
    if events != [] {
      var init, e := events[..|events| - 1], events[|events| - 1];
      ProtectedRegionIsVerbatim(init, kn);
      var before := Run(init, kn);
      if e.Arrives? {
        BoundaryAfterAppend(before, e.c, kn);
      } else {
        BoundaryAfterPrune(before, kn);
        PruneFrame(before, kn);
        forall i | 0 <= i < |before|
          ensures Pruned(before, kn)[i] == before[i] || Pruned(before, kn)[i] == Cleared(Raw(init)[i], kn.measure)
        {
          PrunedAt(before, kn, i);
          ClearedIsUnclearable(Raw(init)[i], kn.measure);
        }
      }
    }
  }

  /** Over any run no call, no text, no result of a protected tool and no payload under 1,000 tokens is ever
      lost. */
  lemma SmallPayloadsAreKept(events: seq<Event>, kn: Knobs, i: nat, k: nat)
    requires kn.Valid() && i < |Raw(events)| && k < |Raw(events)[i].parts|
    requires var p := Raw(events)[i].parts[k];
             p.Response? ==> p.name in {"LoadGaPlaybook", "select_recipe"} || kn.measure(p.payload) < 1_000
    ensures |Run(events, kn)| == |Raw(events)| && |Run(events, kn)[i].parts| == |Raw(events)[i].parts|
    ensures Run(events, kn)[i].parts[k] == Raw(events)[i].parts[k]
  {
    ProtectedRegionIsVerbatim(events, kn);
    ClearedIsSwept(Raw(events)[i], kn.measure);
  }
}
