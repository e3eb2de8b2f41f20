/** What one model call makes of its contents: the decision ladder (manual request, real token count,
    lifecycle boundary), the prune, the trim, and the escalation gate at the end. */
module CompactionTurn {
  import opened Basics
  import opened Transcript
  import opened TailTrim
  import opened Repair
  import opened SessionBreakers
  import Escalation
  import Prune

  /** The process-wide one-shot `/compact` request. */
  class ManualSignal {
    var requested: bool
    constructor ()
      ensures !requested
    {
      requested := false;
    }

    method Request()
      modifies this
      ensures requested
    {
      requested := true;
    }

    method Consume() returns (prior: bool)
      modifies this
      ensures prior == old(requested) && !requested
    {
      prior := requested;
      requested := false;
    }
  }

  datatype Policy = Policy(cfg: Config, knobs: Prune.Knobs, manual: bool, prune: bool, pct: real, reserve: nat,
                           tokenThreshold: nat, explicitThreshold: bool, eventThreshold: nat, criticalPct: real)

  /** The two numbers the decision reads besides the contents: the stored real prompt size and the window. */
  datatype Signals = Signals(realTokens: Option<int>, window: int)

  /** What the two strategies of the escalation ladder answer for the contents they are handed. */
  datatype Strategies = Strategies(tier6: seq<Content> -> Option<seq<Msg>>, tier7: seq<Content> -> Option<seq<Msg>>)

  function Percent(n: int, pct: real): int { (n as real * pct).Floor }

  function RealThreshold(p: Policy, window: int): int { Percent(window - p.reserve, p.pct) }

  predicate UsableWindow(p: Policy, window: int) { window - p.reserve >= 1 && RealThreshold(p, window) >= 1 }

  /** `None` defers to the boundary: no real count, or a degenerate window. */
  function RealTokenDecision(p: Policy, sig: Signals): Option<bool> {
    if !p.cfg.realTokens || sig.realTokens.None? || sig.realTokens.value < 0 || !UsableWindow(p, sig.window) then None
    else Some(sig.realTokens.value >= RealThreshold(p, sig.window))
  }

  function EffectiveThreshold(p: Policy, sig: Signals): int {
    var windowed := Percent(sig.window - p.reserve, p.pct);
    if p.explicitThreshold || windowed < p.tokenThreshold then p.tokenThreshold else windowed
  }

  predicate BoundaryBreached(est: Content -> nat, cs: seq<Content>, p: Policy, sig: Signals) {
    Escalation.Total(est, cs) > EffectiveThreshold(p, sig) || |cs| > p.eventThreshold
  }

  /** Whether the tail is trimmed, for contents already past the prune. */
  predicate Decides(est: Content -> nat, cs: seq<Content>, forced: bool, p: Policy, sig: Signals) {
    forced || (match RealTokenDecision(p, sig)
               case Some(breach) => breach
               case None => BoundaryBreached(est, cs, p, sig))
  }

  predicate Forces(cs: seq<Content>, requested: bool, p: Policy) {
    |cs| > p.knobs.tail && p.manual && requested
  }

  function AfterPrune(cs: seq<Content>, p: Policy): seq<Content> {
    if |cs| > p.knobs.tail && p.prune then Prune.Pruned(cs, p.knobs) else cs
  }

  predicate Trims(est: Content -> nat, cs: seq<Content>, requested: bool, p: Policy, sig: Signals) {
    |cs| > p.knobs.tail && Decides(est, AfterPrune(cs, p), Forces(cs, requested, p), p, sig)
  }

  /** The prefix a call really drops. */
  function DroppedPrefix(est: Content -> nat, cs: seq<Content>, requested: bool, p: Policy,
      sig: Signals): seq<Content> {
    var pruned := AfterPrune(cs, p);
    if Trims(est, cs, requested, p, sig) then pruned[..CutPoint(pruned, p.knobs.tail)] else []
  }

  /** `summary` is the summary made of the dropped prefix, if any. */
  function AfterTrimRequest(est: Content -> nat, cs: seq<Content>, requested: bool, p: Policy, sig: Signals,
                            summary: Option<string>): seq<Content>
  {
    var pruned := AfterPrune(cs, p);
    if Trims(est, cs, requested, p, sig) then Trimmed(pruned, p.knobs.tail, summary) else pruned
  }

  predicate GateOpens(est: Content -> nat, cs: seq<Content>, p: Policy, window: int) {
    var budget := Percent(window, p.criticalPct);
    p.cfg.proactive && cs != [] && budget >= 1 && Escalation.Total(est, cs) > budget
  }

  function AfterGate(est: Content -> nat, cs: seq<Content>, p: Policy, window: int, st: Strategies): seq<Content> {
    if !GateOpens(est, cs, p, window) then cs
    else
      var tier6 := st.tier6(cs);
      Escalation.Escalated(est, Percent(window, p.criticalPct), cs, tier6, st.tier7(Escalation.Applied(cs, tier6))).0
  }

  /** What is sent to the model. */
  function Sent(est: Content -> nat, cs: seq<Content>, requested: bool, p: Policy, sig: Signals,
                summary: Option<string>, st: Strategies): seq<Content>
  {
    AfterGate(est, AfterTrimRequest(est, cs, requested, p, sig, summary), p, sig.window, st)
  }

  // ---------------------------------------------------------------- the thresholds

  lemma AbovePercent(n: int, m: int, pct: real)
    ensures n > Percent(m, pct) <==> n as real > m as real * pct
    ensures n >= Percent(m, pct) <==> n as real > m as real * pct - 1.0
  {
  }

  /** The real count decides when it is there and some of the window is left for the prompt, and it calls for a trim
      when it reaches that share of it, rounded down. */
  lemma RealDecisionIff(p: Policy, sig: Signals)
    ensures var usable := (sig.window - p.reserve) as real * p.pct;
            RealTokenDecision(p, sig) ==
            if p.cfg.realTokens && sig.realTokens.Some? && sig.realTokens.value >= 0
               && sig.window > p.reserve && usable >= 1.0
            then Some(sig.realTokens.value as real > usable - 1.0) else None
  {
    if sig.realTokens.Some? { AbovePercent(sig.realTokens.value, sig.window - p.reserve, p.pct); }
    AbovePercent(1, sig.window - p.reserve, p.pct);
  }

  /** The boundary is breached by too many contents, or by an estimate above the configured threshold that, unless
      that was set on purpose, is also above the share of the window. */
  lemma BoundaryIff(est: Content -> nat, cs: seq<Content>, p: Policy, sig: Signals)
    ensures var total := Escalation.Total(est, cs);
            BoundaryBreached(est, cs, p, sig) <==>
            || |cs| > p.eventThreshold
            || (total > p.tokenThreshold &&
                (p.explicitThreshold || total as real > (sig.window - p.reserve) as real * p.pct))
  {
    AbovePercent(Escalation.Total(est, cs), sig.window - p.reserve, p.pct);
  }

  /** The gate opens above the critical share of the window, if that is at least one token. */
  lemma GateIff(est: Content -> nat, cs: seq<Content>, p: Policy, window: int)
    ensures var critical := window as real * p.criticalPct;
            GateOpens(est, cs, p, window) <==>
            p.cfg.proactive && cs != [] && critical >= 1.0 && Escalation.Total(est, cs) as real > critical
  {
    AbovePercent(Escalation.Total(est, cs), window, p.criticalPct);
  }

  // ---------------------------------------------------------------- which signal decides

  /** The earlier signal decides alone: under a manual request neither count nor estimate has any influence on
      the outcome, and under a usable real count the estimate has none. */
  lemma EarlierSignalDecidesAlone(est: Content -> nat, other: Content -> nat, cs: seq<Content>, requested: bool,
                                  p: Policy, sig: Signals, sig': Signals, summary: Option<string>)
    ensures Forces(cs, requested, p) ==>
              AfterTrimRequest(est, cs, requested, p, sig, summary) ==
                  AfterTrimRequest(other, cs, requested, p, sig', summary)
    ensures RealTokenDecision(p, sig).Some? ==>
              AfterTrimRequest(est, cs, requested, p, sig, summary) ==
                  AfterTrimRequest(other, cs, requested, p, sig, summary)
  {
  }

  /** Exactly when the stored real count matters: two counts lead to different drops if and only if they lie on
      different sides of the threshold, the call is long enough and not forced, and the cut drops something. */
  lemma RealCountMovesDropIff(est: Content -> nat, cs: seq<Content>, requested: bool, p: Policy, window: int,
                              n: nat, m: nat)
    requires p.cfg.realTokens && UsableWindow(p, window)
    ensures DroppedPrefix(est, cs, requested, p, Signals(Some(n), window)) !=
            DroppedPrefix(est, cs, requested, p, Signals(Some(m), window))
            <==>
            && (n >= RealThreshold(p, window)) != (m >= RealThreshold(p, window))
            && |cs| > p.knobs.tail && !Forces(cs, requested, p)
            && CutPoint(AfterPrune(cs, p), p.knobs.tail) > 0
  {
    var pruned := AfterPrune(cs, p);
    assert CutPoint(pruned, p.knobs.tail) == 0 ==> pruned[..CutPoint(pruned, p.knobs.tail)] == [];
  }

  lemma FloorMonotone(a: real, b: real)
    requires a <= b
    ensures a.Floor <= b.Floor
  {
  }

  /** More real tokens never turn a trim off, and a larger window never turns one on. */
  lemma RealDecisionIsMonotone(p: Policy, sig: Signals, tokens: int, window: int)
    requires p.pct >= 0.0 && RealTokenDecision(p, sig).Some?
    requires tokens >= sig.realTokens.value && window >= sig.window
    ensures RealTokenDecision(p, sig) == Some(true) ==>
              RealTokenDecision(p, sig.(realTokens := Some(tokens))) == Some(true)
    ensures RealTokenDecision(p, sig) == Some(false) ==>
              RealTokenDecision(p, sig.(window := window)) == Some(false)
  {
    assert (sig.window - p.reserve) as real * p.pct <= (window - p.reserve) as real * p.pct;
    FloorMonotone((sig.window - p.reserve) as real * p.pct, (window - p.reserve) as real * p.pct);
  }

  // ---------------------------------------------------------------- what the model receives

  lemma PruneKeepsUnmixed(cs: seq<Content>, kn: Prune.Knobs)
    requires Unmixed(cs)
    ensures Unmixed(Prune.Pruned(cs, kn))
  {
    var ds := Prune.Pruned(cs, kn);
    Prune.PruneFrame(cs, kn);
    forall c | c in ds
      ensures !(HasCall(c) && HasResponse(c))
    {
      var i :| 0 <= i < |ds| && ds[i] == c;
      assert cs[i] in cs;
      KindsAfterPrune(cs[i], c);
    }
  }

  lemma KindsAfterPrune(c: Content, d: Content)
    requires |c.parts| == |d.parts|
    requires forall k :: 0 <= k < |c.parts| ==>
               d.parts[k] == c.parts[k] || (c.parts[k].Response? && d.parts[k].Response?)
    ensures HasCall(d) ==> HasCall(c)
    ensures HasResponse(d) ==> HasResponse(c)
  {
    assert forall k :: 0 <= k < |c.parts| ==> c.parts[k] in c.parts;
  }

  lemma TrimKeepsUnmixed(cs: seq<Content>, tail: nat, summary: Option<string>)
    requires Unmixed(cs)
    ensures Unmixed(Trimmed(cs, tail, summary))
  {
    FrontIsToolFree(cs, CutPoint(cs, tail), summary);
  }

  lemma PruneStepIsSafe(cs: seq<Content>, p: Policy)
    requires Chained(cs) && Unmixed(cs)
    ensures Chained(AfterPrune(cs, p)) && Unmixed(AfterPrune(cs, p))
  {
    Prune.PruneKeepsChains(cs, p.knobs);
    PruneKeepsUnmixed(cs, p.knobs);
  }

  lemma TrimStepIsSafe(est: Content -> nat, cs: seq<Content>, requested: bool, p: Policy, sig: Signals,
                       summary: Option<string>)
    requires Chained(cs) && Unmixed(cs) && p.knobs.Valid()
    ensures var out := AfterTrimRequest(est, cs, requested, p, sig, summary);
            Unmixed(out) && OrphanFree(out)
  {
    var pruned := AfterPrune(cs, p);
    PruneStepIsSafe(cs, p);
    Escalation.ChainedIsOrphanFree(pruned);
    TrimKeepsPairs(pruned, p.knobs.tail, summary);
    TrimKeepsUnmixed(pruned, p.knobs.tail, summary);
  }

  /** End to end: from a chained, unmixed history, every setting of the flags, every decision, every summary
      and every pair of strategy answers sends the model a request without an orphaned response. */
  lemma EveryRequestIsOrphanFree(est: Content -> nat, cs: seq<Content>, requested: bool, p: Policy, sig: Signals,
                                 summary: Option<string>, st: Strategies)
    requires Chained(cs) && Unmixed(cs) && p.knobs.Valid()
    ensures OrphanFree(Sent(est, cs, requested, p, sig, summary, st))
  {
    TrimStepIsSafe(est, cs, requested, p, sig, summary);
    var mid := AfterTrimRequest(est, cs, requested, p, sig, summary);
    if GateOpens(est, mid, p, sig.window) {
      var tier6 := st.tier6(mid);
      Escalation.LadderIsOrphanFree(est, Percent(sig.window, p.criticalPct), mid, tier6,
                                    st.tier7(Escalation.Applied(mid, tier6)));
    }
  }

  lemma PruneKeepsGenuineTexts(cs: seq<Content>, kn: Prune.Knobs, n: nat)
    requires n <= |cs|
    ensures |Prune.Pruned(cs, kn)| == |cs|
    ensures LastUserText(Prune.Pruned(cs, kn), n) == LastUserText(cs, n)
    ensures forall i :: 0 <= i < n && GenuineUserText(cs[i]) ==> Prune.Pruned(cs, kn)[i] == cs[i]
  {
    var ds := Prune.Pruned(cs, kn);
    Prune.PruneFrame(cs, kn);
    if n > 0 {
      PruneKeepsGenuineTexts(cs, kn, n - 1);
      GenuineAfterPrune(cs[n - 1], ds[n - 1]);
    }
  }

  lemma GenuineAfterPrune(c: Content, d: Content)
    requires c.role == d.role && |c.parts| == |d.parts|
    requires forall k :: 0 <= k < |c.parts| ==>
               d.parts[k] == c.parts[k] || (c.parts[k].Response? && d.parts[k].Response?)
    ensures GenuineUserText(c) <==> GenuineUserText(d)
    ensures GenuineUserText(c) ==> c == d
  {
    if HasResponse(c) {
      var k :| 0 <= k < |c.parts| && c.parts[k].Response?;
      assert d.parts[k] in d.parts;
    } else {
      assert forall k :: 0 <= k < |c.parts| ==> c.parts[k] in c.parts;
      assert c.parts == d.parts;
    }
  }

  /** The trim step never loses the user's last turn, whatever it decides. */
  lemma TrimStepKeepsActiveTask(est: Content -> nat, cs: seq<Content>, requested: bool, p: Policy, sig: Signals,
                                summary: Option<string>)
    requires ActiveTask(cs).Some?
    ensures ActiveTask(AfterTrimRequest(est, cs, requested, p, sig, summary)) == ActiveTask(cs)
  {
    var pruned := AfterPrune(cs, p);
    PruneKeepsGenuineTexts(cs, p.knobs, |cs|);
    TrimKeepsActiveTask(pruned, p.knobs.tail, summary);
  }
}
