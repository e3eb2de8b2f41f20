/** Whole sessions seen from tier 7: exactly when the summarizer has no say over what tier 7 does. */
module Tier7Sessions {
  import opened Basics
  import opened Transcript
  import opened TailTrim
  import opened Escalation
  import opened SessionBreakers
  import opened CompactionTurn
  import opened CompactionPlugin
  import opened ModelRuns
  import opened Tier7Reach

  /** Two calls that may differ in the summarizer and the reported size only. */
  ghost predicate SameTier7Side(c: ModelCall, d: ModelCall) {
    && c.contents == d.contents && c.requested == d.requested
    && c.world.est == d.world.est && c.world.render == d.world.render && c.world.window == d.world.window
    && c.world.compact == d.world.compact
  }

  ghost predicate SameTier7Sides(a: seq<ModelCall>, b: seq<ModelCall>) {
    |a| == |b| && forall i :: 0 <= i < |a| ==> SameTier7Side(a[i], b[i])
  }

  /** Two sessions that agree in all but their summarizers and what they hold of summaries: same calls, same
      tier-7 counter, and prompt sizes that call for the same decisions. */
  ghost predicate Comparable(p: Policy, s: Session, s': Session, a: seq<ModelCall>, b: seq<ModelCall>) {
    && SameTier7Sides(a, b) && ReadCount(s, PROACTIVE_KEY) == ReadCount(s', PROACTIVE_KEY)
    && CountsDecideAlike(p, s, s', a, b)
  }

  // ---------------------------------------------------------------- one call

  /** What tier 6 leaves of the contents at the gate. */
  function Drained(w: World, mid: seq<Content>): seq<Content> {
    Applied(mid, DrainAnswer(mid, w.render))
  }

  /** The contents at the gate are heavier than the critical budget, as they are and after tier 6, and leave
      something to compact. */
  predicate Heavy(p: Policy, w: World, mid: seq<Content>) {
    var budget := Percent(w.window, p.criticalPct);
    p.cfg.proactive && budget >= 1 && budget < Lightest(w.est, w.render, mid) && |Drained(w, mid)| >= 2
  }

  /** Tier 7 is called for both or for neither, and in the first case its summarizer raises on both or on
      neither. */
  predicate AlikeAtTier7(p: Policy, w: World, mid: seq<Content>, mid': seq<Content>) {
    && Heavy(p, w, mid) == Heavy(p, w, mid')
    && (Heavy(p, w, mid) ==> w.compact(Drained(w, mid)).None? == w.compact(Drained(w, mid')).None?)
  }

  lemma HeavyIsLoad(p: Policy, w: World, mid: seq<Content>)
    ensures Tier7Load(p, w, mid) == if Heavy(p, w, mid) then Some(Drained(w, mid)) else None
  {
    var budget := Percent(w.window, p.criticalPct);
    LoadIffReaches(p, w, mid);
    if budget >= 1 { ReachesIff(w.est, budget, w.render, mid); }
  }

  lemma OutcomesAlikeIff(p: Policy, w: World, mid: seq<Content>, mid': seq<Content>)
    ensures Outcome(p, w, mid) == Outcome(p, w, mid') <==> AlikeAtTier7(p, w, mid, mid')
  {
    HeavyIsLoad(p, w, mid);
    HeavyIsLoad(p, w, mid');
  }

  /** What the trim leaves of the contents when it cuts, with a given summary or without. */
  function Cut(p: Policy, c: ModelCall, summary: Option<string>): seq<Content> {
    Trimmed(AfterPrune(c.contents, p), p.knobs.tail, summary)
  }

  /** The summarizer has no say over tier 7 at this call: no prefix is dropped, or whatever text heads the rest,
      tier 7 takes it as it takes the rest alone. */
  ghost predicate Settled(p: Policy, s: Session, c: ModelCall) {
    p.cfg.summarize && DroppedBy(p, s, c) != [] ==>
      forall summary: string :: summary != "" ==> AlikeAtTier7(p, c.world, Cut(p, c, Some(summary)), Cut(p, c, None))
  }

  lemma GateContents(p: Policy, s: Session, c: ModelCall)
    ensures DroppedBy(p, s, c) != [] ==> AfterTrim(p, s, c) == Cut(p, c, SummaryOf(p, s, c))
    ensures DroppedBy(p, s, c) == [] ==> AfterTrim(p, s, c) == AfterPrune(c.contents, p)
    ensures SummaryOf(p, s, c).Some? ==> p.cfg.summarize && SummaryOf(p, s, c).value != ""
  {
  }

  lemma SameDropOfBoth(p: Policy, s: Session, s': Session, c: ModelCall, d: ModelCall)
    requires SameTier7Side(c, d) && DecideAlike(p, s, s', c.world)
    ensures DroppedBy(p, s, c) == DroppedBy(p, s', d)
  {
    assert Trims(c.world.est, c.contents, c.requested, p, SignalsOf(p, s, c.world))
        == Trims(c.world.est, c.contents, c.requested, p, SignalsOf(p, s', c.world));
  }

  /** At a settled call tier 7 does the same with or without a summary. */
  lemma SettledOutcome(p: Policy, s: Session, c: ModelCall)
    requires Settled(p, s, c) && DroppedBy(p, s, c) != []
    ensures Tier7Outcome(p, s, c) == Outcome(p, c.world, Cut(p, c, None))
  {
    var summary := SummaryOf(p, s, c);
    GateContents(p, s, c);
    if summary.Some? {
      assert AlikeAtTier7(p, c.world, Cut(p, c, Some(summary.value)), Cut(p, c, None));
      OutcomesAlikeIff(p, c.world, Cut(p, c, summary), Cut(p, c, None));
    }
  }

  lemma SameWorldOutcome(p: Policy, w: World, w': World, mid: seq<Content>)
    requires w.est == w'.est && w.render == w'.render && w.window == w'.window && w.compact == w'.compact
    ensures Outcome(p, w, mid) == Outcome(p, w', mid)
    ensures AlikeAtTier7(p, w, mid, mid) && Heavy(p, w, mid) == Heavy(p, w', mid)
  {
  }

  lemma SettledAlike(p: Policy, s: Session, s': Session, c: ModelCall, d: ModelCall)
    requires SameTier7Side(c, d) && DecideAlike(p, s, s', c.world)
    ensures Settled(p, s, c) <==> Settled(p, s', d)
  {
    SameDropOfBoth(p, s, s', c, d);
    assert forall x :: Cut(p, c, x) == Cut(p, d, x);
    assert forall mid, mid' :: AlikeAtTier7(p, c.world, mid, mid') == AlikeAtTier7(p, d.world, mid, mid');
  }

  lemma SettledCallsAgree(p: Policy, s: Session, s': Session, c: ModelCall, d: ModelCall)
    requires SameTier7Side(c, d) && DecideAlike(p, s, s', c.world) && Settled(p, s, c)
    ensures Tier7Outcome(p, s, c) == Tier7Outcome(p, s', d)
  {
    SameDropOfBoth(p, s, s', c, d);
    if DroppedBy(p, s, c) == [] {
      GateContents(p, s, c);
      GateContents(p, s', d);
      SameWorldOutcome(p, c.world, d.world, AfterPrune(c.contents, p));
    } else {
      SettledAlike(p, s, s', c, d);
      SettledOutcome(p, s, c);
      SettledOutcome(p, s', d);
      SameWorldOutcome(p, c.world, d.world, Cut(p, c, None));
    }
  }

  // ---------------------------------------------------------------- sessions of settled calls

  /** Every call that finds the tier-7 breaker closed is settled. */
  ghost predicate SettledWhileClosed(p: Policy, s: Session, calls: seq<ModelCall>) {
    calls == [] ||
    (var init, c := calls[..|calls| - 1], calls[|calls| - 1];
     SettledWhileClosed(p, s, init) &&
     (Tier7Closed(p, SessionAfter(p, s, init)) ==> Settled(p, SessionAfter(p, s, init), c)))
  }

  lemma ComparableInit(p: Policy, s: Session, s': Session, a: seq<ModelCall>, b: seq<ModelCall>)
    requires Comparable(p, s, s', a, b) && a != []
    ensures var m := |a| - 1;
            && Comparable(p, s, s', a[..m], b[..m]) && SameTier7Side(a[m], b[m])
            && DecideAlike(p, SessionAfter(p, s, a[..m]), SessionAfter(p, s', b[..m]), a[m].world)
  {
  }

  /** Settled calls have one tier-7 history: two sessions that agree in contents, requests, estimator, window and
      tier-7 summarizer go through the same tier-7 calls, with the same ends, and keep the same counter, whatever
      their summarizers answer and whatever they hold of summaries. */
  lemma {:induction false} SettledSessionsAgree(p: Policy, s: Session, s': Session,
                                                a: seq<ModelCall>, b: seq<ModelCall>)
    requires Comparable(p, s, s', a, b) && SettledWhileClosed(p, s, a)
    ensures SameOutcomes(p, s, s', a, b)
    ensures Tier7Log(p, s, a) == Tier7Log(p, s', b)
    ensures ReadCount(SessionAfter(p, s, a), PROACTIVE_KEY) ==
            ReadCount(SessionAfter(p, s', b), PROACTIVE_KEY)
  {
    if a != [] {
      var m := |a| - 1;
      var t, t' := SessionAfter(p, s, a[..m]), SessionAfter(p, s', b[..m]);
      ComparableInit(p, s, s', a, b);
      SettledSessionsAgree(p, s, s', a[..m], b[..m]);
      if Tier7Closed(p, t) { SettledCallsAgree(p, t, t', a[m], b[m]); }
    }
    SameTier7HistoryIff(p, s, s', a, b);
  }

  // ---------------------------------------------------------------- and no others

  /** A call with a summarizer that gives one answer, and a model that reports one size. */
  function WithAnswer(c: ModelCall, answer: Option<string>, reported: Option<nat>): ModelCall {
    c.(world := c.world.(summarize := (cs: seq<Content>, a: Option<string>) => answer,
                         measure := (cs: seq<Content>) => reported))
  }

  /** The same calls with one answer of the summarizer throughout, and each with the size it reported before. */
  function Answering(p: Policy, s: Session, calls: seq<ModelCall>, answer: Option<string>): (b: seq<ModelCall>)
    ensures |b| == |calls|
  {
    if calls == [] then []
    else
      var init, c := calls[..|calls| - 1], calls[|calls| - 1];
      Answering(p, s, init, answer) + [WithAnswer(c, answer, c.world.measure(SentBy(p, SessionAfter(p, s, init), c)))]
  }

  lemma AnsweringInit(p: Policy, s: Session, calls: seq<ModelCall>, answer: Option<string>)
    requires calls != []
    ensures Answering(p, s, calls, answer)[..|calls| - 1] == Answering(p, s, calls[..|calls| - 1], answer)
  {
  }

  lemma SidesSnoc(a: seq<ModelCall>, b: seq<ModelCall>)
    requires |a| == |b| && a != []
    requires SameTier7Sides(a[..|a| - 1], b[..|b| - 1]) && SameTier7Side(a[|a| - 1], b[|b| - 1])
    ensures SameTier7Sides(a, b)
  {
    forall i | 0 <= i < |a|
      ensures SameTier7Side(a[i], b[i])
    {
      if i < |a| - 1 { assert a[..|a| - 1][i] == a[i] && b[..|b| - 1][i] == b[i]; }
    }
  }

  lemma {:induction false} AnsweringSides(p: Policy, s: Session, calls: seq<ModelCall>, answer: Option<string>)
    ensures SameTier7Sides(calls, Answering(p, s, calls, answer))
  {
    if calls != [] {
      AnsweringSides(p, s, calls[..|calls| - 1], answer);
      AnsweringInit(p, s, calls, answer);
      SidesSnoc(calls, Answering(p, s, calls, answer));
    }
  }

  /** A session like `s` without a failed summary. */
  function NoFailures(s: Session): Session { s[FAILURES_KEY := Int(0)] }

  lemma ReportedAlike(p: Policy, s: Session, s': Session, c: ModelCall, d: ModelCall)
    requires ReadTokens(s) == ReadTokens(s')
    requires c.world.measure(SentBy(p, s, c)) == d.world.measure(SentBy(p, s', d))
    ensures ReadTokens(After(p.cfg, s, TurnOf(p, s, c))) == ReadTokens(After(p.cfg, s', TurnOf(p, s', d)))
  {
    AfterReads(p.cfg, s, TurnOf(p, s, c));
    AfterReads(p.cfg, s', TurnOf(p, s', d));
  }

  /** Its stored prompt sizes are those of the calls it was made from. */
  lemma {:induction false} AnsweringCounts(p: Policy, s: Session, calls: seq<ModelCall>, answer: Option<string>)
    ensures var s', b := NoFailures(s), Answering(p, s, calls, answer);
            && ReadTokens(SessionAfter(p, s, calls)) == ReadTokens(SessionAfter(p, s', b))
            && CountsDecideAlike(p, s, s', calls, b)
  {
    var s', b := NoFailures(s), Answering(p, s, calls, answer);
    KeysAreDistinct();
    if calls != [] {
      var m := |calls| - 1;
      AnsweringCounts(p, s, calls[..m], answer);
      AnsweringInit(p, s, calls, answer);
      TurnsSnoc(p, s, calls);
      TurnsSnoc(p, s', b);
      ReportedAlike(p, SessionAfter(p, s, calls[..m]), SessionAfter(p, s', b[..m]), calls[m], b[m]);
    }
  }

  lemma NeverFailsStep(p: Policy, s: Session, c: ModelCall, answer: string)
    requires answer != "" && ReadCount(s, FAILURES_KEY) == 0
    requires AnswerTo(p, s, c) == Some(answer)
    ensures ReadCount(After(p.cfg, s, TurnOf(p, s, c)), FAILURES_KEY) == 0
  {
    AfterReads(p.cfg, s, TurnOf(p, s, c));
  }

  /** A summarizer that always answers keeps its breaker closed. */
  lemma {:induction false} AnsweringNeverFails(p: Policy, s: Session, calls: seq<ModelCall>, answer: string)
    requires answer != ""
    ensures ReadCount(SessionAfter(p, NoFailures(s), Answering(p, s, calls, Some(answer))), FAILURES_KEY) == 0
  {
    var s', b := NoFailures(s), Answering(p, s, calls, Some(answer));
    if calls != [] {
      var m := |calls| - 1;
      AnsweringNeverFails(p, s, calls[..m], answer);
      AnsweringInit(p, s, calls, Some(answer));
      TurnsSnoc(p, s', b);
      NeverFailsStep(p, SessionAfter(p, s', b[..m]), b[m], answer);
    }
  }

  /** It heads every cut with its answer. */
  lemma AnswerHeads(p: Policy, s: Session, calls: seq<ModelCall>, answer: Option<string>)
    requires calls != [] && p.cfg.summarize && p.cfg.cap > 0 && (answer.Some? ==> answer.value != "")
    requires var m := |calls| - 1;
             DroppedBy(p, SessionAfter(p, s, calls[..m]), calls[m]) != []
    ensures var m, s', b := |calls| - 1, NoFailures(s), Answering(p, s, calls, answer);
            var t' := SessionAfter(p, s', b[..m]);
            && SameTier7Side(calls[m], b[m])
            && Tier7Outcome(p, t', b[m]) == Outcome(p, calls[m].world, Cut(p, calls[m], answer))
  {
    var m, s', b := |calls| - 1, NoFailures(s), Answering(p, s, calls, answer);
    var t, t' := SessionAfter(p, s, calls[..m]), SessionAfter(p, s', b[..m]);
    AnsweringSides(p, s, calls, answer);
    AnsweringCounts(p, s, calls, answer);
    AnsweringInit(p, s, calls, answer);
    SameDropOfBoth(p, t, t', calls[m], b[m]);
    if answer.Some? { AnsweringNeverFails(p, s, calls[..m], answer.value); }
    assert SummaryOf(p, t', b[m]) == answer;
    GateContents(p, t', b[m]);
    SameWorldOutcome(p, calls[m].world, b[m].world, Cut(p, calls[m], answer));
  }

  /** Of an unsettled call the summarizer can change the outcome, by its answer or by giving none. */
  lemma SomeAnswerChanges(p: Policy, s: Session, c: ModelCall) returns (answer: Option<string>)
    requires !Settled(p, s, c)
    ensures p.cfg.summarize && DroppedBy(p, s, c) != [] && (answer.Some? ==> answer.value != "")
    ensures Outcome(p, c.world, Cut(p, c, answer)) != Tier7Outcome(p, s, c)
  {
    var summary :| summary != "" && !AlikeAtTier7(p, c.world, Cut(p, c, Some(summary)), Cut(p, c, None));
    OutcomesAlikeIff(p, c.world, Cut(p, c, Some(summary)), Cut(p, c, None));
    answer := if Outcome(p, c.world, Cut(p, c, None)) != Tier7Outcome(p, s, c) then None else Some(summary);
  }

  lemma AnsweringComparable(p: Policy, s: Session, calls: seq<ModelCall>, answer: Option<string>)
    ensures Comparable(p, s, NoFailures(s), calls, Answering(p, s, calls, answer))
  {
    KeysAreDistinct();
    AnsweringSides(p, s, calls, answer);
    AnsweringCounts(p, s, calls, answer);
  }

  lemma AnsweringAgrees(p: Policy, s: Session, calls: seq<ModelCall>, answer: Option<string>)
    requires SettledWhileClosed(p, s, calls)
    ensures ReadCount(SessionAfter(p, s, calls), PROACTIVE_KEY) ==
            ReadCount(SessionAfter(p, NoFailures(s), Answering(p, s, calls, answer)), PROACTIVE_KEY)
  {
    AnsweringComparable(p, s, calls, answer);
    SettledSessionsAgree(p, s, NoFailures(s), calls, Answering(p, s, calls, answer));
  }

  lemma LogsDiffer(p: Policy, s: Session, s': Session, a: seq<ModelCall>, b: seq<ModelCall>)
    requires |a| == |b| && a != []
    requires var m := |a| - 1;
             || Tier7Log(p, s, a[..m]) != Tier7Log(p, s', b[..m])
             || Tier7Entry(p, SessionAfter(p, s, a[..m]), a[m]) !=
                Tier7Entry(p, SessionAfter(p, s', b[..m]), b[m])
    ensures Tier7Log(p, s, a) != Tier7Log(p, s', b)
  {
    var m := |a| - 1;
    SnocEqual(Tier7Log(p, s, a[..m]), Tier7Log(p, s', b[..m]),
              Tier7Entry(p, SessionAfter(p, s, a[..m]), a[m]),
              Tier7Entry(p, SessionAfter(p, s', b[..m]), b[m]));
  }

  /** Answering in this way changes the outcome of the last call. */
  lemma LastCallDiffers(p: Policy, s: Session, calls: seq<ModelCall>) returns (answer: Option<string>)
    requires calls != []
    requires var init := calls[..|calls| - 1];
             var t := SessionAfter(p, s, init);
             SettledWhileClosed(p, s, init) && Tier7Closed(p, t) && !Settled(p, t, calls[|calls| - 1])
    ensures Tier7Log(p, s, calls) != Tier7Log(p, NoFailures(s), Answering(p, s, calls, answer))
  {
    var m, s' := |calls| - 1, NoFailures(s);
    var t := SessionAfter(p, s, calls[..m]);
    answer := SomeAnswerChanges(p, t, calls[m]);
    AnsweringAgrees(p, s, calls[..m], answer);
    AnswerHeads(p, s, calls, answer);
    AnsweringInit(p, s, calls, answer);
    LogsDiffer(p, s, s', calls, Answering(p, s, calls, answer));
  }

  lemma {:induction false} UnsettledSessionDiffers(p: Policy, s: Session, calls: seq<ModelCall>)
      returns (answer: Option<string>)
    requires !SettledWhileClosed(p, s, calls)
    ensures Tier7Log(p, s, calls) != Tier7Log(p, NoFailures(s), Answering(p, s, calls, answer))
  {
    var m, s' := |calls| - 1, NoFailures(s);
    if SettledWhileClosed(p, s, calls[..m]) {
      answer := LastCallDiffers(p, s, calls);
    } else {
      answer := UnsettledSessionDiffers(p, s, calls[..m]);
      var b := Answering(p, s, calls, answer);
      AnsweringInit(p, s, calls, answer);
      LogsDiffer(p, s, s', calls, b);
    }
  }

  /** No summarizer and no summary state can change the tier-7 history of these calls. */
  ghost predicate Tier7IgnoresSummaries(p: Policy, s: Session, calls: seq<ModelCall>) {
    forall s', b :: Comparable(p, s, s', calls, b) ==> Tier7Log(p, s, calls) == Tier7Log(p, s', b)
  }

  /** The exact condition over whole sessions: among all sessions that agree in everything but summarizers,
      summary counters and anchors, and whose prompt sizes call for the same decisions, the tier-7 history is one
      and the same if and only if every call met with the breaker closed either drops nothing or is taken by tier 7
      alike with every text in front and with none. */
  lemma Tier7IgnoresSummariesIff(p: Policy, s: Session, calls: seq<ModelCall>)
    ensures Tier7IgnoresSummaries(p, s, calls) <==> SettledWhileClosed(p, s, calls)
  {
    if SettledWhileClosed(p, s, calls) {
      forall s', b | Comparable(p, s, s', calls, b)
        ensures Tier7Log(p, s, calls) == Tier7Log(p, s', b)
      {
        SettledSessionsAgree(p, s, s', calls, b);
      }
    } else {
      var answer := UnsettledSessionDiffers(p, s, calls);
      AnsweringComparable(p, s, calls, answer);
    }
  }
}
