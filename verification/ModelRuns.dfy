/** Whole sessions: any list of model calls against one session. What each breaker and the anchor hold, and how
    far the summaries and the tier-7 compactions of a session reach into each other. */
module ModelRuns {
  import opened Basics
  import opened Transcript
  import opened TailTrim
  import opened SummaryAnchor
  import opened SessionBreakers
  import opened CompactionTurn
  import opened CompactionPlugin
  import Prune

  /** What the calls of a session did, each computed from its contents and the session it found. */
  function TurnsOf(p: Policy, s: Session, calls: seq<ModelCall>): (ts: seq<Turn>)
    ensures |ts| == |calls|
  {
    if calls == [] then []
    else
      var before := TurnsOf(p, s, calls[..|calls| - 1]);
      before + [TurnOf(p, Run(p.cfg, s, before), calls[|calls| - 1])]
  }

  function SessionAfter(p: Policy, s: Session, calls: seq<ModelCall>): Session {
    Run(p.cfg, s, TurnsOf(p, s, calls))
  }

  lemma TurnsSnoc(p: Policy, s: Session, calls: seq<ModelCall>)
    requires calls != []
    ensures var init := calls[..|calls| - 1];
            var ts, t := TurnsOf(p, s, calls), TurnOf(p, SessionAfter(p, s, init), calls[|calls| - 1]);
            && ts[..|ts| - 1] == TurnsOf(p, s, init) && ts[|ts| - 1] == t
            && SessionAfter(p, s, calls) == After(p.cfg, SessionAfter(p, s, init), t)
            && Attempts(p.cfg, s, ts) == Attempts(p.cfg, s, TurnsOf(p, s, init)) +
               AttemptOf(p.cfg, SessionAfter(p, s, init), t)
  {
  }

  /** Over every session: the summary counter is the number of failed attempts since the last success and stays
      within a positive cap; the stored anchor is the capped prefix of the latest successful summary; the tier-7
      counter is the number of raises so far and stays within the cap. */
  lemma BreakersOverSessions(p: Policy, calls: seq<ModelCall>)
    ensures var s, ts := SessionAfter(p, map[], calls), TurnsOf(p, map[], calls);
            var answers := Attempts(p.cfg, map[], ts);
            && ReadCount(s, FAILURES_KEY) == TrailingFailures(answers)
            && (p.cfg.cap > 0 ==> ReadCount(s, FAILURES_KEY) <= p.cfg.cap)
            && ReadAnchor(s) == (if p.cfg.anchored && LastSuccess(answers).Some?
                                 then Some(Capped(LastSuccess(answers).value)) else None)
            && ReadCount(s, PROACTIVE_KEY) == Raises(Compactions(p.cfg, map[], ts)) <= p.cfg.cap
  {
    SummaryStateTracksAttempts(p.cfg, TurnsOf(p, map[], calls));
    ProactiveCounterIsCumulative(p.cfg, TurnsOf(p, map[], calls));
  }

  lemma TakeTake<T>(s: seq<T>, m: nat, n: nat)
    requires n <= m <= |s|
    ensures s[..m][..n] == s[..n]
  {
  }

  lemma TurnsInit(p: Policy, s: Session, calls: seq<ModelCall>)
    requires calls != []
    ensures TurnsOf(p, s, calls)[..|calls| - 1] == TurnsOf(p, s, calls[..|calls| - 1])
  {
    TurnsSnoc(p, s, calls);
  }

  lemma {:induction false} TurnsPrefix(p: Policy, s: Session, calls: seq<ModelCall>, n: nat)
    requires n <= |calls|
    ensures TurnsOf(p, s, calls[..n]) == TurnsOf(p, s, calls)[..n]
  {
    if n == |calls| {
      assert calls[..n] == calls;
    } else {
      var m := |calls| - 1;
      TurnsPrefix(p, s, calls[..m], n);
      TurnsInit(p, s, calls);
      TakeTake(calls, m, n);
      TakeTake(TurnsOf(p, s, calls), m, n);
    }
  }

  /** Once the summary breaker is open no later call of the session reaches the summarizer. */
  lemma SummaryBreakerStaysOpen(p: Policy, s: Session, calls: seq<ModelCall>, n: nat)
    requires n <= |calls| && SummaryBreakerOpen(p.cfg, SessionAfter(p, s, calls[..n]))
    ensures Attempts(p.cfg, s, TurnsOf(p, s, calls)) == Attempts(p.cfg, s, TurnsOf(p, s, calls[..n]))
    ensures SummaryBreakerOpen(p.cfg, SessionAfter(p, s, calls))
  {
    TurnsPrefix(p, s, calls, n);
    OpenBreakerStaysOpen(p.cfg, s, TurnsOf(p, s, calls), n);
  }

  /** Every call of every session sends an orphan-free request. */
  lemma EveryCallIsOrphanFree(p: Policy, s: Session, c: ModelCall)
    requires Chained(c.contents) && Unmixed(c.contents) && p.knobs.Valid()
    ensures OrphanFree(SentBy(p, s, c))
  {
    EveryRequestIsOrphanFree(c.world.est, c.contents, c.requested, p, SignalsOf(p, s, c.world), SummaryOf(p, s, c),
                             StrategiesOf(c.world, ReadCount(s, PROACTIVE_KEY) >= p.cfg.cap));
  }

  /** Where the cap on stored anchors is bypassed: when a call drops the summary of an earlier one, and no other
      marker behind it, its summarizer is handed that summary in full, and this is not what the session stores
      exactly when the summary is longer than the cap. */
  lemma NextSummarizerGetsWholeSummary(p: Policy, s: Session, c: ModelCall, d: ModelCall,
                                       before: seq<Content>, rest: seq<Content>)
    requires p.cfg.anchored && SummaryOf(p, s, c).Some?
    requires forall e :: e in rest ==> AnchorOfParts(e.parts) == None
    requires var s1 := After(p.cfg, s, TurnOf(p, s, c));
             DroppedBy(p, s1, d) == before + [SummaryContent(SummaryOf(p, s, c).value)] + rest
    ensures var s1 := After(p.cfg, s, TurnOf(p, s, c));
            var summary, handed := SummaryOf(p, s, c).value, AnchorFor(true, ReadAnchor(s1), DroppedBy(p, s1, d));
            && ReadAnchor(s1) == Some(Capped(summary)) && handed == Some(summary)
            && AnswerTo(p, s1, d) == d.world.summarize(DroppedBy(p, s1, d), Some(summary))
            && (handed != ReadAnchor(s1) <==> |summary| > ANCHOR_MAX_CHARS)
  {
    var summary := SummaryOf(p, s, c).value;
    AfterReads(p.cfg, s, TurnOf(p, s, c));
    SummaryIsFound(before, summary, rest);
    CappedIffShort(summary);
  }

  // ---------------------------------------------------------------- when a call drops, and what it prunes

  /** When a call drops a prefix: it has more contents than the tail, the cut does not fall on its head, and a manual
      request is pending, or the prompt size that the session stores decides for it (if real counts are on), or that
      decides nothing and the boundary is breached. */
  lemma CallDropsIff(p: Policy, s: Session, c: ModelCall)
    ensures var pruned := AfterPrune(c.contents, p);
            var sig := Signals(if p.cfg.realTokens then ReadTokens(s) else None, c.world.window);
            DroppedBy(p, s, c) != [] <==>
            && |c.contents| > p.knobs.tail && CutPoint(pruned, p.knobs.tail) > 0
            && ((p.manual && c.requested) || RealTokenDecision(p, sig) == Some(true)
                || (RealTokenDecision(p, sig) == None && BoundaryBreached(c.world.est, pruned, p, sig)))
  {
  }

  /** What a call puts in the place of the prefix it drops: the summary, if it got one, with the preserved results, and
      the last user turn, if that stood in the prefix. The rest follows unchanged. */
  lemma DropIsReplaced(p: Policy, s: Session, c: ModelCall)
    ensures var pruned, dropped := AfterPrune(c.contents, p), DroppedBy(p, s, c);
            && dropped <= pruned
            && AfterTrim(p, s, c) ==
               (if dropped == [] then [] else SummaryHead(dropped, SummaryOf(p, s, c)) + Pinned(pruned, |dropped|))
               + pruned[|dropped|..]
  {
    var pruned, dropped := AfterPrune(c.contents, p), DroppedBy(p, s, c);
    assert dropped == [] || dropped == pruned[..CutPoint(pruned, p.knobs.tail)];
    assert pruned[..0] == [] && pruned[0..] == pruned && [] + pruned == pruned;
  }

  lemma ResponsesComeFrom(p: Policy, s: Session, c: ModelCall, d: Content)
    requires d in AfterTrim(p, s, c) && HasResponse(d)
    ensures d in AfterPrune(c.contents, p)
  {
    var pruned := AfterPrune(c.contents, p);
    var k := CutPoint(pruned, p.knobs.tail);
    if k > 0 { FrontIsToolFree(pruned, k, SummaryOf(p, s, c)); }
  }

  /** What the prune does to a call. With its flag off every tool result at the gate is as it came in; with it on,
      in a call longer than the tail, each is as the sweep below the boundary leaves it, if that frees enough. */
  lemma ResultsAtTheGate(p: Policy, s: Session, c: ModelCall, swept: seq<Content>, d: Content)
    requires p.knobs.Valid() && d in AfterTrim(p, s, c) && HasResponse(d)
    requires Prune.SweptBelow(c.contents, Prune.Boundary(c.contents, p.knobs), swept, p.knobs.measure)
    ensures var m := p.knobs.measure;
            var enough := Prune.PayloadTokens(c.contents, m) - Prune.PayloadTokens(swept, m) >= p.knobs.minimum;
            if p.prune && |c.contents| > p.knobs.tail && enough then d in swept else d in c.contents
  {
    ResponsesComeFrom(p, s, c, d);
    Prune.PruneSweepsOrKeeps(c.contents, p.knobs, swept);
  }

  // ---------------------------------------------------------------- what the summarizer is handed

  ghost predicate WithoutMarker(cs: seq<Content>) {
    forall c :: c in cs ==> AnchorOfParts(c.parts) == None
  }

  lemma WithoutMarkerNoAnchor(dropped: seq<Content>)
    requires WithoutMarker(dropped)
    ensures AnchorFromDropped(dropped) == None
  {
    NoAnchorAfter([], dropped);
    assert [] + dropped == dropped;
  }

  /** What the summarizer is given to go on from, for a prefix without a marker. */
  lemma HandedWithoutMarker(p: Policy, s: Session, d: ModelCall)
    requires p.cfg.anchored ==> WithoutMarker(DroppedBy(p, s, d))
    ensures AnswerTo(p, s, d) ==
            d.world.summarize(DroppedBy(p, s, d), if p.cfg.anchored then ReadAnchor(s) else None)
  {
    if p.cfg.anchored { WithoutMarkerNoAnchor(DroppedBy(p, s, d)); }
  }

  /** Otherwise the summarizer is handed what the session stores: when a call drops a prefix without a marker, it
      gets the start of the latest summary of the session, up to the cap, and nothing when there was none or
      anchoring is off. */
  lemma SummarizerGetsStoredSummary(p: Policy, calls: seq<ModelCall>, d: ModelCall)
    requires var s := SessionAfter(p, map[], calls); p.cfg.anchored ==> WithoutMarker(DroppedBy(p, s, d))
    ensures var s := SessionAfter(p, map[], calls);
            var latest := LastSuccess(Attempts(p.cfg, map[], TurnsOf(p, map[], calls)));
            AnswerTo(p, s, d) ==
            d.world.summarize(DroppedBy(p, s, d), if p.cfg.anchored && latest.Some?
                                                  then Some(latest.value[..Min(24_000, |latest.value|)]) else None)
  {
    HandedWithoutMarker(p, SessionAfter(p, map[], calls), d);
    BreakersOverSessions(p, calls);
  }

  /** So over two calls, whatever the session held before: the summary one makes is what the next one that drops a
      prefix without a marker is given to go on from. */
  lemma NextSummarizerGetsStoredSummary(p: Policy, s: Session, c: ModelCall, d: ModelCall)
    requires p.cfg.anchored && SummaryOf(p, s, c).Some?
    requires WithoutMarker(DroppedBy(p, After(p.cfg, s, TurnOf(p, s, c)), d))
    ensures var s1, summary := After(p.cfg, s, TurnOf(p, s, c)), SummaryOf(p, s, c).value;
            AnswerTo(p, s1, d) ==
            d.world.summarize(DroppedBy(p, s1, d), Some(summary[..Min(24_000, |summary|)]))
  {
    var s1 := After(p.cfg, s, TurnOf(p, s, c));
    AfterReads(p.cfg, s, TurnOf(p, s, c));
    HandedWithoutMarker(p, s1, d);
  }

  // ---------------------------------------------------------------- each side reads its own keys

  /** Two calls with the same summary side: they may differ in all that concerns tier 7 and the answer. */
  ghost predicate SameSummarySide(c: ModelCall, d: ModelCall) {
    && c.contents == d.contents && c.requested == d.requested
    && c.world.est == d.world.est && c.world.window == d.world.window && c.world.summarize == d.world.summarize
  }

  ghost predicate SameSummaryKeys(s: Session, s': Session) {
    ReadCount(s, FAILURES_KEY) == ReadCount(s', FAILURES_KEY) && ReadAnchor(s) == ReadAnchor(s')
  }

  /** The stored prompt sizes, if any, call for the same decision. */
  predicate DecideAlike(p: Policy, s: Session, s': Session, w: World) {
    RealTokenDecision(p, SignalsOf(p, s, w)) == RealTokenDecision(p, SignalsOf(p, s', w))
  }

  /** The summary side of a call reads its own two keys and the decision of the real count, nothing else: not
      the tier-7 counter, and of the world neither the tier-7 summarizer nor the reported size. */
  lemma SummarySideReadsItsOwn(p: Policy, s: Session, s': Session, c: ModelCall, d: ModelCall)
    requires SameSummarySide(c, d) && SameSummaryKeys(s, s') && DecideAlike(p, s, s', c.world)
    ensures DroppedBy(p, s, c) == DroppedBy(p, s', d)
    ensures AnswerTo(p, s, c) == AnswerTo(p, s', d)
    ensures AfterTrim(p, s, c) == AfterTrim(p, s', d)
    ensures SameSummaryKeys(After(p.cfg, s, TurnOf(p, s, c)), After(p.cfg, s', TurnOf(p, s', d)))
  {
    SameDrop(p, s, s', c, d);
    AfterReads(p.cfg, s, TurnOf(p, s, c));
    AfterReads(p.cfg, s', TurnOf(p, s', d));
  }

  lemma SameDrop(p: Policy, s: Session, s': Session, c: ModelCall, d: ModelCall)
    requires SameSummarySide(c, d) && SameSummaryKeys(s, s') && DecideAlike(p, s, s', c.world)
    ensures DroppedBy(p, s, c) == DroppedBy(p, s', d)
    ensures AnswerTo(p, s, c) == AnswerTo(p, s', d) && SummaryOf(p, s, c) == SummaryOf(p, s', d)
    ensures AfterTrim(p, s, c) == AfterTrim(p, s', d)
  {
    assert Trims(c.world.est, c.contents, c.requested, p, SignalsOf(p, s, c.world))
        == Trims(c.world.est, c.contents, c.requested, p, SignalsOf(p, s', c.world));
  }

  /** At every call of the two sessions the stored prompt sizes call for the same decision. */
  predicate CountsDecideAlike(p: Policy, s: Session, s': Session, a: seq<ModelCall>, b: seq<ModelCall>)
    requires |a| == |b|
  {
    a == [] ||
    (var m := |a| - 1;
     CountsDecideAlike(p, s, s', a[..m], b[..m]) &&
     DecideAlike(p, SessionAfter(p, s, a[..m]), SessionAfter(p, s', b[..m]), a[m].world))
  }

  lemma SameAttempt(p: Policy, s: Session, s': Session, c: ModelCall, d: ModelCall)
    requires SameSummarySide(c, d) && SameSummaryKeys(s, s') && DecideAlike(p, s, s', c.world)
    ensures AttemptOf(p.cfg, s, TurnOf(p, s, c)) == AttemptOf(p.cfg, s', TurnOf(p, s', d))
  {
    SameDrop(p, s, s', c, d);
  }

  /** Tier 7 reaches the summaries of a session through the real count only: two sessions that differ in their
      tier-7 summarizers and counters make the same attempts with the same results, and end with the same
      summary counter and anchor, as long as the stored prompt sizes call for the same decisions. */
  lemma {:induction false} Tier7ReachesSummariesByCountOnly(p: Policy, s: Session, s': Session,
                                                            a: seq<ModelCall>, b: seq<ModelCall>)
    requires |a| == |b| && forall i :: 0 <= i < |a| ==> SameSummarySide(a[i], b[i])
    requires SameSummaryKeys(s, s') && CountsDecideAlike(p, s, s', a, b)
    ensures Attempts(p.cfg, s, TurnsOf(p, s, a)) == Attempts(p.cfg, s', TurnsOf(p, s', b))
    ensures SameSummaryKeys(SessionAfter(p, s, a), SessionAfter(p, s', b))
  {
    if a != [] {
      var m := |a| - 1;
      Tier7ReachesSummariesByCountOnly(p, s, s', a[..m], b[..m]);
      var t, t' := SessionAfter(p, s, a[..m]), SessionAfter(p, s', b[..m]);
      SummarySideReadsItsOwn(p, t, t', a[m], b[m]);
      SameAttempt(p, t, t', a[m], b[m]);
      TurnsSnoc(p, s, a);
      TurnsSnoc(p, s', b);
    }
  }

  lemma {:induction false} NoCountsDecideAlike(p: Policy, s: Session, s': Session, a: seq<ModelCall>, b: seq<ModelCall>)
    requires !p.cfg.realTokens && |a| == |b|
    ensures CountsDecideAlike(p, s, s', a, b)
  {
    if a != [] { NoCountsDecideAlike(p, s, s', a[..|a| - 1], b[..|a| - 1]); }
  }

  /** Without real counts it does not reach them at all. */
  lemma Tier7NeverAffectsSummaries(p: Policy, s: Session, s': Session, a: seq<ModelCall>, b: seq<ModelCall>)
    requires !p.cfg.realTokens
    requires |a| == |b| && forall i :: 0 <= i < |a| ==> SameSummarySide(a[i], b[i])
    requires SameSummaryKeys(s, s')
    ensures Attempts(p.cfg, s, TurnsOf(p, s, a)) == Attempts(p.cfg, s', TurnsOf(p, s', b))
    ensures SameSummaryKeys(SessionAfter(p, s, a), SessionAfter(p, s', b))
  {
    NoCountsDecideAlike(p, s, s', a, b);
    Tier7ReachesSummariesByCountOnly(p, s, s', a, b);
  }

  // ---------------------------------------------------------------- what tier 7 depends on

  /** What tier 7 does with the contents at the gate while its breaker is closed: `None` when it is not called,
      otherwise whether its summarizer raises. */
  function Outcome(p: Policy, w: World, mid: seq<Content>): Option<bool> {
    var load := Tier7Load(p, w, mid);
    if load.None? then None else Some(Raises7(w, load))
  }

  function Tier7Outcome(p: Policy, s: Session, c: ModelCall): Option<bool> {
    Outcome(p, c.world, AfterTrim(p, s, c))
  }

  predicate Tier7Closed(p: Policy, s: Session) { ReadCount(s, PROACTIVE_KEY) < p.cfg.cap }

  function Tier7Entry(p: Policy, s: Session, c: ModelCall): Option<bool> {
    if Tier7Closed(p, s) then Tier7Outcome(p, s, c) else None
  }

  /** The tier-7 history of a session, call by call. */
  function Tier7Log(p: Policy, s: Session, calls: seq<ModelCall>): seq<Option<bool>> {
    if calls == [] then []
    else Tier7Log(p, s, calls[..|calls| - 1]) +
         [Tier7Entry(p, SessionAfter(p, s, calls[..|calls| - 1]), calls[|calls| - 1])]
  }

  lemma CounterStep(p: Policy, s: Session, c: ModelCall)
    ensures ReadCount(After(p.cfg, s, TurnOf(p, s, c)), PROACTIVE_KEY) ==
            ReadCount(s, PROACTIVE_KEY) + if Tier7Entry(p, s, c) == Some(true) then 1 else 0
  {
    AfterReads(p.cfg, s, TurnOf(p, s, c));
  }

  /** How the tier-7 calls of a history ended. */
  function Ends(log: seq<Option<bool>>): seq<bool> {
    if log == [] then []
    else Ends(log[..|log| - 1]) + if log[|log| - 1].Some? then [log[|log| - 1].value] else []
  }

  /** The tier-7 calls that the counter is about are those of the history: each made with the breaker closed, on
      contents that reach tier 7. */
  lemma {:induction false} CompactionsAreLogged(p: Policy, s: Session, calls: seq<ModelCall>)
    ensures Compactions(p.cfg, s, TurnsOf(p, s, calls)) == Ends(Tier7Log(p, s, calls))
  {
    if calls != [] {
      var init, c := calls[..|calls| - 1], calls[|calls| - 1];
      var t := SessionAfter(p, s, init);
      var log := Tier7Log(p, s, calls);
      CompactionsAreLogged(p, s, init);
      TurnsSnoc(p, s, calls);
      assert log[..|log| - 1] == Tier7Log(p, s, init);
      LoadNeedsLadder(p, c.world, AfterTrim(p, t, c));
    }
  }

  lemma LoadNeedsLadder(p: Policy, w: World, mid: seq<Content>)
    ensures Tier7Load(p, w, mid).Some? ==> p.cfg.proactive
  {
  }

  /** While the breaker is closed, tier 7 does the same with both calls. */
  predicate SameOutcome(p: Policy, s: Session, s': Session, c: ModelCall, d: ModelCall) {
    Tier7Closed(p, s) ==> Tier7Outcome(p, s, c) == Tier7Outcome(p, s', d)
  }

  /** At every call of the two sessions. */
  predicate SameOutcomes(p: Policy, s: Session, s': Session, a: seq<ModelCall>, b: seq<ModelCall>)
    requires |a| == |b|
  {
    a == [] ||
    (var m := |a| - 1;
     SameOutcomes(p, s, s', a[..m], b[..m]) &&
     SameOutcome(p, SessionAfter(p, s, a[..m]), SessionAfter(p, s', b[..m]), a[m], b[m]))
  }

  lemma EntriesAgreeIff(p: Policy, s: Session, s': Session, c: ModelCall, d: ModelCall)
    requires ReadCount(s, PROACTIVE_KEY) == ReadCount(s', PROACTIVE_KEY)
    ensures Tier7Entry(p, s, c) == Tier7Entry(p, s', d) <==> SameOutcome(p, s, s', c, d)
    ensures Tier7Entry(p, s, c) == Tier7Entry(p, s', d) ==>
              ReadCount(After(p.cfg, s, TurnOf(p, s, c)), PROACTIVE_KEY) ==
              ReadCount(After(p.cfg, s', TurnOf(p, s', d)), PROACTIVE_KEY)
  {
    CounterStep(p, s, c);
    CounterStep(p, s', d);
  }

  lemma SnocEqual<T>(a: seq<T>, b: seq<T>, x: T, y: T)
    ensures a + [x] == b + [y] <==> a == b && x == y
  {
    if a + [x] == b + [y] {
      assert (a + [x])[..|a|] == a && (b + [y])[..|b|] == b;
      assert (a + [x])[|a|] == x && (b + [y])[|b|] == y;
    }
  }

  /** Two sessions have the same tier-7 history if and only if at every call up to the opening of the breaker the
      contents at the gate take tier 7 to the same outcome: nothing else of the summaries, their counter, the
      anchor or the real counts matters. Then the tier-7 counters agree as well. */
  lemma {:induction false} SameTier7HistoryIff(p: Policy, s: Session, s': Session, a: seq<ModelCall>, b: seq<ModelCall>)
    requires |a| == |b| && ReadCount(s, PROACTIVE_KEY) == ReadCount(s', PROACTIVE_KEY)
    ensures Tier7Log(p, s, a) == Tier7Log(p, s', b) <==> SameOutcomes(p, s, s', a, b)
    ensures Tier7Log(p, s, a) == Tier7Log(p, s', b) ==>
              ReadCount(SessionAfter(p, s, a), PROACTIVE_KEY) == ReadCount(SessionAfter(p, s', b), PROACTIVE_KEY)
  {
    if a != [] {
      var m := |a| - 1;
      var t, t' := SessionAfter(p, s, a[..m]), SessionAfter(p, s', b[..m]);
      SameTier7HistoryIff(p, s, s', a[..m], b[..m]);
      SnocEqual(Tier7Log(p, s, a[..m]), Tier7Log(p, s', b[..m]), Tier7Entry(p, t, a[m]), Tier7Entry(p, t', b[m]));
      if ReadCount(t, PROACTIVE_KEY) == ReadCount(t', PROACTIVE_KEY) { EntriesAgreeIff(p, t, t', a[m], b[m]); }
      TurnsSnoc(p, s, a);
      TurnsSnoc(p, s', b);
    }
  }
}
