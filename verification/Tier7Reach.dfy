/** How a summary moves a call to or from tier 7. The gate weighs the contents after the trim, with the summary
    in front; so the summary side reaches tier 7 through the weight of what it puts there. */
module Tier7Reach {
  import opened Basics
  import opened Transcript
  import opened TailTrim
  import opened Repair
  import opened Rounds
  import opened Escalation
  import opened SessionBreakers
  import opened CompactionTurn
  import opened CompactionPlugin
  import ModelRuns
  import Prune

  /** The contents pass the gate, and tier 6 leaves tier 7 something to compact. */
  predicate Reaches(est: Content -> nat, budget: nat, render: Content -> string, cs: seq<Content>) {
    Total(est, cs) > budget && Tier7Input(est, budget, cs, render).Some?
  }

  lemma LoadIffReaches(p: Policy, w: World, mid: seq<Content>)
    ensures var budget := Percent(w.window, p.criticalPct);
            Tier7Load(p, w, mid).Some? <==> p.cfg.proactive && budget >= 1 && Reaches(w.est, budget, w.render, mid)
  {
  }

  /** The lightest form in which the ladder weighs the contents before tier 7: as they are, or after tier 6. */
  function Lightest(est: Content -> nat, render: Content -> string, cs: seq<Content>): nat {
    var tier6 := DrainAnswer(cs, render);
    if tier6.Some? then Min(Total(est, cs), Total(est, Applied(cs, tier6))) else Total(est, cs)
  }

  lemma ReachesIff(est: Content -> nat, budget: nat, render: Content -> string, cs: seq<Content>)
    ensures Reaches(est, budget, render, cs) <==>
            budget < Lightest(est, render, cs) && |Applied(cs, DrainAnswer(cs, render))| >= 2
  {
  }

  // ---------------------------------------------------------------- the weight of a summary

  /** A summary adds exactly its head to what the gate weighs. */
  lemma SummaryAddsItsHead(est: Content -> nat, cs: seq<Content>, tail: nat, summary: string)
    requires CutPoint(cs, tail) > 0
    ensures Total(est, Trimmed(cs, tail, Some(summary))) ==
            Total(est, Trimmed(cs, tail, None)) + Total(est, SummaryHead(cs[..CutPoint(cs, tail)], Some(summary)))
  {
    var k := CutPoint(cs, tail);
    TrimmedAt(cs, tail, Some(summary));
    TrimmedAt(cs, tail, None);
    TotalThree(est, SummaryHead(cs[..k], Some(summary)), Pinned(cs, k), cs[k..]);
    TotalThree(est, [], Pinned(cs, k), cs[k..]);
  }

  /** So a summary never closes the gate, and it opens it if and only if the trimmed contents fit the budget and
      no longer do with the head in front. */
  lemma SummaryOpensGateIff(est: Content -> nat, cs: seq<Content>, tail: nat, summary: string, budget: nat)
    requires CutPoint(cs, tail) > 0
    ensures var bare, head := Total(est, Trimmed(cs, tail, None)),
            Total(est, SummaryHead(cs[..CutPoint(cs, tail)], Some(summary)));
            var full := Total(est, Trimmed(cs, tail, Some(summary)));
            && (bare > budget ==> full > budget)
            && ((full > budget) != (bare > budget) <==> bare <= budget < bare + head)
  {
    SummaryAddsItsHead(est, cs, tail, summary);
  }

  // ---------------------------------------------------------------- when it cannot matter

  /** Whatever the estimator, the budget and the summary, tier 7 is reached alike with and without it. */
  ghost predicate SummaryIrrelevant(cs: seq<Content>, tail: nat, render: Content -> string) {
    forall est, budget: nat, summary ::
      Reaches(est, budget, render, Trimmed(cs, tail, Some(summary))) ==
          Reaches(est, budget, render, Trimmed(cs, tail, None))
  }

  function HeadOnly(head: Content): Content -> nat {
    c => if c == head then 2 else 0
  }

  lemma {:induction false} NoHeadNoWeight(head: Content, cs: seq<Content>)
    requires head !in cs
    ensures Total(HeadOnly(head), cs) == 0
  {
    if cs != [] {
      NoHeadNoWeight(head, cs[..|cs| - 1]);
      assert cs[|cs| - 1] in cs;
    }
  }

  lemma {:induction false} HeadWeighs(head: Content, cs: seq<Content>)
    requires head in cs
    ensures Total(HeadOnly(head), cs) >= 2
  {
    if cs[|cs| - 1] != head { HeadWeighs(head, cs[..|cs| - 1]); }
  }

  function TextSize(c: Content): nat {
    if c.parts != [] && c.parts[0].Text? then |c.parts[0].text| else 0
  }

  function TextBound(cs: seq<Content>): nat {
    if cs == [] then 0 else TextBound(cs[..|cs| - 1]) + TextSize(cs[|cs| - 1])
  }

  lemma {:induction false} WithinTextBound(cs: seq<Content>, c: Content)
    requires c in cs
    ensures TextSize(c) <= TextBound(cs)
  {
    if cs[|cs| - 1] != c { WithinTextBound(cs[..|cs| - 1], c); }
  }

  /** A summary nobody has written yet. */
  lemma FreshSummary(cs: seq<Content>) returns (summary: string)
    ensures SummaryContent(summary) !in cs
  {
    summary := seq(TextBound(cs) + 1, _ => 'x');
    if SummaryContent(summary) in cs { WithinTextBound(cs, SummaryContent(summary)); }
  }

  lemma {:induction false} FlattenHead(rs: seq<seq<Msg>>)
    requires rs != [] && rs[0] != []
    ensures Flatten(rs) != [] && Flatten(rs)[0] == rs[0][0]
  {
    if |rs| > 1 { FlattenHead(rs[..|rs| - 1]); }
  }

  /** The repair never takes out a content without responses. */
  lemma ToolFreeSurvives(cs: seq<Content>, whole: seq<Content>, c: Content)
    requires c in cs && !HasResponse(c)
    ensures c in Surviving(cs, whole)
  {
    SurvivingContents(cs, whole);
  }

  lemma KeptSides(rs: seq<seq<Msg>>, n: nat)
    requires 1 <= n <= |rs| - 2
    ensures var kept := KeptRounds(rs, n);
            var front := kept[..|kept| - 1];
            kept == front + [rs[|rs| - 1]] && front != [] && front[0] == rs[0]
  {
  }

  /** A leading content without responses passes tier 6 together with the opening of the last round. */
  lemma DrainKeepsSides(cs: seq<Content>, rs: seq<seq<Msg>>, n: nat)
    requires cs != [] && !HasResponse(cs[0])
    requires 1 <= n <= |rs| - 2 && rs[0] != [] && rs[|rs| - 1] != []
    requires Materialized(rs[0][0], cs) == cs[0] && !HasResponse(Materialized(rs[|rs| - 1][0], cs))
    ensures var out := Repaired(Rebuilt(Flatten(KeptRounds(rs, n)), cs));
            cs[0] in out && |out| >= 2
  {
    var kept := KeptRounds(rs, n);
    KeptSides(rs, n);
    TwoSidesSurvive(cs, kept[..|kept| - 1], rs[|rs| - 1]);
  }

  lemma FirstRoundOpens(cs: seq<Content>, render: Content -> string)
    requires cs != []
    ensures var rs := Partition(ContentsToMsgs(cs, render));
            rs != [] && rs[0] != [] && Materialized(rs[0][0], cs) == cs[0]
  {
    var ms := ContentsToMsgs(cs, render);
    PartitionIsRounds(ms);
    FlattenHead(Partition(ms));
    assert ms[0].origIndex == Some(0);
  }

  /** Tier 6 keeps a leading content without responses, and leaves at least two contents. */
  lemma DrainKeepsHead(cs: seq<Content>, render: Content -> string)
    requires |cs| >= 2 && !HasResponse(cs[0])
    ensures cs[0] in Applied(cs, DrainAnswer(cs, render)) && |Applied(cs, DrainAnswer(cs, render))| >= 2
  {
    var rs := Partition(ContentsToMsgs(cs, render));
    if |rs| > 2 {
      FirstRoundOpens(cs, render);
      LastRoundOpens(cs, render);
      DrainKeepsSides(cs, rs, DropCount(|rs|, MAX_COLLAPSE_FRACTION));
    }
  }

  /** The last round opens with a content without responses. */
  lemma LastRoundOpens(cs: seq<Content>, render: Content -> string)
    requires |Partition(ContentsToMsgs(cs, render))| > 1
    ensures var rs := Partition(ContentsToMsgs(cs, render));
            rs[|rs| - 1] != [] && !HasResponse(Materialized(rs[|rs| - 1][0], cs))
  {
    var ms := ContentsToMsgs(cs, render);
    var rs := Partition(ms);
    PartitionIsRounds(ms);
    RoundMessagesAreOriginal(rs, |rs| - 1, 0);
    var at :| 0 <= at < |ms| && ms[at] == rs[|rs| - 1][0];
    assert Materialized(ms[at], cs) == cs[at];
  }

  lemma TwoSidesSurvive(cs: seq<Content>, front: seq<seq<Msg>>, last: seq<Msg>)
    requires front != [] && front[0] != [] && last != []
    requires cs != [] && !HasResponse(cs[0]) && Materialized(front[0][0], cs) == cs[0]
    requires !HasResponse(Materialized(last[0], cs))
    ensures var out := Repaired(Rebuilt(Flatten(front + [last]), cs));
            cs[0] in out && |out| >= 2
  {
    var a, b := Rebuilt(Flatten(front), cs), Rebuilt(last, cs);
    FlattenHead(front);
    assert (front + [last])[..|front|] == front;
    RebuiltConcat(Flatten(front), last, cs);
    SurvivingConcat(a, b, a + b);
    assert a[0] == cs[0] && b[0] == Materialized(last[0], cs);
    ToolFreeSurvives(a, a + b, a[0]);
    ToolFreeSurvives(b, a + b, b[0]);
  }

  /** For a given estimator and budget: the summary decides over tier 7 if and only if the budget lies between
      the lightest forms of the contents with and without it (where the latter leave enough to compact). */
  lemma SummaryMovesTier7Iff(p: Policy, w: World, cs: seq<Content>, tail: nat, summary: string)
    requires tail >= 1 && CutPoint(cs, tail) > 0
    ensures var full, bare := Trimmed(cs, tail, Some(summary)), Trimmed(cs, tail, None);
            var budget := Percent(w.window, p.criticalPct);
            Tier7Load(p, w, full).Some? != Tier7Load(p, w, bare).Some? <==>
            && p.cfg.proactive && budget >= 1
            && (budget < Lightest(w.est, w.render, full)) !=
               (budget < Lightest(w.est, w.render, bare) && |Applied(bare, DrainAnswer(bare, w.render))| >= 2)
  {
    var full, bare := Trimmed(cs, tail, Some(summary)), Trimmed(cs, tail, None);
    var budget := Percent(w.window, p.criticalPct);
    TrimmedAt(cs, tail, Some(summary));
    assert full[0] == SummaryContent(summary) && |full| >= 2;
    DrainKeepsHead(full, w.render);
    LoadIffReaches(p, w, full);
    LoadIffReaches(p, w, bare);
    if budget >= 1 {
      ReachesIff(w.est, budget, w.render, full);
      ReachesIff(w.est, budget, w.render, bare);
    }
  }

  /** With a fresh summary in front and an estimator that weighs nothing else, tier 7 is reached with it and not
      without it. */
  lemma SummaryCanDecide(cs: seq<Content>, tail: nat, render: Content -> string, summary: string)
    requires tail >= 1 && CutPoint(cs, tail) > 0 && SummaryContent(summary) !in cs
    ensures Reaches(HeadOnly(SummaryContent(summary)), 1, render, Trimmed(cs, tail, Some(summary)))
    ensures !Reaches(HeadOnly(SummaryContent(summary)), 1, render, Trimmed(cs, tail, None))
  {
    var k, head := CutPoint(cs, tail), SummaryContent(summary);
    TrimmedAt(cs, tail, Some(summary));
    TrimmedAt(cs, tail, None);
    var full, bare := Trimmed(cs, tail, Some(summary)), Trimmed(cs, tail, None);
    assert forall c :: c in bare ==> c in cs;
    NoHeadNoWeight(head, bare);
    assert full[0] == head && |full| >= 2;
    HeadWeighs(head, full);
    DrainKeepsHead(full, render);
    HeadWeighs(head, Applied(full, DrainAnswer(full, render)));
  }

  /** The exact condition on the contents: no summary, estimator and budget can make a difference to whether the
      call reaches tier 7 if and only if the cut drops nothing. */
  lemma SummaryIrrelevantIff(cs: seq<Content>, tail: nat, render: Content -> string)
    requires tail >= 1
    ensures SummaryIrrelevant(cs, tail, render) <==> CutPoint(cs, tail) == 0
  {
    if CutPoint(cs, tail) > 0 {
      var summary := FreshSummary(cs);
      SummaryCanDecide(cs, tail, render, summary);
      assert Reaches(HeadOnly(SummaryContent(summary)), 1, render, Trimmed(cs, tail, Some(summary)))
          != Reaches(HeadOnly(SummaryContent(summary)), 1, render, Trimmed(cs, tail, None));
    }
  }

  // ---------------------------------------------------------------- it does matter: two sessions

  const A := Content(Model, [Text(LongText())])
  const B := Content(Model, [Text("b")])

  function LongText(): (s: string)
    ensures |s| == 400
  {
    seq(400, _ => 'a')
  }

  /** The character heuristic on contents of one text part: a token for each four characters of text, and one for
      the role. */
  function TextTokens(c: Content): nat { TextSize(c) / 4 + if c.role == Unset then 0 else 1 }

  function Render(c: Content): string { "" }

  /** The default window of an unknown model. With the whole of it but 50 tokens reserved for output, the real
      count calls for a trim at 50 tokens; the critical budget is 9. */
  const WINDOW := 150_000

  function SmallPolicy(realTokens: bool, tail: nat): Policy {
    Policy(Config(true, false, true, realTokens, 1), Prune.Knobs(tail, 1, 1, (s: string) => 0), false, false, 1.0,
           149_950, 1, true, 1, 0.000062)
  }

  /** What the two summarizers answer, and a model that reports the estimate as its prompt size. */
  function SmallWorld(summary: Option<string>, compacted: Option<string>): World {
    World(TextTokens, Render, WINDOW, (cs: seq<Content>, a: Option<string>) => summary,
          (cs: seq<Content>) => compacted, (cs: seq<Content>) => Some(Total(TextTokens, cs)))
  }

  lemma CriticalBudget()
    ensures Percent(WINDOW, 0.000062) == 9
  {
  }

  lemma Weights()
    ensures TextTokens(A) == 101 && TextTokens(B) == 1
    ensures TextTokens(SummaryContent("s")) == 9 && TextTokens(CompactHead("s")) == 7
  {
    assert |SUMMARY_MARKER| == 33 && |"[Conversation Summary]\n"| == 23;
  }

  lemma ModelTexts(c: Content)
    requires c == A || c == B
    ensures !HasResponse(c) && !HasCall(c) && !GenuineUserText(c) && RoleOf(c) == Assistant
    ensures ProtectedOfParts(c.parts) == []
  {
    assert c.parts[..0] == [];
  }

  lemma PartitionOfOne(m: Msg)
    ensures Partition([m]) == [[m]]
  {
    assert [m][..0] == [];
    assert Extended([], m) == [[m]];
  }

  lemma PartitionOfTwo(m: Msg, n: Msg)
    requires n.role != Starter
    ensures |Partition([m, n])| == 1
  {
    PartitionOfOne(m);
    assert [m, n][..1] == [m];
    assert |Extended([[m]], n)| == 1;
  }

  /** Two contents of which only the first may open a round are one round: tier 6 declines. */
  lemma OneRound(x: Content, y: Content)
    requires RoleOf(y) == Assistant && !HasResponse(x) && !HasResponse(y)
    ensures DrainAnswer([x, y], Render) == None
    ensures OrphanFree([x, y])
  {
    var ms := ContentsToMsgs([x, y], Render);
    assert ms == [ms[0], ms[1]];
    PartitionOfTwo(ms[0], ms[1]);
  }

  lemma PairWeighs(est: Content -> nat, x: Content, y: Content)
    ensures Total(est, [x, y]) == est(x) + est(y) && Total(est, [x]) == est(x)
  {
    var pair := [x, y];
    TotalOne(est, x);
    assert pair[..|pair| - 1] == [x];
    assert Total(est, pair) == Total(est, [x]) + est(pair[1]);
  }

  /** The trim of two model texts to one, with and without a summary. */
  lemma TrimOfTwo(summary: string)
    ensures CutPoint([A, B], 1) == 1
    ensures Trimmed([A, B], 1, None) == [B]
    ensures Trimmed([A, B], 1, Some(summary)) == [SummaryContent(summary), B]
  {
    ModelTexts(A);
    ModelTexts(B);
    assert AdjustedSplit([A, B], 1) == 1;
    assert LastUserText([A, B], 1) == None && LastUserText([A, B], 2) == None;
    assert [A, B][..1] == [A] && [A][..0] == [] && [A, B][1..] == [B];
    assert ProtectedTexts([A]) == ProtectedTexts([]) + ProtectedOfParts(A.parts) == [];
  }

  /** The summarizer decides over tier 7: of two calls that differ only in its answer, the one that gets a summary
      is carried over the gate by it, calls the tier-7 summarizer, and counts its failure. */
  lemma SummaryMovesTier7()
    ensures var p := SmallPolicy(false, 1);
            var with, without := ModelCall([A, B], false, SmallWorld(Some("s"), None)),
                ModelCall([A, B], false, SmallWorld(None, None));
            && ModelRuns.Tier7Entry(p, map[], with) == Some(true)
            && ModelRuns.Tier7Entry(p, map[], without) == None
            && ReadCount(After(p.cfg, map[], TurnOf(p, map[], with)), PROACTIVE_KEY) == 1
            && ReadCount(After(p.cfg, map[], TurnOf(p, map[], without)), PROACTIVE_KEY) == 0
  {
    var p := SmallPolicy(false, 1);
    TrimOfTwo("s");
    SmallDrop(p, Some("s"));
    SmallDrop(p, None);
    SmallLoads(p);
    ModelRuns.CounterStep(p, map[], ModelCall([A, B], false, SmallWorld(Some("s"), None)));
    ModelRuns.CounterStep(p, map[], ModelCall([A, B], false, SmallWorld(None, None)));
  }

  lemma SmallDrop(p: Policy, summary: Option<string>)
    requires p == SmallPolicy(false, 1) && (summary.Some? ==> summary.value != "")
    ensures AfterTrim(p, map[], ModelCall([A, B], false, SmallWorld(summary, None))) == Trimmed([A, B], 1, summary)
  {
    var c := ModelCall([A, B], false, SmallWorld(summary, None));
    TrimOfTwo("s");
    assert DroppedBy(p, map[], c) == [A, B][..1] != [];
    assert SummaryOf(p, map[], c) == summary;
  }

  lemma SmallLoads(p: Policy)
    requires p == SmallPolicy(false, 1)
    ensures Tier7Load(p, SmallWorld(Some("s"), None), [SummaryContent("s"), B]).Some?
    ensures Tier7Load(p, SmallWorld(None, None), [B]).None?
  {
    ModelTexts(B);
    Weights();
    OneRound(SummaryContent("s"), B);
    PairWeighs(TextTokens, SummaryContent("s"), B);
    PairWeighs(TextTokens, B, B);
    CriticalBudget();
  }

  // ---------------------------------------------------------------- and back

  /** The first call is too short to trim; the gate opens, and tier 7 gets both contents. */
  lemma FirstCall(compacted: Option<string>)
    requires compacted == None || compacted == Some("s")
    ensures var p := SmallPolicy(true, 2);
            var c := ModelCall([A, B], false, SmallWorld(Some("s"), compacted));
            && DroppedBy(p, map[], c) == []
            && Tier7Load(p, c.world, AfterTrim(p, map[], c)) == Some([A, B])
            && SentBy(p, map[], c) == (if compacted.Some? then [CompactHead("s"), B] else [A, B])
  {
    var p := SmallPolicy(true, 2);
    var c := ModelCall([A, B], false, SmallWorld(Some("s"), compacted));
    ModelTexts(A);
    ModelTexts(B);
    Weights();
    OneRound(A, B);
    PairWeighs(TextTokens, A, B);
    CriticalBudget();
    assert AfterTrim(p, map[], c) == [A, B];
    match compacted
    case None => TruncatedPair();
    case Some(_) => CompactedPair();
  }

  lemma CompactedPair()
    ensures Escalated(TextTokens, 9, [A, B], None, CompactAnswer([A, B], Render, false, Some("s"))).0 ==
            [CompactHead("s"), B]
  {
    CompactLosesPendingResultIff([A, B], Render, "s");
    ModelTexts(A);
    ModelTexts(B);
    Weights();
    assert forall r :: !Demands(B, r);
    PairWeighs(TextTokens, CompactHead("s"), B);
  }

  lemma TruncatedPair()
    ensures Escalated(TextTokens, 9, [A, B], None, None).0 == [A, B]
  {
    ModelTexts(A);
    ModelTexts(B);
    OneRound(A, B);
    assert NextStarter([A, B], 1) == 2;
    assert Seam(TextTokens, [A, B], 9) == [A, B];
    RepairIsIdentityIff([A, B]);
  }

  /** Through the real count tier 7 decides over the summaries: of two sessions that differ only in whether the
      tier-7 summarizer of the first call raises, the one that was sent the uncompacted contents stores the larger
      prompt size, trims at the second call, and asks for a summary. */
  lemma Tier7MovesSummaries()
    ensures var p := SmallPolicy(true, 2);
            var second := ModelCall([B, B, B], false, SmallWorld(Some("s"), None));
            var raised := [ModelCall([A, B], false, SmallWorld(Some("s"), None)), second];
            var compacted := [ModelCall([A, B], false, SmallWorld(Some("s"), Some("s"))), second];
            && Attempts(p.cfg, map[], ModelRuns.TurnsOf(p, map[], raised)) == [Some("s")]
            && Attempts(p.cfg, map[], ModelRuns.TurnsOf(p, map[], compacted)) == []
  {
    OneSession(None);
    OneSession(Some("s"));
  }

  lemma TwoCalls(p: Policy, s: Session, first: ModelCall, second: ModelCall)
    ensures var s1 := After(p.cfg, s, TurnOf(p, s, first));
            Attempts(p.cfg, s, ModelRuns.TurnsOf(p, s, [first, second])) ==
            AttemptOf(p.cfg, s, TurnOf(p, s, first)) + AttemptOf(p.cfg, s1, TurnOf(p, s1, second))
  {
    var calls := [first, second];
    assert calls[..1] == [first] && [first][..0] == [];
    ModelRuns.TurnsSnoc(p, s, [first]);
    ModelRuns.TurnsSnoc(p, s, calls);
  }

  /** The first call makes no attempt and stores the prompt size of what it sent. */
  lemma AfterFirst(compacted: Option<string>)
    requires compacted == None || compacted == Some("s")
    ensures var p := SmallPolicy(true, 2);
            var t := TurnOf(p, map[], ModelCall([A, B], false, SmallWorld(Some("s"), compacted)));
            && AttemptOf(p.cfg, map[], t) == []
            && ReadTokens(After(p.cfg, map[], t)) == Some(if compacted.Some? then 8 else 102)
            && ReadCount(After(p.cfg, map[], t), FAILURES_KEY) == 0
  {
    var p := SmallPolicy(true, 2);
    var first := ModelCall([A, B], false, SmallWorld(Some("s"), compacted));
    FirstCall(compacted);
    AfterReads(p.cfg, map[], TurnOf(p, map[], first));
    Weights();
    PairWeighs(TextTokens, if compacted.Some? then CompactHead("s") else A, B);
  }

  lemma OneSession(compacted: Option<string>)
    requires compacted == None || compacted == Some("s")
    ensures var p := SmallPolicy(true, 2);
            var first, second := ModelCall([A, B], false, SmallWorld(Some("s"), compacted)),
                ModelCall([B, B, B], false, SmallWorld(Some("s"), None));
            Attempts(p.cfg, map[], ModelRuns.TurnsOf(p, map[], [first, second])) == if compacted.Some? then []
                else [Some("s")]
  {
    var p := SmallPolicy(true, 2);
    var first, second := ModelCall([A, B], false, SmallWorld(Some("s"), compacted)),
        ModelCall([B, B, B], false, SmallWorld(Some("s"), None));
    TwoCalls(p, map[], first, second);
    AfterFirst(compacted);
    ThreeCut();
    SecondCall(After(p.cfg, map[], TurnOf(p, map[], first)), if compacted.Some? then 8 else 102, second);
  }

  lemma ThreeCut()
    ensures CutPoint([B, B, B], 2) == 1
  {
    ModelTexts(B);
    assert AdjustedSplit([B, B, B], 1) == 1;
  }

  lemma AttemptIs(p: Policy, s: Session, c: ModelCall)
    ensures AttemptOf(p.cfg, s, TurnOf(p, s, c)) == if Summarized(p, s, c) then [SummaryOf(p, s, c)] else []
  {
  }

  lemma WholePercent(n: int)
    ensures Percent(n, 1.0) == n
  {
  }

  lemma CountDecides(p: Policy, window: nat, count: nat)
    requires p.cfg.realTokens && p.pct == 1.0 && window - p.reserve >= 1
    ensures RealTokenDecision(p, Signals(Some(count), window)) == Some(count >= window - p.reserve)
  {
    WholePercent(window - p.reserve);
  }

  lemma DropDecided(est: Content -> nat, cs: seq<Content>, p: Policy, sig: Signals, breach: bool)
    requires RealTokenDecision(p, sig) == Some(breach) && |cs| > p.knobs.tail && !p.prune && !p.manual
    ensures DroppedPrefix(est, cs, false, p, sig) == if breach then cs[..CutPoint(cs, p.knobs.tail)] else []
  {
  }

  lemma SecondCall(s: Session, count: nat, c: ModelCall)
    requires |c.contents| == 3 && CutPoint(c.contents, 2) == 1 && !c.requested
    requires c.world == SmallWorld(Some("s"), None)
    requires ReadTokens(s) == Some(count) && (count == 8 || count == 102) && ReadCount(s, FAILURES_KEY) == 0
    ensures var p := SmallPolicy(true, 2);
            AttemptOf(p.cfg, s, TurnOf(p, s, c)) == if count == 102 then [Some("s")] else []
  {
    var p := SmallPolicy(true, 2);
    CountDecides(p, WINDOW, count);
    DropDecided(c.world.est, c.contents, p, Signals(Some(count), WINDOW), count >= 50);
    AttemptIs(p, s, c);
    AnswerDecided(p, s, c);
  }

  lemma AnswerDecided(p: Policy, s: Session, c: ModelCall)
    requires p.cfg.summarize && ReadCount(s, FAILURES_KEY) < p.cfg.cap
    requires forall cs, a :: c.world.summarize(cs, a) == Some("s")
    ensures Summarized(p, s, c) == (DroppedBy(p, s, c) != [])
    ensures Summarized(p, s, c) ==> SummaryOf(p, s, c) == Some("s")
  {
  }
}
