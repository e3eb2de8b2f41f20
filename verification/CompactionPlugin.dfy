/** One model call as the plugin makes it: what it reads from the session, what it makes of the request, which
    foreign calls it makes on the way, and what it writes back. Everything a call does is computed here from the
    contents, the session and the answers of the outside world. */
module CompactionPlugin {
  import opened Basics
  import opened Transcript
  import opened TailTrim
  import opened SummaryAnchor
  import opened SessionBreakers
  import opened CompactionTurn
  import Escalation
  import Prune

  /** The outside world of one call: the estimator and the model window, the two summarizers (`None` when one
      raises or gives nothing), and the prompt size the model reports for what it is sent. */
  datatype World = World(est: Content -> nat, render: Content -> string, window: int,
                         summarize: (seq<Content>, Option<string>) -> Option<string>,
                         compact: seq<Content> -> Option<string>, measure: seq<Content> -> Option<nat>)

  datatype ModelCall = ModelCall(contents: seq<Content>, requested: bool, world: World)

  // ---------------------------------------------------------------- what one call does

  function SignalsOf(p: Policy, s: Session, w: World): Signals {
    Signals(if p.cfg.realTokens then ReadTokens(s) else None, w.window)
  }

  function DroppedBy(p: Policy, s: Session, c: ModelCall): seq<Content> {
    DroppedPrefix(c.world.est, c.contents, c.requested, p, SignalsOf(p, s, c.world))
  }

  function AnswerTo(p: Policy, s: Session, c: ModelCall): Option<string> {
    var dropped := DroppedBy(p, s, c);
    c.world.summarize(dropped, AnchorFor(p.cfg.anchored, ReadAnchor(s), dropped))
  }

  predicate Usable(answer: Option<string>) { answer.Some? && answer.value != "" }

  /** The summarizer is called. */
  predicate Summarized(p: Policy, s: Session, c: ModelCall) {
    p.cfg.summarize && DroppedBy(p, s, c) != [] && !SummaryBreakerOpen(p.cfg, s)
  }

  /** The summary that heads the kept tail of this call, if one was asked for and given. */
  function SummaryOf(p: Policy, s: Session, c: ModelCall): Option<string> {
    if Summarized(p, s, c) && Usable(AnswerTo(p, s, c)) then AnswerTo(p, s, c) else None
  }

  /** The contents at the gate. */
  function AfterTrim(p: Policy, s: Session, c: ModelCall): seq<Content> {
    AfterTrimRequest(c.world.est, c.contents, c.requested, p, SignalsOf(p, s, c.world), SummaryOf(p, s, c))
  }

  /** What tier 7 is handed for the contents `mid` at the gate, if anything. */
  function Tier7Load(p: Policy, w: World, mid: seq<Content>): Option<seq<Content>> {
    if GateOpens(w.est, mid, p, w.window)
    then Escalation.Tier7Input(w.est, Percent(w.window, p.criticalPct), mid, w.render)
    else None
  }

  predicate Raises7(w: World, load: Option<seq<Content>>) { load.Some? && w.compact(load.value).None? }

  function StrategiesOf(w: World, breakerOpen: bool): Strategies {
    Strategies(cs => Escalation.DrainAnswer(cs, w.render),
               cs => Escalation.CompactAnswer(cs, w.render, breakerOpen, w.compact(cs)))
  }

  function AfterLadder(p: Policy, w: World, mid: seq<Content>, breakerOpen: bool): seq<Content> {
    AfterGate(w.est, mid, p, w.window, StrategiesOf(w, breakerOpen))
  }

  function SentBy(p: Policy, s: Session, c: ModelCall): seq<Content> {
    AfterLadder(p, c.world, AfterTrim(p, s, c), ReadCount(s, PROACTIVE_KEY) >= p.cfg.cap)
  }

  /** With the ladder off the counter does not matter. */
  lemma SentIs(p: Policy, s: Session, c: ModelCall, failures: nat)
    requires p.cfg.proactive ==> failures == ReadCount(s, PROACTIVE_KEY)
    ensures SentBy(p, s, c) == AfterLadder(p, c.world, AfterTrim(p, s, c), failures >= p.cfg.cap)
  {
  }

  /** The call by what it did. */
  function TurnOf(p: Policy, s: Session, c: ModelCall): Turn {
    var load := Tier7Load(p, c.world, AfterTrim(p, s, c));
    Turn(DroppedBy(p, s, c) != [], AnswerTo(p, s, c), load.Some?, Raises7(c.world, load),
        c.world.measure(SentBy(p, s, c)))
  }

  // ---------------------------------------------------------------- the plugin

  /** `failures` and `proactive` are the counters to go up, where one does. */
  function Written(cfg: Config, s: Session, summary: Option<string>, failures: Option<nat>,
      proactive: Option<nat>): Session {
    var s1 := if !cfg.summarize || summary.None? then s else s[FAILURES_KEY := Int(0)];
    var s2 := if !cfg.summarize || summary.None? || !cfg.anchored then s1 else s1[ANCHOR_KEY := Str(summary.value)];
    var s3 := if cfg.summarize && summary.None? && failures.Some?
              then s2[FAILURES_KEY := Int(failures.value + 1)]
              else s2;
    if cfg.proactive && proactive.Some? then s3[PROACTIVE_KEY := Int(proactive.value + 1)] else s3
  }

  lemma WrittenIsAfter(cfg: Config, s: Session, t: Turn, made: Option<string>, failures: nat, proactive: nat)
    requires cfg.summarize ==> failures == ReadCount(s, FAILURES_KEY)
    requires cfg.proactive ==> proactive == ReadCount(s, PROACTIVE_KEY)
    requires made == if Summarizes(cfg, s, t) && Succeeds(t) then t.answer else None
    requires t.tier7Raises ==> t.reachesTier7
    ensures AfterBefore(cfg, s, t) ==
            Written(cfg, s, if made.Some? then Some(Capped(made.value)) else None,
                    if Summarizes(cfg, s, t) && made.None? then Some(failures) else None,
                    if proactive < cfg.cap && t.tier7Raises then Some(proactive) else None)
  {
  }

  lemma CallWrites(p: Policy, s: Session, c: ModelCall, failures: nat, proactive: nat)
    requires p.cfg.summarize ==> failures == ReadCount(s, FAILURES_KEY)
    requires p.cfg.proactive ==> proactive == ReadCount(s, PROACTIVE_KEY)
    ensures var made := SummaryOf(p, s, c);
            var raised := Raises7(c.world, Tier7Load(p, c.world, AfterTrim(p, s, c)));
            AfterBefore(p.cfg, s, TurnOf(p, s, c)) ==
            Written(p.cfg, s, if made.Some? then Some(Capped(made.value)) else None,
                    if Summarized(p, s, c) && made.None? then Some(failures) else None,
                    if proactive < p.cfg.cap && raised then Some(proactive) else None)
  {
    WrittenIsAfter(p.cfg, s, TurnOf(p, s, c), SummaryOf(p, s, c), failures, proactive);
  }

  class Plugin {
    const p: Policy
    var pendingReal: Option<int>
    var pendingAnchor: Option<string>
    var pendingFailures: nat
    var producedSummary: Option<string>
    var producedFailed: bool
    var pendingProactive: nat
    var producedProactiveFailed: bool

    constructor (p: Policy)
      ensures this.p == p
    {
      this.p := p;
      pendingReal, pendingAnchor, pendingFailures, producedSummary, producedFailed := None, None, 0, None, false;
      pendingProactive, producedProactiveFailed := 0, false;
    }

    method ReadSession(s: Session)
      modifies this
      ensures pendingReal == if p.cfg.realTokens then ReadTokens(s) else None
      ensures pendingAnchor == if p.cfg.summarize && p.cfg.anchored then ReadAnchor(s) else None
      ensures pendingFailures == if p.cfg.summarize then ReadCount(s, FAILURES_KEY) else 0
      ensures pendingProactive == if p.cfg.proactive then ReadCount(s, PROACTIVE_KEY) else 0
      ensures producedSummary == None && !producedFailed && !producedProactiveFailed
    {
      pendingReal := if p.cfg.realTokens then ReadTokens(s) else None;
      pendingAnchor, pendingFailures, pendingProactive := None, 0, 0;
      if p.cfg.summarize {
        pendingAnchor := if p.cfg.anchored then ReadAnchor(s) else None;
        pendingFailures := ReadCount(s, FAILURES_KEY);
      }
      producedSummary, producedFailed := None, false;
      if p.cfg.proactive { pendingProactive := ReadCount(s, PROACTIVE_KEY); }
      producedProactiveFailed := false;
    }

    predicate Open()
      reads this`pendingFailures
    {
      p.cfg.cap > 0 && pendingFailures >= p.cfg.cap
    }

    /** The summarizer is called for this prefix. */
    predicate Tries(dropped: seq<Content>)
      reads this`pendingFailures
    {
      p.cfg.summarize && dropped != [] && !Open()
    }

    /** The summary made of this prefix. */
    function Made(dropped: seq<Content>, w: World): Option<string>
      reads this`pendingFailures, this`pendingAnchor
    {
      var answer := w.summarize(dropped, AnchorFor(p.cfg.anchored, pendingAnchor, dropped));
      if Tries(dropped) && Usable(answer) then answer else None
    }

    /** The produced fields record the attempt on this prefix, or that there was none. */
    ghost predicate Records(dropped: seq<Content>, w: World)
      reads this
    {
      var made := Made(dropped, w);
      && producedSummary == (if made.Some? then Some(Capped(made.value)) else None)
      && producedFailed == (Tries(dropped) && made.None?)
    }

    /** The head put in front of the kept tail: the summary and the preserved results, or nothing. */
    method BuildSummaryHead(dropped: seq<Content>, w: World) returns (head: seq<Content>)
      requires p.cfg.summarize && dropped != [] && producedSummary == None && !producedFailed
      modifies this`producedSummary, this`producedFailed
      ensures Records(dropped, w)
      ensures head == SummaryHead(dropped, Made(dropped, w))
    {
      head := [];
      if p.cfg.cap > 0 && pendingFailures >= p.cfg.cap { return; }
      var anchor: Option<string> := None;
      if p.cfg.anchored {
        anchor := FindAnchor(dropped);
        if anchor.None? { anchor := pendingAnchor; }
      }
      var summary := w.summarize(dropped, anchor);
      if summary.None? || summary.value == "" {
        producedFailed := true;
        return;
      }
      producedSummary := Some(Capped(summary.value));
      var texts := ProtectedTextContents(dropped);
      head := [SummaryContent(summary.value)] + texts;
    }

    method ApplyTailTrim(req: LlmRequest, w: World)
      requires producedSummary == None && !producedFailed
      modifies req, this`producedSummary, this`producedFailed
      ensures var cs := old(req.contents);
              var dropped := cs[..CutPoint(cs, p.knobs.tail)];
              req.contents == Trimmed(cs, p.knobs.tail, Made(dropped, w)) && Records(dropped, w)
    {
      var cs := req.contents;
      var split := FindCut(cs, p.knobs.tail);
      if split == 0 { return; }
      var dropped := cs[..split];
      var pinned := PinActiveTask(cs, split);
      var head := [];
      if p.cfg.summarize { head := BuildSummaryHead(dropped, w); }
      assert head == SummaryHead(dropped, Made(dropped, w)) && Records(dropped, w);
      TrimmedAt(cs, p.knobs.tail, Made(dropped, w));
      req.contents := head + pinned + cs[split..];
    }

    method TrimRequest(req: LlmRequest, signal: ManualSignal, w: World)
      requires p.knobs.Valid() && producedSummary == None && !producedFailed
      modifies req, signal, this`producedSummary, this`producedFailed
      ensures var cs, requested, sig := old(req.contents), old(signal.requested), Signals(pendingReal, w.window);
              var dropped := DroppedPrefix(w.est, cs, requested, p, sig);
              && req.contents == AfterTrimRequest(w.est, cs, requested, p, sig, Made(dropped, w))
              && Records(dropped, w)
              && signal.requested == (requested && !Forces(cs, requested, p))
    {
      if |req.contents| <= p.knobs.tail { return; }
      var forced := false;
      if p.manual { forced := signal.Consume(); }
      if p.prune { req.contents := Prune.Pruned(req.contents, p.knobs); }
      if forced {
        ApplyTailTrim(req, w);
        return;
      }
      var decided := RealTokenDecision(p, Signals(pendingReal, w.window));
      if decided == Some(false) { return; }
      if decided == Some(true) || BoundaryBreached(w.est, req.contents, p, Signals(pendingReal, w.window)) {
        ApplyTailTrim(req, w);
      }
    }

    method MaybeProactiveRecover(req: LlmRequest, w: World)
      requires !producedProactiveFailed
      modifies req, this`producedProactiveFailed
      ensures req.contents == AfterLadder(p, w, old(req.contents), pendingProactive >= p.cfg.cap)
      ensures producedProactiveFailed ==
              (pendingProactive < p.cfg.cap && Raises7(w, Tier7Load(p, w, old(req.contents))))
    {
      if !p.cfg.proactive || req.contents == [] { return; }
      var budget := Percent(w.window, p.criticalPct);
      if budget < 1 { return; }
      var total := Escalation.SumEstimates(w.est, req.contents);
      if total <= budget { return; }
      var tier;
      tier, producedProactiveFailed :=
        Escalation.ProactiveRecover(req, w.est, budget, w.render, pendingProactive, p.cfg.cap, w.compact);
    }

    /** The pending fields hold what `s` stores. */
    ghost predicate Pending(s: Session)
      reads this
    {
      && pendingReal == (if p.cfg.realTokens then ReadTokens(s) else None)
      && pendingAnchor == (if p.cfg.summarize && p.cfg.anchored then ReadAnchor(s) else None)
      && pendingFailures == (if p.cfg.summarize then ReadCount(s, FAILURES_KEY) else 0)
    }

    lemma MadeIsSummary(s: Session, c: ModelCall)
      requires Pending(s)
      ensures Made(DroppedBy(p, s, c), c.world) == SummaryOf(p, s, c)
      ensures Tries(DroppedBy(p, s, c)) == Summarized(p, s, c)
    {
    }

    /** The produced fields hold what the call did. */
    ghost predicate Produced(made: Option<string>, tried: bool, raised: bool)
      reads this
    {
      && producedSummary == (if made.Some? then Some(Capped(made.value)) else None)
      && producedFailed == (tried && made.None?)
      && producedProactiveFailed == raised
    }

    method TrimStep(req: LlmRequest, signal: ManualSignal, w: World, ghost s: Session, ghost c: ModelCall)
      requires p.knobs.Valid() && Pending(s) && producedSummary == None && !producedFailed && !producedProactiveFailed
      requires c == ModelCall(req.contents, signal.requested, w)
      modifies req, signal, this`producedSummary, this`producedFailed
      ensures req.contents == AfterTrim(p, s, c)
      ensures Produced(SummaryOf(p, s, c), Summarized(p, s, c), false)
      ensures signal.requested == (c.requested && !Forces(c.contents, c.requested, p))
    {
      MadeIsSummary(s, c);
      TrimRequest(req, signal, w);
    }

    /** The trim, and the gate behind it. */
    method ApplyBeforeModel(req: LlmRequest, signal: ManualSignal, w: World, ghost s: Session, ghost c: ModelCall)
      requires p.knobs.Valid() && Pending(s) && producedSummary == None && !producedFailed && !producedProactiveFailed
      requires c == ModelCall(req.contents, signal.requested, w)
      modifies req, signal, this`pendingReal, this`pendingAnchor
      modifies this`producedSummary, this`producedFailed, this`producedProactiveFailed
      ensures req.contents == AfterLadder(p, w, AfterTrim(p, s, c), pendingProactive >= p.cfg.cap)
      ensures Produced(SummaryOf(p, s, c), Summarized(p, s, c),
                       pendingProactive < p.cfg.cap && Raises7(w, Tier7Load(p, w, AfterTrim(p, s, c))))
      ensures signal.requested == (c.requested && !Forces(c.contents, c.requested, p))
    {
      TrimStep(req, signal, w, s, c);
      pendingReal, pendingAnchor := None, None;
      MaybeProactiveRecover(req, w);
    }

    /** What the produced fields ask to be written. */
    method WriteSession(state: SessionState)
      modifies state
      ensures state.values == Written(p.cfg, old(state.values), producedSummary,
                                      if producedFailed then Some(pendingFailures) else None,
                                      if producedProactiveFailed then Some(pendingProactive) else None)
    {
      if p.cfg.summarize {
        if producedSummary.Some? {
          state.values := state.values[FAILURES_KEY := Int(0)];
          if p.cfg.anchored { state.values := state.values[ANCHOR_KEY := Str(producedSummary.value)]; }
        } else if producedFailed {
          state.values := state.values[FAILURES_KEY := Int(pendingFailures + 1)];
        }
      }
      if p.cfg.proactive && producedProactiveFailed {
        state.values := state.values[PROACTIVE_KEY := Int(pendingProactive + 1)];
      }
    }

    /** Before the model is called. */
    method BeforeModel(req: LlmRequest, state: SessionState, signal: ManualSignal, w: World)
      requires p.knobs.Valid()
      modifies this, req, state, signal
      ensures var c, s := ModelCall(old(req.contents), old(signal.requested), w), old(state.values);
              && req.contents == SentBy(p, s, c)
              && state.values == AfterBefore(p.cfg, s, TurnOf(p, s, c))
              && signal.requested == (c.requested && !Forces(c.contents, c.requested, p))
    {
      ghost var c, s := ModelCall(req.contents, signal.requested, w), state.values;
      ReadSession(state.values);
      ApplyBeforeModel(req, signal, w, s, c);
      SentIs(p, s, c, pendingProactive);
      CallWrites(p, s, c, pendingFailures, pendingProactive);
      WriteSession(state);
    }

    /** After the model has answered. */
    method AfterModel(state: SessionState, reported: Option<nat>)
      modifies state
      ensures state.values == Reported(p.cfg, old(state.values), reported)
    {
      if p.cfg.realTokens && reported.Some? { state.values := state.values[TOKENS_KEY := Int(reported.value)]; }
    }
  }
}
