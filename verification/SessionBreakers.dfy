/** What the compaction plugin keeps in the session between model calls: the summary failure counter with the
    summary anchor, the tier-7 failure counter, and the real prompt size of the last call. A model call enters
    here by what it did; `CompactionPlugin` says what it did from the contents. */
module SessionBreakers {
  import opened Basics
  import opened SummaryAnchor

  const ANCHOR_KEY := "magi_compaction_anchor_summary"
  const FAILURES_KEY := "magi_compaction_summary_failure_count"
  const PROACTIVE_KEY := "magi_compaction_proactive_summary_failure_count"
  const TOKENS_KEY := "magi_compaction_real_prompt_tokens"

  /** Session values are untyped; a read that finds anything odd falls back to its default. */
  datatype Value = Int(n: int) | Bool(b: bool) | Str(s: string)

  type Session = map<string, Value>

  function ReadCount(s: Session, key: string): nat {
    if key in s && s[key].Int? && s[key].n >= 0 then s[key].n else 0
  }

  function ReadAnchor(s: Session): Option<string> {
    if ANCHOR_KEY in s && s[ANCHOR_KEY].Str? && s[ANCHOR_KEY].s != "" then Some(s[ANCHOR_KEY].s) else None
  }

  function ReadTokens(s: Session): Option<int> {
    if TOKENS_KEY in s && s[TOKENS_KEY].Int? && s[TOKENS_KEY].n >= 0 then Some(s[TOKENS_KEY].n) else None
  }

  /** An empty anchor and a negative size read as none. */
  lemma ReadsAreProper(s: Session)
    ensures ReadAnchor(s).Some? ==> ReadAnchor(s).value != ""
    ensures ReadTokens(s).Some? ==> ReadTokens(s).value >= 0
  {
  }

  datatype Config = Config(summarize: bool, anchored: bool, proactive: bool, realTokens: bool, cap: nat)

  /** One model call by what it did: whether a prefix was really dropped, what the summarizer would answer,
      whether tier 7 was reached with something to compact, whether its summarizer would raise, and the prompt
      size the model reported. */
  datatype Turn = Turn(drops: bool, answer: Option<string>, reachesTier7: bool, tier7Raises: bool,
                       reported: Option<nat>)

  predicate Succeeds(t: Turn) {
    t.answer.Some? && t.answer.value != ""
  }

  // ---------------------------------------------------------------- one call

  predicate SummaryBreakerOpen(cfg: Config, s: Session) {
    cfg.cap > 0 && ReadCount(s, FAILURES_KEY) >= cfg.cap
  }

  predicate Summarizes(cfg: Config, s: Session, t: Turn) {
    cfg.summarize && t.drops && !SummaryBreakerOpen(cfg, s)
  }

  predicate Compacts(cfg: Config, s: Session, t: Turn) {
    cfg.proactive && t.reachesTier7 && ReadCount(s, PROACTIVE_KEY) < cfg.cap
  }

  function AfterSummary(cfg: Config, s: Session, t: Turn): Session {
    if !Summarizes(cfg, s, t) then s
    else if !Succeeds(t) then s[FAILURES_KEY := Int(ReadCount(s, FAILURES_KEY) + 1)]
    else if cfg.anchored then s[FAILURES_KEY := Int(0)][ANCHOR_KEY := Str(Capped(t.answer.value))]
    else s[FAILURES_KEY := Int(0)]
  }

  /** What the session holds when the request goes out. */
  function AfterBefore(cfg: Config, s: Session, t: Turn): Session {
    var s' := AfterSummary(cfg, s, t);
    if Compacts(cfg, s, t) && t.tier7Raises then s'[PROACTIVE_KEY := Int(ReadCount(s, PROACTIVE_KEY) + 1)] else s'
  }

  /** What the reported prompt size adds when the model has answered. */
  function Reported(cfg: Config, s: Session, reported: Option<nat>): Session {
    if cfg.realTokens && reported.Some? then s[TOKENS_KEY := Int(reported.value)] else s
  }

  function After(cfg: Config, s: Session, t: Turn): Session {
    Reported(cfg, AfterBefore(cfg, s, t), t.reported)
  }

  lemma KeysAreDistinct()
    ensures FAILURES_KEY != PROACTIVE_KEY && FAILURES_KEY != ANCHOR_KEY && PROACTIVE_KEY != ANCHOR_KEY
    ensures TOKENS_KEY != FAILURES_KEY && TOKENS_KEY != PROACTIVE_KEY && TOKENS_KEY != ANCHOR_KEY
  {
    assert FAILURES_KEY[16] == 's' && PROACTIVE_KEY[16] == 'p' && ANCHOR_KEY[16] == 'a' && TOKENS_KEY[16] == 'r';
  }

  /** What one call does to each of the stored values: each is written by its own mechanism only. */
  lemma AfterReads(cfg: Config, s: Session, t: Turn)
    ensures ReadCount(After(cfg, s, t), FAILURES_KEY) ==
            if !Summarizes(cfg, s, t) then ReadCount(s, FAILURES_KEY)
            else if Succeeds(t) then 0 else ReadCount(s, FAILURES_KEY) + 1
    ensures ReadAnchor(After(cfg, s, t)) ==
            if cfg.anchored && Summarizes(cfg, s, t) && Succeeds(t) then Some(Capped(t.answer.value)) else ReadAnchor(s)
    ensures ReadCount(After(cfg, s, t), PROACTIVE_KEY) ==
            ReadCount(s, PROACTIVE_KEY) + if Compacts(cfg, s, t) && t.tier7Raises then 1 else 0
    ensures ReadTokens(After(cfg, s, t)) ==
            if cfg.realTokens && t.reported.Some? then t.reported else ReadTokens(s)
  {
    KeysAreDistinct();
  }

  class SessionState {
    var values: Session
    constructor (values: Session)
      ensures this.values == values
    {
      this.values := values;
    }
  }

  // ---------------------------------------------------------------- whole runs

  function Run(cfg: Config, s: Session, turns: seq<Turn>): Session {
    if turns == [] then s else After(cfg, Run(cfg, s, turns[..|turns| - 1]), turns[|turns| - 1])
  }

  /** The attempt of one call, if it made one: `Some` text for a success, `None` for a failure. */
  function AttemptOf(cfg: Config, s: Session, t: Turn): seq<Option<string>> {
    if Summarizes(cfg, s, t) then [if Succeeds(t) then t.answer else None] else []
  }

  /** The summarizer's answers over a run, in order. */
  function Attempts(cfg: Config, s: Session, turns: seq<Turn>): seq<Option<string>> {
    if turns == [] then []
    else
      var init, t := turns[..|turns| - 1], turns[|turns| - 1];
      Attempts(cfg, s, init) + AttemptOf(cfg, Run(cfg, s, init), t)
  }

  /** Whether each tier-7 call of a run raised, in order. */
  function Compactions(cfg: Config, s: Session, turns: seq<Turn>): seq<bool> {
    if turns == [] then []
    else
      var init, t := turns[..|turns| - 1], turns[|turns| - 1];
      Compactions(cfg, s, init) + if Compacts(cfg, Run(cfg, s, init), t) then [t.tier7Raises] else []
  }

  function TrailingFailures(answers: seq<Option<string>>): nat {
    if answers == [] || answers[|answers| - 1].Some? then 0
    else 1 + TrailingFailures(answers[..|answers| - 1])
  }

  function LastSuccess(answers: seq<Option<string>>): Option<string> {
    if answers == [] then None
    else if answers[|answers| - 1].Some? then answers[|answers| - 1]
    else LastSuccess(answers[..|answers| - 1])
  }

  function Raises(calls: seq<bool>): nat {
    if calls == [] then 0 else Raises(calls[..|calls| - 1]) + if calls[|calls| - 1] then 1 else 0
  }

  /** Over every run the stored counter is the number of failures since the last success, it never passes a
      positive cap, and the stored anchor is the capped prefix of the latest successful summary. */
  lemma {:induction false} SummaryStateTracksAttempts(cfg: Config, turns: seq<Turn>)
    ensures var s, answers := Run(cfg, map[], turns), Attempts(cfg, map[], turns);
            && ReadCount(s, FAILURES_KEY) == TrailingFailures(answers)
            && (cfg.cap > 0 ==> ReadCount(s, FAILURES_KEY) <= cfg.cap)
            && ReadAnchor(s) == (if cfg.anchored && LastSuccess(answers).Some?
                                 then Some(Capped(LastSuccess(answers).value)) else None)
            && (LastSuccess(answers).Some? ==> LastSuccess(answers).value != "")
  {
    if turns != [] {
      var init, t := turns[..|turns| - 1], turns[|turns| - 1];
      SummaryStateTracksAttempts(cfg, init);
      AfterReads(cfg, Run(cfg, map[], init), t);
      var before, answers := Attempts(cfg, map[], init), Attempts(cfg, map[], turns);
      if Summarizes(cfg, Run(cfg, map[], init), t) {
        assert answers[..|answers| - 1] == before;
      } else {
        assert answers == before;
      }
    }
  }

  /** Once the summary counter reaches a positive cap no later turn calls the summarizer: the breaker never
      closes again by itself. */
  lemma {:induction false} OpenBreakerStaysOpen(cfg: Config, s: Session, turns: seq<Turn>, n: nat)
    requires n <= |turns| && SummaryBreakerOpen(cfg, Run(cfg, s, turns[..n]))
    ensures Attempts(cfg, s, turns) == Attempts(cfg, s, turns[..n])
    ensures SummaryBreakerOpen(cfg, Run(cfg, s, turns))
  {
    if n < |turns| {
      var init := turns[..|turns| - 1];
      assert init[..n] == turns[..n];
      OpenBreakerStaysOpen(cfg, s, init, n);
      AfterReads(cfg, Run(cfg, s, init), turns[|turns| - 1]);
    } else {
      assert turns[..n] == turns;
    }
  }

  /** How many calls of a run dropped a prefix. */
  function CountDrops(turns: seq<Turn>): nat {
    if turns == [] then 0 else CountDrops(turns[..|turns| - 1]) + if turns[|turns| - 1].drops then 1 else 0
  }

  /** A cap of zero means two things: the summary breaker never opens, so over every run each drop is
      summarized, whatever failed before; and tier 7 is never called at all. */
  lemma {:induction false} CapZero(cfg: Config, s: Session, turns: seq<Turn>)
    requires cfg.cap == 0
    ensures |Attempts(cfg, s, turns)| == if cfg.summarize then CountDrops(turns) else 0
    ensures Compactions(cfg, s, turns) == []
  {
    if turns != [] { CapZero(cfg, s, turns[..|turns| - 1]); }
  }

  /** Over every run the proactive counter is cumulative: all raises so far, never more than the cap, and
      successes never lower it. */
  lemma {:induction false} ProactiveCounterIsCumulative(cfg: Config, turns: seq<Turn>)
    ensures var s := Run(cfg, map[], turns);
            && ReadCount(s, PROACTIVE_KEY) == Raises(Compactions(cfg, map[], turns))
            && ReadCount(s, PROACTIVE_KEY) <= cfg.cap
  {
    if turns != [] {
      var init, t := turns[..|turns| - 1], turns[|turns| - 1];
      ProactiveCounterIsCumulative(cfg, init);
      AfterReads(cfg, Run(cfg, map[], init), t);
      var before, calls := Compactions(cfg, map[], init), Compactions(cfg, map[], turns);
      if Compacts(cfg, Run(cfg, map[], init), t) {
        assert calls[..|calls| - 1] == before;
      } else {
        assert calls == before;
      }
    }
  }

  /** With every feature off the session is never written. */
  lemma {:induction false} DisabledPluginWritesNothing(cfg: Config, s: Session, turns: seq<Turn>)
    requires !cfg.summarize && !cfg.proactive && !cfg.realTokens
    ensures Run(cfg, s, turns) == s
  {
    if turns != [] { DisabledPluginWritesNothing(cfg, s, turns[..|turns| - 1]); }
  }
}
