/** The multi-turn episode loop of the tau-bench driver. In each turn the agent calls tools through the
    guarded tool belt and then speaks; the loop may nudge it once when it claims an unsupported success and
    review it once when it concludes, and otherwise passes its text to the simulated user. */
module Episode {
  import opened Basics
  import opened WriteGuard

  const SUCCESS_MARKERS := ["is booked", "has been booked", "reservation id", "confirmation number", "is confirmed",
                            "booking is confirmed", "successfully", "has been cancelled", "has been canceled",
                            "has been completed"]
  const CONCLUSION_MARKERS := SUCCESS_MARKERS + ["unable to", "not able to", "cannot", "can't", "won't be able",
                              "i'm sorry", "i am sorry", "unfortunately", "is there anything else",
                              "anything else i can"]

  function LowerAll(s: string): string { seq(|s|, i requires 0 <= i < |s| => Lower(s[i])) }

  predicate MatchesAt(s: string, m: string, i: int) {
    0 <= i <= |s| - |m| && s[i..i + |m|] == m
  }

  predicate Contains(s: string, m: string) {
    exists i :: 0 <= i <= |s| - |m| && MatchesAt(s, m, i)
  }

  predicate HasMarker(text: string, markers: seq<string>) {
    exists m :: m in markers && Contains(LowerAll(text), m)
  }

  /** A marker is contained where it stands between any two texts. */
  lemma ContainsIff(s: string, m: string)
    ensures Contains(s, m) <==> exists a: string, b: string :: s == a + m + b
  {
    if Contains(s, m) {
      var i :| 0 <= i <= |s| - |m| && MatchesAt(s, m, i);
      assert s == s[..i] + m + s[i + |m|..];
    }
    if a: string, b: string :| s == a + m + b {
      assert s[|a|..|a| + |m|] == m;
      assert MatchesAt(s, m, |a|);
    }
  }

  predicate Claims(text: string) { HasMarker(text, SUCCESS_MARKERS) }
  predicate Concludes(text: string) { HasMarker(text, CONCLUSION_MARKERS) }

  /** The last write failed, or no write ever succeeded. */
  predicate LacksSuccess(records: seq<Record>) {
    (records != [] && !records[|records| - 1].ok) || !exists r :: r in records && r.ok
  }

  /** A success claim the ledger does not support. */
  predicate Unsupported(records: seq<Record>, text: string) {
    Claims(text) && LacksSuccess(records)
  }

  datatype Config = Config(verify: bool, review: bool, levers: Levers)

  /** One turn from outside: the tool calls, the text (`None` when the runner crashes), and what the simulated
      user's environment answers if the text is passed on. */
  datatype Turn = Turn(calls: seq<ToolCall>, text: Option<string>, reward: real, done: bool)

  datatype Kind = Crashed | DoneInTurn | Nudged | Reviewed | Responded(text: string, unsupported: bool)
  /** A turn that was played, with the rewards and done flags observed during it. */
  datatype Step = Step(kind: Kind, seen: seq<(real, bool)>)
  datatype Result = Result(reward: real, done: bool, turns: nat, infraError: bool)

  // ---------------------------------------------------------------- the loop as a function

  function AfterCalls(lv: Levers, g: Guard, calls: seq<ToolCall>): Guard {
    if calls == [] then g else Next(lv, AfterCalls(lv, g, calls[..|calls| - 1]), calls[|calls| - 1])
  }

  /** What the environment showed during the calls, in order. */
  function Shown(lv: Levers, g: Guard, calls: seq<ToolCall>): seq<(real, bool)> {
    if calls == [] then []
    else
      var init, c := calls[..|calls| - 1], calls[|calls| - 1];
      Shown(lv, g, init) +
      if OutcomeOf(lv, AfterCalls(lv, g, init), c).Ran? && c.reply.Stepped?
      then [(c.reply.reward, c.reply.done)]
      else []
  }

  function KindOf(cfg: Config, g: Guard, nudged: bool, reviewed: bool, t: Turn): Kind {
    if t.text.None? then Crashed
    else if g.done then DoneInTurn
    else if cfg.verify && !nudged && Unsupported(g.records, t.text.value) then Nudged
    else if cfg.review && !reviewed && Concludes(t.text.value) then Reviewed
    else Responded(t.text.value, Unsupported(g.records, t.text.value))
  }

  /** The loop's variables. */
  datatype Loop = Loop(g: Guard, nudged: bool, reviewed: bool, turns: nat)
  datatype Progress = Ends(result: Result) | Continues(next: Loop)

  const FIRST := Loop(START, false, false, 0)

  /** One turn: what was played, and whether the loop goes on. */
  function Advance(cfg: Config, st: Loop, t: Turn): (Step, Progress) {
    var g := AfterCalls(cfg.levers, st.g, t.calls);
    var kind := KindOf(cfg, g, st.nudged, st.reviewed, t);
    var seen := Shown(cfg.levers, st.g, t.calls);
    var next := st.(g := g, turns := st.turns + 1);
    match kind
    case Crashed => (Step(kind, seen), Ends(Result(0.0, false, st.turns, true)))
    case DoneInTurn => (Step(kind, seen), Ends(Result(g.reward, g.done, st.turns + 1, false)))
    case Nudged => (Step(kind, seen), Continues(next.(nudged := true)))
    case Reviewed => (Step(kind, seen), Continues(next.(reviewed := true)))
    case Responded(_, _) =>
      (Step(kind, seen + [(t.reward, t.done)]), Continues(next.(g := g.(reward := t.reward, done := t.done))))
  }

  /** The rest of an episode: its result and the turns it plays. */
  function Play(cfg: Config, st: Loop, script: nat -> Turn, max: int): (Result, seq<Step>)
    decreases max - st.turns
  {
    if st.g.done || st.turns >= max then (Result(st.g.reward, st.g.done, st.turns, false), [])
    else
      var (s, progress) := Advance(cfg, st, script(st.turns));
      match progress
      case Ends(r) => (r, [s])
      case Continues(next) => Prepended([s], Play(cfg, next, script, max))
  }

  function Prepended(steps: seq<Step>, rest: (Result, seq<Step>)): (Result, seq<Step>) {
    (rest.0, steps + rest.1)
  }

  lemma PrependedTwice(steps: seq<Step>, s: Step, rest: (Result, seq<Step>))
    ensures Prepended(steps, Prepended([s], rest)) == Prepended(steps + [s], rest)
  {
    assert steps + ([s] + rest.1) == steps + [s] + rest.1;
  }

  /** One turn of an episode that goes on: what was played so far grows by its step. */
  lemma PlayUnrolls(cfg: Config, st: Loop, script: nat -> Turn, max: int, steps: seq<Step>)
    requires !st.g.done && st.turns < max
    ensures var (s, progress) := Advance(cfg, st, script(st.turns));
            Prepended(steps, Play(cfg, st, script, max)) ==
            if progress.Ends? then (progress.result, steps + [s])
            else Prepended(steps + [s], Play(cfg, progress.next, script, max))
  {
    var (s, progress) := Advance(cfg, st, script(st.turns));
    if progress.Continues? { PrependedTwice(steps, s, Play(cfg, progress.next, script, max)); }
  }

  // ---------------------------------------------------------------- the loop

  method VerifyFinal(ledger: WriteLedger, text: string) returns (nudge: bool)
    ensures nudge == Unsupported(ledger.records, text)
  {
    if !Claims(text) { return false; }
    var rs := ledger.records;
    if rs != [] && !rs[|rs| - 1].ok { return true; }
    for i := 0 to |rs|
      invariant forall r :: r in rs[..i] ==> !r.ok
    {
      if rs[i].ok { return false; }
    }
    assert rs[..|rs|] == rs;
    nudge := true;
  }

  method RunTurn(belt: ToolBelt, t: Turn)
    modifies belt`prompted, belt.ledger, belt.state
    ensures belt.Now() == AfterCalls(belt.levers, old(belt.Now()), t.calls)
  {
    ghost var before := belt.Now();
    for i := 0 to |t.calls|
      invariant belt.Now() == AfterCalls(belt.levers, before, t.calls[..i])
    {
      var outcome := belt.Invoke(t.calls[i]);
      assert t.calls[..i + 1][..i] == t.calls[..i];
    }
    assert t.calls[..|t.calls|] == t.calls;
  }

  /** The body of the loop: one turn, whether it ends the episode, and the loop's variables afterwards. */
  method PlayTurn(belt: ToolBelt, cfg: Config, t: Turn, nudged: bool, reviewed: bool, turns: nat)
    returns (ended: Option<Result>, nudgedNow: bool, reviewedNow: bool)
    requires belt.levers == cfg.levers
    modifies belt`prompted, belt.ledger, belt.state
    ensures Advance(cfg, Loop(old(belt.Now()), nudged, reviewed, turns), t).1 ==
            if ended.Some? then Ends(ended.value)
            else Continues(Loop(belt.Now(), nudgedNow, reviewedNow, turns + 1))
  {
    nudgedNow, reviewedNow := nudged, reviewed;
    RunTurn(belt, t);
    if t.text.None? { return Some(Result(0.0, false, turns, true)), nudged, reviewed; }
    var text := t.text.value;
    if belt.state.done {
      return Some(Result(belt.state.reward, belt.state.done, turns + 1, false)), nudged, reviewed;
    }
    ended := None;
    var nudge := false;
    if cfg.verify && !nudged { nudge := VerifyFinal(belt.ledger, text); }
    if nudge {
      nudgedNow := true;
    } else if cfg.review && !reviewed && Concludes(text) {
      reviewedNow := true;
    } else {
      belt.state.Observe(t.reward, t.done);
    }
  }

  method RunEpisode(belt: ToolBelt, cfg: Config, script: nat -> Turn, max: int)
    returns (result: Result, ghost steps: seq<Step>)
    requires belt.levers == cfg.levers && belt.Now() == START
    modifies belt, belt.ledger, belt.state
    ensures (result, steps) == Play(cfg, FIRST, script, max)
  {
    var nudged, reviewed := false, false;
    var turns: nat := 0;
    steps := [];
    ghost var whole := Play(cfg, FIRST, script, max);
    assert [] + whole.1 == whole.1;
    while !belt.state.done && turns < max
      invariant whole == Prepended(steps, Play(cfg, Loop(belt.Now(), nudged, reviewed, turns), script, max))
      decreases max - turns
    {
      ghost var st := Loop(belt.Now(), nudged, reviewed, turns);
      PlayUnrolls(cfg, st, script, max, steps);
      steps := steps + [Advance(cfg, st, script(turns)).0];
      var ended;
      ended, nudged, reviewed := PlayTurn(belt, cfg, script(turns), nudged, reviewed, turns);
      if ended.Some? { return ended.value, steps; }
      turns := turns + 1;
    }
    assert steps + [] == steps;
    result := Result(belt.state.reward, belt.state.done, turns, false);
  }

  // ---------------------------------------------------------------- accounting

  predicate Responds(s: Step) { s.kind.Responded? }

  /** How many turns of each kind were played. */
  datatype Tally = Tally(responds: nat, nudges: nat, reviews: nat, exits: nat, crashes: nat) {
    function Plus(k: Kind): Tally {
      match k
      case Crashed => this.(crashes := crashes + 1)
      case DoneInTurn => this.(exits := exits + 1)
      case Nudged => this.(nudges := nudges + 1)
      case Reviewed => this.(reviews := reviews + 1)
      case Responded(_, _) => this.(responds := responds + 1)
    }
  }

  function TallyOf(steps: seq<Step>): Tally {
    if steps == [] then Tally(0, 0, 0, 0, 0) else TallyOf(steps[1..]).Plus(steps[0].kind)
  }

  /** What one turn contributes to the account. */
  ghost predicate Contributes(cfg: Config, st: Loop, s: Step, progress: Progress) {
    match s.kind
    case Crashed => progress == Ends(Result(0.0, false, st.turns, true))
    case DoneInTurn =>
      progress.Ends? && !progress.result.infraError && progress.result.done && progress.result.turns == st.turns + 1
    case _ =>
      && progress.Continues? && progress.next.turns == st.turns + 1
      && progress.next.nudged == (st.nudged || s.kind.Nudged?)
      && progress.next.reviewed == (st.reviewed || s.kind.Reviewed?)
      && (s.kind.Nudged? ==> cfg.verify && !st.nudged) && (s.kind.Reviewed? ==> cfg.review && !st.reviewed)
  }

  lemma EachTurnContributes(cfg: Config, st: Loop, t: Turn)
    ensures var (s, progress) := Advance(cfg, st, t);
            Contributes(cfg, st, s, progress)
  {
  }

  lemma PlayStep(cfg: Config, st: Loop, script: nat -> Turn, max: int)
    requires !st.g.done && st.turns < max
    ensures var (s, progress) := Advance(cfg, st, script(st.turns));
            var (r, steps) := Play(cfg, st, script, max);
            && steps != [] && steps[0] == s
            && (progress.Ends? ==> r == progress.result && steps[1..] == [])
            && (progress.Continues? ==> (r, steps[1..]) == Play(cfg, progress.next, script, max))
  {
  }

  /** Turns are responds plus at most one nudge, one review and one exit inside a turn, and never pass the
      limit; a crash is reported with the turns finished before it, and no reward. */
  lemma {:induction false} TurnsAreAccounted(cfg: Config, st: Loop, script: nat -> Turn, max: int)
    ensures var (r, steps) := Play(cfg, st, script, max);
            var n := TallyOf(steps);
            && r.turns == st.turns + n.responds + n.nudges + n.reviews + n.exits
            && n.nudges <= (if cfg.verify && !st.nudged then 1 else 0)
            && n.reviews <= (if cfg.review && !st.reviewed then 1 else 0)
            && n.exits + n.crashes <= 1
            && (r.infraError <==> n.crashes == 1)
            && (r.infraError ==> r.reward == 0.0 && !r.done)
            && (st.turns <= max ==> r.turns <= max)
            && (!r.infraError ==> r.done || r.turns >= max)
    decreases max - st.turns
  {
    if !st.g.done && st.turns < max {
      var (s, progress) := Advance(cfg, st, script(st.turns));
      EachTurnContributes(cfg, st, script(st.turns));
      PlayStep(cfg, st, script, max);
      if progress.Continues? { TurnsAreAccounted(cfg, progress.next, script, max); }
    }
  }

  /** A turn of this kind was played before the `i`th. */
  predicate Before(steps: seq<Step>, kind: Kind, i: int)
    requires 0 <= i <= |steps|
  {
    exists j :: 0 <= j < i && steps[j].kind == kind
  }

  lemma BeforeCons(s: Step, rest: seq<Step>, kind: Kind, i: int)
    requires 0 <= i <= |rest|
    ensures Before([s] + rest, kind, i + 1) <==> s.kind == kind || Before(rest, kind, i)
  {
    var steps := [s] + rest;
    assert steps[0] == s && forall j :: 0 <= j < |rest| ==> steps[j + 1] == rest[j];
    if Before(rest, kind, i) {
      var j :| 0 <= j < i && rest[j].kind == kind;
      assert steps[j + 1].kind == kind;
    }
    if Before(steps, kind, i + 1) {
      var j :| 0 <= j < i + 1 && steps[j].kind == kind;
      assert j > 0 ==> rest[j - 1].kind == kind;
    }
  }

  /** The last of the observations, or `first` when there is none. */
  function Last(first: (real, bool), seen: seq<(real, bool)>): (real, bool) {
    if seen == [] then first else seen[|seen| - 1]
  }

  lemma {:induction false} CallsShowLast(lv: Levers, g: Guard, calls: seq<ToolCall>)
    ensures var g' := AfterCalls(lv, g, calls);
            (g'.reward, g'.done) == Last((g.reward, g.done), Shown(lv, g, calls))
  {
    if calls != [] { CallsShowLast(lv, g, calls[..|calls| - 1]); }
  }

  // ---------------------------------------------------------------- what each turn comes to

  lemma {:induction false} CallsConcat(lv: Levers, g: Guard, a: seq<ToolCall>, b: seq<ToolCall>)
    ensures AfterCalls(lv, g, a + b) == AfterCalls(lv, AfterCalls(lv, g, a), b)
  {
    if b == [] {
      assert a + b == a;
    } else {
      CallsConcat(lv, g, a, b[..|b| - 1]);
      assert (a + b)[..|a + b| - 1] == a + b[..|b| - 1];
    }
  }

  /** What the environment showed does not matter to the ledger. */
  lemma {:induction false} LedgerIgnoresReward(lv: Levers, g: Guard, reward: real, done: bool, calls: seq<ToolCall>)
    ensures var h := AfterCalls(lv, g.(reward := reward, done := done), calls);
            h.records == AfterCalls(lv, g, calls).records && h.prompted == AfterCalls(lv, g, calls).prompted
  {
    if calls != [] { LedgerIgnoresReward(lv, g, reward, done, calls[..|calls| - 1]); }
  }

  /** The calls of `n` turns. */
  function CallsOf(script: nat -> Turn, first: nat, n: nat): seq<ToolCall> {
    if n == 0 then [] else CallsOf(script, first, n - 1) + script(first + n - 1).calls
  }

  lemma {:induction false} CallsOfFirst(script: nat -> Turn, first: nat, n: nat)
    ensures CallsOf(script, first, n + 1) == script(first).calls + CallsOf(script, first + 1, n)
  {
    if n > 0 {
      CallsOfFirst(script, first, n - 1);
    } else {
      assert CallsOf(script, first, 0) == [];
    }
  }

  /** What a turn comes to: `rs` are the writes executed up to its text, `shown` what its calls showed, and the two
      flags say whether nudge and review are spent. */
  predicate ComesTo(cfg: Config, t: Turn, rs: seq<Record>, shown: seq<(real, bool)>, nudged: bool, reviewed: bool,
                    kind: Kind)
  {
    if t.text.None? then kind == Crashed
    else if Last((0.0, false), shown).1 then kind == DoneInTurn
    else
      var text := t.text.value;
      var unsupported := Claims(text) && ((rs != [] && !rs[|rs| - 1].ok) || forall r :: r in rs ==> !r.ok);
      && (kind == Nudged <==> cfg.verify && !nudged && unsupported)
      && (kind == Reviewed <==> cfg.review && !reviewed && Concludes(text) && kind != Nudged)
      && (kind == Responded(text, unsupported) <==> kind != Nudged && kind != Reviewed)
  }

  /** Of the observations of a turn, those that its calls showed. */
  function ShownByCalls(s: Step): seq<(real, bool)> {
    if Responds(s) && s.seen != [] then s.seen[..|s.seen| - 1] else s.seen
  }

  ghost predicate StepFits(cfg: Config, st: Loop, script: nat -> Turn, steps: seq<Step>, i: nat)
    requires i < |steps|
  {
    ComesTo(cfg, script(st.turns + i),
            AfterCalls(cfg.levers, st.g, CallsOf(script, st.turns, i + 1)).records, ShownByCalls(steps[i]),
            st.nudged || Before(steps, Nudged, i), st.reviewed || Before(steps, Reviewed, i), steps[i].kind)
  }

  ghost predicate StepsFit(cfg: Config, st: Loop, script: nat -> Turn, steps: seq<Step>) {
    forall i: nat :: i < |steps| ==> StepFits(cfg, st, script, steps, i)
  }

  lemma AdvanceComesTo(cfg: Config, st: Loop, t: Turn)
    requires !st.g.done
    ensures var s := Advance(cfg, st, t).0;
            ComesTo(cfg, t, AfterCalls(cfg.levers, st.g, t.calls).records, ShownByCalls(s), st.nudged, st.reviewed,
                    s.kind)
  {
    var s, shown := Advance(cfg, st, t).0, Shown(cfg.levers, st.g, t.calls);
    CallsShowLast(cfg.levers, st.g, t.calls);
    assert Last((st.g.reward, st.g.done), shown).1 == Last((0.0, false), shown).1;
    assert ShownByCalls(s) == shown;
  }

  lemma FirstFits(cfg: Config, st: Loop, script: nat -> Turn, rest: seq<Step>)
    requires !st.g.done
    ensures StepFits(cfg, st, script, [Advance(cfg, st, script(st.turns)).0] + rest, 0)
  {
    var t := script(st.turns);
    AdvanceComesTo(cfg, st, t);
    CallsOfFirst(script, st.turns, 0);
    assert CallsOf(script, st.turns, 1) == t.calls;
  }

  /** The ledger the turns after the first one start from. */
  lemma LedgerGoesOn(cfg: Config, st: Loop, script: nat -> Turn, next: Loop, n: nat)
    requires Advance(cfg, st, script(st.turns)).1 == Continues(next)
    ensures AfterCalls(cfg.levers, st.g, CallsOf(script, st.turns, n + 1)).records ==
            AfterCalls(cfg.levers, next.g, CallsOf(script, next.turns, n)).records
  {
    var t := script(st.turns);
    var g := AfterCalls(cfg.levers, st.g, t.calls);
    CallsOfFirst(script, st.turns, n);
    CallsConcat(cfg.levers, st.g, t.calls, CallsOf(script, st.turns + 1, n));
    LedgerIgnoresReward(cfg.levers, g, next.g.reward, next.g.done, CallsOf(script, st.turns + 1, n));
    assert next.g == g.(reward := next.g.reward, done := next.g.done);
  }

  /** And what is spent by then. */
  lemma SpentGoesOn(cfg: Config, st: Loop, t: Turn, next: Loop, rest: seq<Step>, i: nat)
    requires Advance(cfg, st, t).1 == Continues(next) && i <= |rest|
    ensures next.turns == st.turns + 1
    ensures var steps := [Advance(cfg, st, t).0] + rest;
            && (st.nudged || Before(steps, Nudged, i + 1)) == (next.nudged || Before(rest, Nudged, i))
            && (st.reviewed || Before(steps, Reviewed, i + 1)) == (next.reviewed || Before(rest, Reviewed, i))
  {
    var s := Advance(cfg, st, t).0;
    BeforeCons(s, rest, Nudged, i);
    BeforeCons(s, rest, Reviewed, i);
  }

  lemma LaterFits(cfg: Config, st: Loop, script: nat -> Turn, next: Loop, rest: seq<Step>, i: nat)
    requires i < |rest| && StepFits(cfg, next, script, rest, i)
    requires Advance(cfg, st, script(st.turns)).1 == Continues(next)
    ensures StepFits(cfg, st, script, [Advance(cfg, st, script(st.turns)).0] + rest, i + 1)
  {
    var s := Advance(cfg, st, script(st.turns)).0;
    LedgerGoesOn(cfg, st, script, next, i + 1);
    SpentGoesOn(cfg, st, script(st.turns), next, rest, i);
    SameFits(cfg, st, next, script, [s] + rest, rest, i);
  }

  lemma SameFits(cfg: Config, st: Loop, next: Loop, script: nat -> Turn, steps: seq<Step>, rest: seq<Step>, i: nat)
    requires i < |rest| && i + 1 < |steps| && steps[i + 1] == rest[i] && next.turns == st.turns + 1
    requires AfterCalls(cfg.levers, st.g, CallsOf(script, st.turns, i + 2)).records ==
             AfterCalls(cfg.levers, next.g, CallsOf(script, next.turns, i + 1)).records
    requires (st.nudged || Before(steps, Nudged, i + 1)) == (next.nudged || Before(rest, Nudged, i))
    requires (st.reviewed || Before(steps, Reviewed, i + 1)) == (next.reviewed || Before(rest, Reviewed, i))
    requires StepFits(cfg, next, script, rest, i)
    ensures StepFits(cfg, st, script, steps, i + 1)
  {
    assert script(st.turns + (i + 1)) == script(next.turns + i);
  }

  lemma AllLaterFit(cfg: Config, st: Loop, script: nat -> Turn, next: Loop, rest: seq<Step>)
    requires !st.g.done && StepsFit(cfg, next, script, rest)
    requires Advance(cfg, st, script(st.turns)).1 == Continues(next)
    ensures StepsFit(cfg, st, script, [Advance(cfg, st, script(st.turns)).0] + rest)
  {
    var steps := [Advance(cfg, st, script(st.turns)).0] + rest;
    forall i: nat | i < |steps|
      ensures StepFits(cfg, st, script, steps, i)
    {
      if i == 0 { FirstFits(cfg, st, script, rest); } else { LaterFits(cfg, st, script, next, rest, i - 1); }
    }
  }

  /** Every turn of an episode comes to what it should: a crash without text; the end of the episode when its calls
      showed the done flag; the nudge when the text claims a success that no executed write supports, once; the
      review when it concludes, once; and otherwise its text goes to the user. */
  lemma {:induction false} TurnsComeToTheirKind(cfg: Config, st: Loop, script: nat -> Turn, max: int)
    ensures StepsFit(cfg, st, script, Play(cfg, st, script, max).1)
    decreases max - st.turns
  {
    if !st.g.done && st.turns < max {
      var (s, progress) := Advance(cfg, st, script(st.turns));
      if progress.Continues? {
        TurnsComeToTheirKind(cfg, progress.next, script, max);
        AllLaterFit(cfg, st, script, progress.next, Play(cfg, progress.next, script, max).1);
      } else {
        FirstFits(cfg, st, script, []);
        assert [s] + [] == [s];
      }
    }
  }

  ghost predicate ClearedFirst(cfg: Config, steps: seq<Step>, nudged: bool, reviewed: bool) {
    forall i :: 0 <= i < |steps| && Responds(steps[i]) ==>
      && (cfg.verify && steps[i].kind.unsupported ==> nudged || Before(steps, Nudged, i))
      && (cfg.review && Concludes(steps[i].kind.text) ==> reviewed || Before(steps, Reviewed, i))
  }

  lemma ClearedFirstCons(cfg: Config, s: Step, rest: seq<Step>, nudged: bool, reviewed: bool)
    requires ClearedFirst(cfg, rest, nudged || s.kind == Nudged, reviewed || s.kind == Reviewed)
    requires Responds(s) ==>
               (cfg.verify && s.kind.unsupported ==> nudged) && (cfg.review && Concludes(s.kind.text) ==> reviewed)
    ensures ClearedFirst(cfg, [s] + rest, nudged, reviewed)
  {
    var steps := [s] + rest;
    forall i | 0 <= i < |steps| && Responds(steps[i])
      ensures cfg.verify && steps[i].kind.unsupported ==> nudged || Before(steps, Nudged, i)
      ensures cfg.review && Concludes(steps[i].kind.text) ==> reviewed || Before(steps, Reviewed, i)
    {
      if i > 0 {
        assert steps[i] == rest[i - 1];
        BeforeCons(s, rest, Nudged, i - 1);
        BeforeCons(s, rest, Reviewed, i - 1);
      }
    }
  }

  /** What reached the user was cleared first: an unsupported claim only after the nudge was spent, a
      conclusion only after the review was spent. */
  lemma {:induction false} NothingUnclearedReachesTheUser(cfg: Config, st: Loop, script: nat -> Turn, max: int)
    ensures ClearedFirst(cfg, Play(cfg, st, script, max).1, st.nudged, st.reviewed)
    decreases max - st.turns
  {
    if !st.g.done && st.turns < max {
      var (s, progress) := Advance(cfg, st, script(st.turns));
      if progress.Continues? {
        NothingUnclearedReachesTheUser(cfg, progress.next, script, max);
        ClearedFirstCons(cfg, s, Play(cfg, progress.next, script, max).1, st.nudged, st.reviewed);
      }
    }
  }

  function AllSeen(steps: seq<Step>): seq<(real, bool)> {
    if steps == [] then [] else steps[0].seen + AllSeen(steps[1..])
  }

  lemma LastConcat(first: (real, bool), a: seq<(real, bool)>, b: seq<(real, bool)>)
    ensures Last(first, a + b) == Last(Last(first, a), b)
  {
    if b == [] { assert a + b == a; }
  }

  /** A run that does not crash returns the last reward and done flag observed, from tools or responds alike. */
  lemma {:induction false} ResultIsLastObserved(cfg: Config, st: Loop, script: nat -> Turn, max: int)
    ensures var (r, steps) := Play(cfg, st, script, max);
            !r.infraError ==> (r.reward, r.done) == Last((st.g.reward, st.g.done), AllSeen(steps))
    decreases max - st.turns
  {
    if !st.g.done && st.turns < max {
      var t := script(st.turns);
      var (s, progress) := Advance(cfg, st, t);
      CallsShowLast(cfg.levers, st.g, t.calls);
      if progress.Continues? {
        var rest := Play(cfg, progress.next, script, max).1;
        ResultIsLastObserved(cfg, progress.next, script, max);
        LastConcat((st.g.reward, st.g.done), s.seen, AllSeen(rest));
        assert ([s] + rest)[1..] == rest;
      } else {
        assert AllSeen([s]) == s.seen;
      }
    }
  }

  /** Every success claim reads as a conclusion, so with both levers on a claim meets both checks. */
  lemma ClaimIsConclusion(text: string)
    requires Claims(text)
    ensures Concludes(text)
  {
    var m :| m in SUCCESS_MARKERS && Contains(LowerAll(text), m);
    assert m in CONCLUSION_MARKERS;
  }
}
