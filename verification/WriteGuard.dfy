/** The guarded tool step of the tau-bench driver: argument validation, the duplicate-write guard over an
    append-only ledger, one grounding prompt per write, and the environment step. A call never awaits, so
    each one is a single atomic step. */
module WriteGuard {

  const WRITE_PREFIXES := ["book_", "cancel_", "update_", "modify_", "return_", "exchange_", "send_"]

  /** A write's identity: tool name and canonical arguments. */
  datatype Fingerprint = Fingerprint(tool: string, args: string)
  datatype Record = Record(fp: Fingerprint, ok: bool)

  datatype Levers = Levers(validate: bool, dupGuard: bool, grounding: bool)
  datatype Reply = Raised | Stepped(reward: real, done: bool, observation: string)

  /** One tool call: what validation says of its arguments, and what the environment would reply. */
  datatype ToolCall = ToolCall(fp: Fingerprint, badArgs: bool, reply: Reply)

  datatype Outcome = Invalid | Blocked | Prompted | Ran(ok: bool)
  datatype Event = Event(fp: Fingerprint, outcome: Outcome)

  predicate IsWrite(tool: string) {
    exists p :: p in WRITE_PREFIXES && p <= tool
  }

  function Lower(c: char): char { if 'A' <= c <= 'Z' then c - 'A' + 'a' else c }

  /** The capitals, and nothing else, go to the letter 32 places on. */
  lemma LowerIs(c: char)
    ensures if c in "ABCDEFGHIJKLMNOPQRSTUVWXYZ" then Lower(c) as int == c as int + 32 else Lower(c) == c
  {
    var capitals := "ABCDEFGHIJKLMNOPQRSTUVWXYZ";
    assert forall i :: 0 <= i < |capitals| ==> capitals[i] as int == 'A' as int + i;
    if 'A' <= c <= 'Z' { assert capitals[c as int - 'A' as int] == c; }
  }

  /** ASCII whitespace, as Python strips it. */
  predicate IsSpace(c: char) { c in {' ', '\t', '\n', '\r', '\U{0B}', '\U{0C}'} || '\U{1C}' <= c <= '\U{1F}' }

  /** By their codes. */
  lemma SpacesAre(c: char)
    ensures IsSpace(c) <==> c as int in {9, 10, 11, 12, 13, 28, 29, 30, 31, 32}
  {
    var n := c as int;
    assert 28 <= n <= 31 <==> n == 28 || n == 29 || n == 30 || n == 31;
  }

  function Stripped(s: string): string {
    if s != "" && IsSpace(s[0]) then Stripped(s[1..]) else s
  }

  predicate LooksLikeError(observation: string) {
    var s := Stripped(observation);
    |s| >= 5 && [Lower(s[0]), Lower(s[1]), Lower(s[2]), Lower(s[3]), Lower(s[4])] == "error"
  }

  /** A tool writes if and only if its name is one of the prefixes and something behind it. */
  lemma WriteToolIff(tool: string)
    ensures IsWrite(tool) <==> exists p, n: nat :: p in WRITE_PREFIXES && n <= |tool| && p == tool[..n]
  {
    if IsWrite(tool) {
      var p :| p in WRITE_PREFIXES && p <= tool;
      assert p == tool[..|p|];
    }
  }

  /** At `n`, behind nothing but whitespace, the word "error" starts, in letters of either case. */
  predicate ErrorAt(s: string, n: nat) {
    && n + 5 <= |s| && (forall i :: 0 <= i < n ==> IsSpace(s[i]))
    && forall i :: 0 <= i < 5 ==> s[n + i] == "error"[i] || s[n + i] == "ERROR"[i]
  }

  lemma FiveLower(s: string)
    requires |s| >= 5
    ensures [Lower(s[0]), Lower(s[1]), Lower(s[2]), Lower(s[3]), Lower(s[4])] == "error" <==> ErrorAt(s, 0)
  {
    assert ErrorAt(s, 0) <==> forall i :: 0 <= i < 5 ==> Lower(s[i]) == "error"[i];
  }

  lemma NoSpaceAt(s: string, n: nat)
    requires ErrorAt(s, n)
    ensures !IsSpace(s[n])
  {
    var first := 0;
    assert s[n + first] == "error"[first] || s[n + first] == "ERROR"[first];
  }

  lemma {:induction false} ErrorTextIff(observation: string)
    ensures LooksLikeError(observation) <==> exists n: nat :: ErrorAt(observation, n)
  {
    var s := observation;
    if s != "" && IsSpace(s[0]) {
      ErrorTextIff(s[1..]);
      if LooksLikeError(s[1..]) {
        var n: nat :| ErrorAt(s[1..], n);
        assert ErrorAt(s, n + 1);
      }
      if n: nat :| ErrorAt(s, n) {
        NoSpaceAt(s, n);
        assert n > 0 && ErrorAt(s[1..], n - 1);
      }
    } else {
      if |s| >= 5 { FiveLower(s); }
      if n: nat :| ErrorAt(s, n) { assert n == 0; }
    }
  }

  predicate ReplyOk(r: Reply) { r.Stepped? && !LooksLikeError(r.observation) }

  // ---------------------------------------------------------------- the step as a state transition

  /** Ledger, fingerprints already prompted, and the last reward and done flag observed. */
  datatype Guard = Guard(records: seq<Record>, prompted: set<Fingerprint>, reward: real, done: bool)

  const START := Guard([], {}, 0.0, false)

  predicate Succeeded(records: seq<Record>, fp: Fingerprint) {
    Record(fp, true) in records
  }

  function OutcomeOf(lv: Levers, g: Guard, call: ToolCall): Outcome {
    var write := IsWrite(call.fp.tool);
    if lv.validate && call.badArgs then Invalid
    else if lv.dupGuard && write && Succeeded(g.records, call.fp) then Blocked
    else if lv.grounding && write && call.fp !in g.prompted then Prompted
    else Ran(ReplyOk(call.reply))
  }

  function Next(lv: Levers, g: Guard, call: ToolCall): Guard {
    match OutcomeOf(lv, g, call)
    case Invalid => g
    case Blocked => g
    case Prompted => g.(prompted := g.prompted + {call.fp})
    case Ran(ok) =>
      var observed := if call.reply.Stepped? then g.(reward := call.reply.reward, done := call.reply.done) else g;
      if IsWrite(call.fp.tool) then observed.(records := g.records + [Record(call.fp, ok)]) else observed
  }

  // ---------------------------------------------------------------- the step on shared objects

  class WriteLedger {
    var records: seq<Record>
    constructor ()
      ensures records == []
    {
      records := [];
    }

    method Append(fp: Fingerprint, ok: bool)
      modifies this
      ensures records == old(records) + [Record(fp, ok)]
    {
      records := records + [Record(fp, ok)];
    }

    method IsRepeatWrite(fp: Fingerprint) returns (repeat: bool)
      ensures repeat == Succeeded(records, fp)
    {
      for i := 0 to |records|
        invariant !Succeeded(records[..i], fp)
      {
        if records[i].fp == fp && records[i].ok { return true; }
      }
      assert records[..|records|] == records;
      repeat := false;
    }
  }

  class EpisodeState {
    var reward: real
    var done: bool
    constructor ()
      ensures reward == 0.0 && !done
    {
      reward, done := 0.0, false;
    }

    method Observe(reward: real, done: bool)
      modifies this
      ensures this.reward == reward && this.done == done
    {
      this.reward, this.done := reward, done;
    }
  }

  class ToolBelt {
    const levers: Levers
    const ledger: WriteLedger
    const state: EpisodeState
    var prompted: set<Fingerprint>

    constructor (levers: Levers, ledger: WriteLedger, state: EpisodeState)
      ensures this.levers == levers && this.ledger == ledger && this.state == state && prompted == {}
    {
      this.levers, this.ledger, this.state, prompted := levers, ledger, state, {};
    }

    ghost function Now(): Guard
      reads this, ledger, state
    {
      Guard(ledger.records, prompted, state.reward, state.done)
    }

    method Invoke(call: ToolCall) returns (outcome: Outcome)
      modifies this`prompted, ledger, state
      ensures outcome == OutcomeOf(levers, old(Now()), call)
      ensures Now() == Next(levers, old(Now()), call)
    {
      if levers.validate && call.badArgs { return Invalid; }
      var write := IsWrite(call.fp.tool);
      if levers.dupGuard && write {
        var repeat := ledger.IsRepeatWrite(call.fp);
        if repeat { return Blocked; }
      }
      if levers.grounding && write && call.fp !in prompted {
        prompted := prompted + {call.fp};
        return Prompted;
      }
      if call.reply.Raised? {
        if write { ledger.Append(call.fp, false); }
        return Ran(false);
      }
      state.Observe(call.reply.reward, call.reply.done);
      if write { ledger.Append(call.fp, !LooksLikeError(call.reply.observation)); }
      outcome := Ran(!LooksLikeError(call.reply.observation));
    }
  }

  // ---------------------------------------------------------------- whole runs

  function After(lv: Levers, calls: seq<ToolCall>): Guard {
    if calls == [] then START else Next(lv, After(lv, calls[..|calls| - 1]), calls[|calls| - 1])
  }

  function Log(lv: Levers, calls: seq<ToolCall>): (log: seq<Event>)
    ensures |log| == |calls|
  {
    if calls == [] then []
    else
      var init, c := calls[..|calls| - 1], calls[|calls| - 1];
      Log(lv, init) + [Event(c.fp, OutcomeOf(lv, After(lv, init), c))]
  }

  /** The writes that reached the environment, with how they came out. */
  function WritesOf(log: seq<Event>): seq<Record> {
    if log == [] then []
    else
      var e := log[|log| - 1];
      WritesOf(log[..|log| - 1]) + if e.outcome.Ran? && IsWrite(e.fp.tool) then [Record(e.fp, e.outcome.ok)] else []
  }

  /** The ledger is, in order, the log of the writes that reached the environment. */
  lemma {:induction false} LedgerIsWriteLog(lv: Levers, calls: seq<ToolCall>)
    ensures After(lv, calls).records == WritesOf(Log(lv, calls))
  {
    if calls != [] {
      LedgerIsWriteLog(lv, calls[..|calls| - 1]);
      var log := Log(lv, calls);
      assert log[..|log| - 1] == Log(lv, calls[..|calls| - 1]);
    }
  }

  /** No two records of one fingerprint unless the earlier one failed. */
  ghost predicate NothingFollowsSuccess(rs: seq<Record>) {
    forall i, j :: 0 <= i < j < |rs| && rs[i].fp == rs[j].fp ==> !rs[i].ok
  }

  lemma StepKeepsSuccessLast(lv: Levers, g: Guard, call: ToolCall)
    requires lv.dupGuard && NothingFollowsSuccess(g.records)
    ensures NothingFollowsSuccess(Next(lv, g, call).records)
  {
    var rs := Next(lv, g, call).records;
    if rs != g.records {
      assert !Succeeded(g.records, call.fp);
      forall i, j | 0 <= i < j < |rs| && rs[i].fp == rs[j].fp
        ensures !rs[i].ok
      {
        assert rs[i] == g.records[i];
        if j == |g.records| { assert rs[i] == Record(call.fp, rs[i].ok); } else { assert rs[j] == g.records[j]; }
      }
    }
  }

  /** With the duplicate guard on, over any run a write that succeeded is never executed again. */
  lemma {:induction false} NoWriteAfterItsSuccess(lv: Levers, calls: seq<ToolCall>)
    requires lv.dupGuard
    ensures NothingFollowsSuccess(After(lv, calls).records)
  {
    if calls != [] {
      NoWriteAfterItsSuccess(lv, calls[..|calls| - 1]);
      StepKeepsSuccessLast(lv, After(lv, calls[..|calls| - 1]), calls[|calls| - 1]);
    }
  }

  function Count(log: seq<Event>, e: Event): nat {
    if log == [] then 0 else Count(log[..|log| - 1], e) + if log[|log| - 1] == e then 1 else 0
  }

  function CountRan(log: seq<Event>, fp: Fingerprint): nat {
    Count(log, Event(fp, Ran(true))) + Count(log, Event(fp, Ran(false)))
  }

  /** Calls of this fingerprint that validation lets through. */
  function Validated(lv: Levers, calls: seq<ToolCall>, fp: Fingerprint): nat {
    if calls == [] then 0
    else
      var c := calls[|calls| - 1];
      Validated(lv, calls[..|calls| - 1], fp) + if c.fp == fp && !(lv.validate && c.badArgs) then 1 else 0
  }

  /** Every validated call of a fingerprint is exactly one of: a prompt, a blocked repeat, an execution. */
  lemma {:induction false} CallsSplit(lv: Levers, calls: seq<ToolCall>, fp: Fingerprint)
    ensures var log := Log(lv, calls);
            Validated(lv, calls, fp) ==
            Count(log, Event(fp, Prompted)) + Count(log, Event(fp, Blocked)) + CountRan(log, fp)
  {
    if calls != [] {
      CallsSplit(lv, calls[..|calls| - 1], fp);
      var log := Log(lv, calls);
      assert log[..|log| - 1] == Log(lv, calls[..|calls| - 1]);
    }
  }

  /** With the duplicate guard on, a fingerprint succeeds at most once over any run. */
  lemma {:induction false} SucceedsAtMostOnce(lv: Levers, calls: seq<ToolCall>, fp: Fingerprint)
    requires lv.dupGuard && IsWrite(fp.tool)
    ensures Count(Log(lv, calls), Event(fp, Ran(true))) == if Succeeded(After(lv, calls).records, fp) then 1 else 0
  {
    if calls != [] {
      var init := calls[..|calls| - 1];
      SucceedsAtMostOnce(lv, init, fp);
      var log := Log(lv, calls);
      assert log[..|log| - 1] == Log(lv, init);
    }
  }

  lemma StepPromptsOnce(lv: Levers, g: Guard, call: ToolCall, fp: Fingerprint)
    requires lv.grounding && IsWrite(fp.tool)
    requires Succeeded(g.records, fp) ==> fp in g.prompted
    ensures var g', out := Next(lv, g, call), OutcomeOf(lv, g, call);
            && (Succeeded(g'.records, fp) ==> fp in g'.prompted)
            && (fp in g'.prompted <==> fp in g.prompted || (call.fp == fp && !out.Invalid?))
            && (out.Invalid? <==> lv.validate && call.badArgs)
            && (call.fp == fp && out.Prompted? <==> fp !in g.prompted && fp in g'.prompted)
            && (call.fp == fp && out.Ran? ==> fp in g.prompted)
  {
  }

  /** With grounding on, over any run: a fingerprint that was ever called with valid arguments was prompted
      exactly once, and nothing else of it happened before that. */
  lemma {:induction false} PromptedExactlyOnce(lv: Levers, calls: seq<ToolCall>, fp: Fingerprint)
    requires lv.grounding && IsWrite(fp.tool)
    ensures var g, log := After(lv, calls), Log(lv, calls);
            && (Succeeded(g.records, fp) ==> fp in g.prompted)
            && (fp in g.prompted <==> Validated(lv, calls, fp) > 0)
            && Count(log, Event(fp, Prompted)) == (if Validated(lv, calls, fp) > 0 then 1 else 0)
  {
    if calls != [] {
      var init := calls[..|calls| - 1];
      PromptedExactlyOnce(lv, init, fp);
      StepPromptsOnce(lv, After(lv, init), calls[|calls| - 1], fp);
      var log := Log(lv, calls);
      assert log[..|log| - 1] == Log(lv, init);
    }
  }

  lemma {:induction false} CountedIsPresent(log: seq<Event>, e: Event)
    requires Count(log, e) > 0
    ensures e in log
  {
    if log[|log| - 1] != e { CountedIsPresent(log[..|log| - 1], e); }
  }

  lemma {:induction false} LogPrefix(lv: Levers, calls: seq<ToolCall>, n: nat)
    requires n <= |calls|
    ensures Log(lv, calls[..n]) == Log(lv, calls)[..n]
  {
    if n < |calls| {
      var init := calls[..|calls| - 1];
      LogPrefix(lv, init, n);
      assert init[..n] == calls[..n];
    } else {
      assert calls[..n] == calls;
    }
  }

  lemma LogAt(lv: Levers, calls: seq<ToolCall>, j: nat)
    requires j < |calls|
    ensures Log(lv, calls)[..j] == Log(lv, calls[..j])
    ensures Log(lv, calls)[j] == Event(calls[j].fp, OutcomeOf(lv, After(lv, calls[..j]), calls[j]))
    ensures After(lv, calls[..j + 1]) == Next(lv, After(lv, calls[..j]), calls[j])
  {
    LogPrefix(lv, calls, j);
    LogPrefix(lv, calls, j + 1);
    assert calls[..j + 1][..j] == calls[..j];
    assert Log(lv, calls)[..j + 1][j] == Log(lv, calls)[j];
  }

  lemma {:induction false} WritesAreLogged(log: seq<Event>, fp: Fingerprint)
    requires IsWrite(fp.tool)
    ensures Succeeded(WritesOf(log), fp) <==> Event(fp, Ran(true)) in log
  {
    if log != [] {
      var init, e := log[..|log| - 1], log[|log| - 1];
      WritesAreLogged(init, fp);
      assert log == init + [e];
    }
  }

  lemma {:induction false} PromptsAreLogged(lv: Levers, calls: seq<ToolCall>, fp: Fingerprint)
    ensures fp in After(lv, calls).prompted <==> Event(fp, Prompted) in Log(lv, calls)
  {
    if calls != [] {
      PromptsAreLogged(lv, calls[..|calls| - 1], fp);
      var log := Log(lv, calls);
      assert log == Log(lv, calls[..|calls| - 1]) + [log[|log| - 1]];
    }
  }

  /** What becomes of each call of a run, by the calls before it: bad arguments are turned away when validation is
      on; then a write that has succeeded before, when the guard is on; then a write that has not been prompted
      before is prompted, when grounding is on; and everything else runs. */
  lemma OutcomeByHistory(lv: Levers, calls: seq<ToolCall>, j: nat)
    requires j < |calls|
    ensures var c, before := calls[j], Log(lv, calls)[..j];
            var write := IsWrite(c.fp.tool);
            && Log(lv, calls)[j].fp == c.fp
            && Log(lv, calls)[j].outcome ==
               if lv.validate && c.badArgs then Invalid
               else if lv.dupGuard && write && Event(c.fp, Ran(true)) in before then Blocked
               else if lv.grounding && write && Event(c.fp, Prompted) !in before then Prompted
               else Ran(c.reply.Stepped? && !LooksLikeError(c.reply.observation))
  {
    LogAt(lv, calls, j);
    LedgerIsWriteLog(lv, calls[..j]);
    if IsWrite(calls[j].fp.tool) { WritesAreLogged(Log(lv, calls[..j]), calls[j].fp); }
    PromptsAreLogged(lv, calls[..j], calls[j].fp);
  }

  /** What each outcome leaves behind: a call turned away leaves everything as it was, a prompt only its mark, and
      an execution what the environment showed, with a record if it was a write. */
  lemma OutcomeLeaves(lv: Levers, calls: seq<ToolCall>, j: nat)
    requires j < |calls|
    ensures var c, was, now := calls[j], After(lv, calls[..j]), After(lv, calls[..j + 1]);
            match Log(lv, calls)[j].outcome
            case Invalid => now == was
            case Blocked => now == was
            case Prompted =>
              now.prompted == was.prompted + {c.fp} && now.records == was.records
              && now.reward == was.reward && now.done == was.done
            case Ran(ok) =>
              && now.prompted == was.prompted
              && now.records == (if IsWrite(c.fp.tool) then was.records + [Record(c.fp, ok)] else was.records)
              && (if c.reply.Stepped? then now.reward == c.reply.reward && now.done == c.reply.done
                  else now.reward == was.reward && now.done == was.done)
  {
    LogAt(lv, calls, j);
  }

  /** With grounding on, every executed write was preceded by its prompt, and by exactly one of them. */
  lemma ExecutionIsPreceded(lv: Levers, calls: seq<ToolCall>, j: nat)
    requires lv.grounding && j < |calls|
    requires Log(lv, calls)[j].outcome.Ran? && IsWrite(Log(lv, calls)[j].fp.tool)
    ensures var e := Event(Log(lv, calls)[j].fp, Prompted);
            e in Log(lv, calls)[..j] && Count(Log(lv, calls)[..j], e) == 1
  {
    var before, upto := calls[..j], calls[..j + 1];
    LogPrefix(lv, calls, j);
    LogPrefix(lv, calls, j + 1);
    assert upto[..j] == before;
    var fp := Log(lv, calls)[j].fp;
    assert Log(lv, calls)[..j + 1][j] == Log(lv, calls)[j];
    assert Log(lv, upto)[j] == Event(calls[j].fp, OutcomeOf(lv, After(lv, before), calls[j]));
    PromptedExactlyOnce(lv, before, fp);
    CountedIsPresent(Log(lv, before), Event(fp, Prompted));
  }

  /** With every lever on: validated calls of a write are one prompt, then failures and at most one success,
      then blocked repeats; so it was executed one time fewer than it was called and not blocked. */
  lemma AllLeversAccounting(lv: Levers, calls: seq<ToolCall>, fp: Fingerprint)
    requires lv.dupGuard && lv.grounding && IsWrite(fp.tool)
    requires Validated(lv, calls, fp) > 0
    ensures var log := Log(lv, calls);
            && CountRan(log, fp) == Validated(lv, calls, fp) - Count(log, Event(fp, Blocked)) - 1
            && Count(log, Event(fp, Ran(true))) <= 1
  {
    CallsSplit(lv, calls, fp);
    PromptedExactlyOnce(lv, calls, fp);
    SucceedsAtMostOnce(lv, calls, fp);
  }

  lemma {:induction false} PresentIsCounted(log: seq<Event>, e: Event)
    requires e in log
    ensures Count(log, e) > 0
  {
    if log[|log| - 1] != e { PresentIsCounted(log[..|log| - 1], e); }
  }

  /** With the duplicate guard on, over any run: after the success of a write every later call of it is turned
      away, as invalid or as a repeat. */
  lemma BlockedForeverAfterSuccess(lv: Levers, calls: seq<ToolCall>, i: nat, j: nat)
    requires lv.dupGuard && i < j < |calls| && IsWrite(calls[i].fp.tool)
    requires Log(lv, calls)[i] == Event(calls[i].fp, Ran(true)) && calls[j].fp == calls[i].fp
    ensures Log(lv, calls)[j].outcome.Invalid? || Log(lv, calls)[j].outcome.Blocked?
  {
    var before, upto, e := calls[..j], calls[..j + 1], Event(calls[i].fp, Ran(true));
    LogPrefix(lv, calls, j);
    LogPrefix(lv, calls, j + 1);
    assert upto[..j] == before;
    assert Log(lv, before)[i] == e;
    PresentIsCounted(Log(lv, before), e);
    SucceedsAtMostOnce(lv, before, calls[i].fp);
    assert Log(lv, calls)[..j + 1][j] == Log(lv, calls)[j];
  }
}
