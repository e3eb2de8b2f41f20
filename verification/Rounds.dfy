/** Rounds of strategy messages and the two recovery strategies: collapse-drain deletes whole middle
    rounds, reactive-compact keeps a summary and the last message. */
module Rounds {
  import opened Basics
  import opened Transcript
  import TailTrim
  import opened Repair

  function Flatten<T>(rs: seq<seq<T>>): seq<T> {
    if rs == [] then [] else Flatten(rs[..|rs| - 1]) + rs[|rs| - 1]
  }

  lemma {:induction false} FlattenConcat<T>(a: seq<seq<T>>, b: seq<seq<T>>)
    ensures Flatten(a + b) == Flatten(a) + Flatten(b)
  {
    if b == [] {
      assert a + b == a;
    } else {
      FlattenConcat(a, b[..|b| - 1]);
      assert (a + b)[..|a + b| - 1] == a + b[..|b| - 1];
    }
  }

  /** Rounds are cut at every starter message. */
  function Partition(ms: seq<Msg>): seq<seq<Msg>> {
    if ms == [] then [] else Extended(Partition(ms[..|ms| - 1]), ms[|ms| - 1])
  }

  function Extended(rs: seq<seq<Msg>>, m: Msg): seq<seq<Msg>> {
    if rs == [] || m.role == Starter then rs + [[m]]
    else rs[..|rs| - 1] + [rs[|rs| - 1] + [m]]
  }

  /** The rounds tile the messages, and a starter is exactly what opens a later round. */
  ghost predicate AreRounds(rs: seq<seq<Msg>>, ms: seq<Msg>) {
    Flatten(rs) == ms && OpenWithStarters(rs)
  }

  ghost predicate OpenWithStarters(rs: seq<seq<Msg>>) {
    && (forall i :: 0 <= i < |rs| ==> rs[i] != [])
    && (forall i :: 0 < i < |rs| ==> rs[i] != [] && rs[i][0].role == Starter)
    && (forall i, k :: 0 <= i < |rs| && 0 < k < |rs[i]| ==> rs[i][k].role != Starter)
  }

  lemma ExtendedFlatten(rs: seq<seq<Msg>>, m: Msg)
    ensures Flatten(Extended(rs, m)) == Flatten(rs) + [m]
  {
    var out: seq<seq<Msg>> := Extended(rs, m);
    if rs == [] || m.role == Starter {
      assert out[..|out| - 1] == rs;
    } else {
      assert out[..|out| - 1] == rs[..|rs| - 1];
    }
  }

  lemma {:induction false} PartitionIsRounds(ms: seq<Msg>)
    ensures AreRounds(Partition(ms), ms)
  {
    if ms != [] {
      var init, m := ms[..|ms| - 1], ms[|ms| - 1];
      PartitionIsRounds(init);
      ExtendedFlatten(Partition(init), m);
      ExtendedKeepsStarters(Partition(init), m);
      assert ms == init + [m];
    }
  }

  lemma ExtendedKeepsStarters(rs: seq<seq<Msg>>, m: Msg)
    requires OpenWithStarters(rs)
    ensures OpenWithStarters(Extended(rs, m))
  {
    var out: seq<seq<Msg>> := Extended(rs, m);
    forall i: nat | i < |out|
      ensures out[i] != []
      ensures 0 < i ==> out[i][0].role == Starter
      ensures forall k :: 0 < k < |out[i]| ==> out[i][k].role != Starter
    {
      if i < |out| - 1 {
        assert out[i] == rs[i];
      } else if !(rs == [] || m.role == Starter) {
        var last := rs[|rs| - 1];
        assert out[i] == last + [m];
        assert forall k :: 0 < k < |last| ==> out[i][k] == last[k];
      }
    }
  }

  method PartitionIntoRounds(ms: seq<Msg>) returns (rounds: seq<seq<Msg>>)
    ensures rounds == Partition(ms)
  {
    rounds := [];
    var current: seq<Msg> := [];
    for i := 0 to |ms|
      invariant Partition(ms[..i]) == if current == [] then rounds else rounds + [current]
      invariant current == [] ==> rounds == []
    {
      assert ms[..i + 1][..i] == ms[..i];
      ghost var before := Partition(ms[..i]);
      if ms[i].role == Starter && current != [] {
        rounds := rounds + [current];
        current := [];
        assert before == rounds;
      } else if current != [] {
        assert before[..|before| - 1] == rounds && before[|before| - 1] == current;
      }
      assert current == [] ==> current + [ms[i]] == [ms[i]];
      current := current + [ms[i]];
      assert Partition(ms[..i + 1]) == Extended(before, ms[i]);
    }
    assert ms[..|ms|] == ms;
    if current != [] { rounds := rounds + [current]; }
  }

  // ---------------------------------------------------------------- where rounds open

  lemma StarterIsUserTurn(c: Content)
    ensures RoleOf(c) == Starter <==> UserTurn(c)
  {
  }

  /** On contents: the rounds tile the history, every round but the first opens with a user turn, and no user turn
      stands inside a round. */
  lemma RoundsOpenAtUserTurns(cs: seq<Content>, render: Content -> string)
    ensures var rs := Partition(ContentsToMsgs(cs, render));
            && Rebuilt(Flatten(rs), cs) == cs
            && (forall i :: 0 <= i < |rs| ==> rs[i] != [])
            && (forall i :: 0 < i < |rs| ==> UserTurn(Rebuilt(rs[i], cs)[0]))
            && (forall i, k :: 0 <= i < |rs| && 0 < k < |rs[i]| ==> !UserTurn(Rebuilt(rs[i], cs)[k]))
  {
    var ms := ContentsToMsgs(cs, render);
    var rs := Partition(ms);
    PartitionIsRounds(ms);
    MessagesRebuild(cs, render);
    forall i: nat, k: nat | i < |rs| && k < |rs[i]|
      ensures UserTurn(Rebuilt(rs[i], cs)[k]) <==> rs[i][k].role == Starter
    {
      RoundMessagesAreOriginal(rs, i, k);
      var at :| 0 <= at < |ms| && ms[at] == rs[i][k];
      StarterIsUserTurn(cs[at]);
    }
  }

  function UserTurns(cs: seq<Content>): nat {
    if cs == [] then 0 else UserTurns(cs[..|cs| - 1]) + if UserTurn(cs[|cs| - 1]) then 1 else 0
  }

  lemma {:induction false} UserTurnsConcat(a: seq<Content>, b: seq<Content>)
    ensures UserTurns(a + b) == UserTurns(a) + UserTurns(b)
  {
    if b == [] {
      assert a + b == a;
    } else {
      UserTurnsConcat(a, b[..|b| - 1]);
      assert (a + b)[..|a + b| - 1] == a + b[..|b| - 1];
    }
  }

  /** There is one round for the first content and one for each later user turn. */
  lemma {:induction false} RoundsAreCounted(cs: seq<Content>, render: Content -> string)
    requires cs != []
    ensures |Partition(ContentsToMsgs(cs, render))| == 1 + UserTurns(cs[1..])
  {
    var init, last, ms := cs[..|cs| - 1], cs[|cs| - 1], ContentsToMsgs(cs, render);
    assert ms[..|cs| - 1] == ContentsToMsgs(init, render);
    StarterIsUserTurn(last);
    if init == [] {
      assert Partition(ms[..0]) == [];
    } else {
      RoundsAreCounted(init, render);
      assert cs[1..] == init[1..] + [last];
      assert cs[1..][..|cs| - 2] == init[1..];
    }
  }

  // ---------------------------------------------------------------- whole rounds are closed

  predicate AnswersCall(c: Content, call: Part) {
    exists r :: r in c.parts && r.Response? && Answers(call, r)
  }

  /** Every call leads to its own response: no tool cycle is left open. */
  ghost predicate CallsAnswered(cs: seq<Content>) {
    forall i, p :: 0 <= i < |cs| && p in cs[i].parts && p.Call? ==>
      exists j :: LeadsTo(cs, i, j) && AnswersCall(cs[j], p)
  }

  /** No orphan response and no dangling call. */
  ghost predicate ClosedCycles(cs: seq<Content>) {
    Chained(cs) && CallsAnswered(cs)
  }

  /** Cutting a closed history where a round starts leaves two closed halves. */
  lemma ClosedSplit(a: seq<Content>, b: seq<Content>)
    requires ClosedCycles(a + b)
    requires b != [] && !HasResponse(b[0])
    ensures ClosedCycles(a) && ClosedCycles(b)
  {
    var ab := a + b;
    assert forall m :: 0 <= m < |a| ==> ab[m] == a[m];
    assert forall m :: 0 <= m < |b| ==> ab[|a| + m] == b[m];
    assert b == ab[|a|..];
    TailTrim.CleanCutKeepsChains(ab, |a|);
    forall j, r | 0 <= j < |a| && Demands(a[j], r)
      ensures exists i :: LeadsTo(a, i, j) && HoldsCallFor(a[i], r)
    {
      var i :| LeadsTo(ab, i, j) && HoldsCallFor(ab[i], r);
      assert LeadsTo(a, i, j);
    }
    forall i, p | 0 <= i < |a| && p in a[i].parts && p.Call?
      ensures exists j :: LeadsTo(a, i, j) && AnswersCall(a[j], p)
    {
      var j :| LeadsTo(ab, i, j) && AnswersCall(ab[j], p);
      assert j < |a|;
      assert LeadsTo(a, i, j);
    }
    forall i, p | 0 <= i < |b| && p in b[i].parts && p.Call?
      ensures exists j :: LeadsTo(b, i, j) && AnswersCall(b[j], p)
    {
      var j :| LeadsTo(ab, |a| + i, j) && AnswersCall(ab[j], p);
      assert LeadsTo(b, i, j - |a|);
    }
  }

  lemma {:induction false} RebuiltConcat(a: seq<Msg>, b: seq<Msg>, original: seq<Content>)
    ensures Rebuilt(a + b, original) == Rebuilt(a, original) + Rebuilt(b, original)
  {
  }

  /** Each round of a closed history is closed on its own. */
  lemma {:induction false} EachRoundIsClosed(rs: seq<seq<Msg>>, original: seq<Content>)
    requires ClosedCycles(Rebuilt(Flatten(rs), original))
    requires forall i :: 0 < i < |rs| ==> rs[i] != [] && !HasResponse(Materialized(rs[i][0], original))
    ensures forall rd :: rd in rs ==> ClosedCycles(Rebuilt(rd, original))
  {
    if |rs| > 0 {
      var front, last := rs[..|rs| - 1], rs[|rs| - 1];
      var a, b := Rebuilt(Flatten(front), original), Rebuilt(last, original);
      RebuiltConcat(Flatten(front), last, original);
      if |rs| == 1 {
        assert a + b == b;
        assert rs == [last];
      } else {
        assert b[0] == Materialized(last[0], original);
        ClosedSplit(a, b);
        EachRoundIsClosed(front, original);
        assert rs == front + [last];
      }
    }
  }

  // ---------------------------------------------------------------- selections of whole rounds

  ghost predicate CallsHaveResults(cs: seq<Content>) {
    forall c, p :: c in cs && p in c.parts && p.Call? ==> exists d :: d in cs && AnswersCall(d, p)
  }

  /** No orphan response and no dangling call. */
  ghost predicate Clean(cs: seq<Content>) {
    OrphanFree(cs) && CallsHaveResults(cs)
  }

  lemma CleanConcat(a: seq<Content>, b: seq<Content>)
    requires Clean(a) && Clean(b)
    ensures Clean(a + b)
  {
    var ab := a + b;
    forall c, r | c in ab && Demands(c, r)
      ensures Answered(ab, r)
    {
      if c in a { AnsweredMonotone(a, ab, r); } else { AnsweredMonotone(b, ab, r); }
    }
    forall c, p | c in ab && p in c.parts && p.Call?
      ensures exists d :: d in ab && AnswersCall(d, p)
    {
      var d :| (d in a || d in b) && AnswersCall(d, p);
      assert d in ab;
    }
  }

  lemma ClosedIsClean(cs: seq<Content>)
    requires ClosedCycles(cs)
    ensures Clean(cs)
  {
    TailTrim.ChainedIsPaired(cs);
    PairedIsOrphanFree(cs);
    forall c, p | c in cs && p in c.parts && p.Call?
      ensures exists d :: d in cs && AnswersCall(d, p)
    {
      var i :| 0 <= i < |cs| && cs[i] == c;
      var j :| LeadsTo(cs, i, j) && AnswersCall(cs[j], p);
      assert cs[j] in cs;
    }
  }

  /** Each response shares a round with its call, and each call with its response. */
  ghost predicate RoundsAreWhole(cs: seq<Content>, render: Content -> string) {
    forall rd :: rd in Partition(ContentsToMsgs(cs, render)) ==> Clean(Rebuilt(rd, cs))
  }

  ghost predicate SelectsRounds(chosen: seq<seq<Msg>>, cs: seq<Content>, render: Content -> string) {
    forall rd :: rd in chosen ==> rd in Partition(ContentsToMsgs(cs, render))
  }

  lemma {:induction false} SelectionIsClean(cs: seq<Content>, render: Content -> string, chosen: seq<seq<Msg>>)
    requires RoundsAreWhole(cs, render) && SelectsRounds(chosen, cs, render)
    ensures Clean(Rebuilt(Flatten(chosen), cs))
  {
    if chosen != [] {
      var front, last := chosen[..|chosen| - 1], chosen[|chosen| - 1];
      assert chosen == front + [last];
      SelectionIsClean(cs, render, front);
      RebuiltConcat(Flatten(front), last, cs);
      CleanConcat(Rebuilt(Flatten(front), cs), Rebuilt(last, cs));
    }
  }

  /** The exact condition: every selection of whole rounds leaves neither an orphan response nor a dangling call
      if and only if each response shares a round with its call and each call with its response. */
  lemma EverySelectionCleanIff(cs: seq<Content>, render: Content -> string)
    ensures (forall chosen :: SelectsRounds(chosen, cs, render) ==> Clean(Rebuilt(Flatten(chosen), cs))) <==>
            RoundsAreWhole(cs, render)
  {
    if RoundsAreWhole(cs, render) {
      forall chosen | SelectsRounds(chosen, cs, render)
        ensures Clean(Rebuilt(Flatten(chosen), cs))
      {
        SelectionIsClean(cs, render, chosen);
      }
    }
    if forall chosen :: SelectsRounds(chosen, cs, render) ==> Clean(Rebuilt(Flatten(chosen), cs)) {
      forall rd | rd in Partition(ContentsToMsgs(cs, render))
        ensures Clean(Rebuilt(rd, cs))
      {
        assert SelectsRounds([rd], cs, render);
        assert [rd][..0] == [] && Flatten([rd]) == Flatten([]) + rd == rd;
      }
    }
  }

  /** On such a history the repair that follows a selection has nothing to drop. */
  lemma SelectionNeedsNoRepair(cs: seq<Content>, render: Content -> string, chosen: seq<seq<Msg>>)
    requires RoundsAreWhole(cs, render) && SelectsRounds(chosen, cs, render)
    ensures Repaired(Rebuilt(Flatten(chosen), cs)) == Rebuilt(Flatten(chosen), cs)
  {
    SelectionIsClean(cs, render, chosen);
    RepairIsIdentityIff(Rebuilt(Flatten(chosen), cs));
  }

  /** A history without open tool cycles is one: the rounds never cut a cycle. */
  lemma ClosedHistoryHasWholeRounds(cs: seq<Content>, render: Content -> string)
    requires ClosedCycles(cs)
    ensures RoundsAreWhole(cs, render)
  {
    var ms := ContentsToMsgs(cs, render);
    var rs := Partition(ms);
    PartitionIsRounds(ms);
    MessagesRebuild(cs, render);
    forall i | 0 < i < |rs|
      ensures !HasResponse(Materialized(rs[i][0], cs))
    {
      RoundMessagesAreOriginal(rs, i, 0);
      var m := rs[i][0];
      var at :| 0 <= at < |ms| && ms[at] == m;
      assert Materialized(m, cs) == cs[at];
    }
    EachRoundIsClosed(rs, cs);
    forall rd | rd in rs { ClosedIsClean(Rebuilt(rd, cs)); }
  }

  lemma {:induction false} RoundMessagesAreOriginal<T>(rs: seq<seq<T>>, i: nat, k: nat)
    requires i < |rs| && k < |rs[i]|
    ensures rs[i][k] in Flatten(rs)
  {
    if i < |rs| - 1 { RoundMessagesAreOriginal(rs[..|rs| - 1], i, k); }
  }

  // ---------------------------------------------------------------- collapse-drain

  function Ceil(x: real): int { -((-x).Floor) }

  /** How many middle rounds go: the configured fraction rounded up, at least one. */
  function DropCount(rounds: nat, fraction: real): (n: nat)
    requires rounds > 2
    ensures 1 <= n <= rounds - 2
    ensures n == rounds - 2 || rounds as real * fraction <= n as real
    ensures n == 1 || (n - 1) as real < rounds as real * fraction
  {
    var wanted := Ceil(rounds as real * fraction);
    if wanted < 1 then 1 else if wanted < rounds - 2 then wanted else rounds - 2
  }

  function KeptRounds(rs: seq<seq<Msg>>, n: nat): seq<seq<Msg>>
    requires n + 2 <= |rs|
  {
    [rs[0]] + rs[1 + n..]
  }

  method Joined(rs: seq<seq<Msg>>) returns (out: seq<Msg>)
    ensures out == Flatten(rs)
  {
    out := [];
    for i := 0 to |rs|
      invariant out == Flatten(rs[..i])
    {
      assert rs[..i + 1][..i] == rs[..i];
      out := out + rs[i];
    }
    assert rs[..|rs|] == rs;
  }

  /** Drops the oldest middle rounds; `None` when there is no middle. */
  method CollapseDrain(ms: seq<Msg>, fraction: real) returns (out: Option<seq<Msg>>)
    ensures var rs := Partition(ms);
            out == if |rs| <= 2 then None
                   else Some(Flatten(KeptRounds(rs, DropCount(|rs|, fraction))))
  {
    var rounds := PartitionIntoRounds(ms);
    if |rounds| <= 2 { return None; }
    var droppable := rounds[1..|rounds| - 1];
    var n := DropCount(|rounds|, fraction);
    var keptRounds := [rounds[0]] + droppable[n..] + [rounds[|rounds| - 1]];
    assert keptRounds == KeptRounds(rounds, n);
    var modified := Joined(keptRounds);
    return Some(modified);
  }

  lemma DroppingRoundsShortens(rs: seq<seq<Msg>>, n: nat)
    requires 1 <= n <= |rs| - 2
    requires forall i :: 0 <= i < |rs| ==> rs[i] != []
    ensures |Flatten(KeptRounds(rs, n))| < |Flatten(rs)|
  {
    var gone, rest := rs[1..1 + n], rs[1 + n..];
    assert rs == [rs[0]] + (gone + rest);
    FlattenConcat([rs[0]], gone + rest);
    FlattenConcat(gone, rest);
    FlattenConcat([rs[0]], rest);
    assert rs[1] in gone && gone[0] == rs[1];
    RoundMessagesAreOriginal(gone, 0, 0);
  }

  /** When rounds are whole collapse-drain frees whole rounds, keeps the first and the last, and leaves the
      repair nothing to do: no orphan response, no dangling call. */
  lemma CollapseDrainIsClean(cs: seq<Content>, render: Content -> string, fraction: real)
    requires RoundsAreWhole(cs, render)
    requires |Partition(ContentsToMsgs(cs, render))| > 2
    ensures var rs := Partition(ContentsToMsgs(cs, render));
            var kept := KeptRounds(rs, DropCount(|rs|, fraction));
            var rebuilt := Rebuilt(Flatten(kept), cs);
            && kept[0] == rs[0] && kept[|kept| - 1] == rs[|rs| - 1]
            && Clean(rebuilt) && Repaired(rebuilt) == rebuilt
            && |rebuilt| < |cs|
  {
    var ms := ContentsToMsgs(cs, render);
    var rs := Partition(ms);
    var n := DropCount(|rs|, fraction);
    PartitionIsRounds(ms);
    SelectionIsClean(cs, render, KeptRounds(rs, n));
    SelectionNeedsNoRepair(cs, render, KeptRounds(rs, n));
    DroppingRoundsShortens(rs, n);
  }

  // ---------------------------------------------------------------- reactive-compact

  /** `summary` is what the summarizer returned, `None` when it raised. */
  function ReactiveCompact(ms: seq<Msg>, summary: Option<string>): Option<seq<Msg>> {
    if |ms| < 2 || summary.None? then None
    else Some([Msg(Starter, "[Conversation Summary]\n" + summary.value, None), ms[|ms| - 1]])
  }

  /** The content that carries the tier-7 summary. */
  function CompactHead(summary: string): Content {
    Content(User, [Text("[Conversation Summary]\n" + summary)])
  }

  /** It is a user turn, and the summary is what its text says after the first line. */
  lemma CompactHeadSays(summary: string)
    ensures var c := CompactHead(summary);
            UserTurn(c) && |c.parts| == 1 && c.parts[0].Text? && TailTrim.AfterFirstLine(c.parts[0].text) == summary
  {
    TailTrim.AfterFirstLineOf("[Conversation Summary]", summary);
    assert "[Conversation Summary]\n" + summary == "[Conversation Summary]" + "\n" + summary;
  }

  /** After compaction only the last content can accompany the summary, and it is lost too exactly when
      it answers a call that it does not make itself: mid tool cycle, the pending result goes. */
  lemma CompactLosesPendingResultIff(cs: seq<Content>, render: Content -> string, summary: string)
    requires |cs| >= 2
    ensures var msgs := ReactiveCompact(ContentsToMsgs(cs, render), Some(summary)).value;
            var head, last := CompactHead(summary), cs[|cs| - 1];
            Repaired(Rebuilt(msgs, cs)) ==
            if exists r :: Demands(last, r) && !HoldsCallFor(last, r) then [head] else [head, last]
  {
    var ms := ContentsToMsgs(cs, render);
    var msgs := ReactiveCompact(ms, Some(summary)).value;
    var head, last := CompactHead(summary), cs[|cs| - 1];
    var rebuilt := Rebuilt(msgs, cs);
    assert rebuilt == [head, last];
    assert Survives(head, rebuilt);
    forall r | Demands(last, r)
      ensures Answered(rebuilt, r) <==> HoldsCallFor(last, r)
    {
      if HoldsCallFor(last, r) { assert last in rebuilt; }
    }
    assert Survives(last, rebuilt) <==> !exists r :: Demands(last, r) && !HoldsCallFor(last, r);
    assert rebuilt[..1] == [head] && [head][..0] == [];
    assert Surviving([head], rebuilt) == [head];
  }
}
