/** What becomes of the user's last turn in one model call: through the trim, and through each tier of the ladder
    when the gate opens. */
module LadderTurn {
  import opened Basics
  import opened Transcript
  import opened TailTrim
  import opened Repair
  import opened Rounds
  import opened Escalation
  import opened SessionBreakers
  import opened CompactionTurn
  import opened CompactionPlugin

  /** The repair never takes out a user turn. */
  lemma {:induction false} RepairKeepsActiveTask(cs: seq<Content>, whole: seq<Content>)
    ensures ActiveTask(Surviving(cs, whole)) == ActiveTask(cs)
  {
    if cs != [] {
      var init, last := cs[..|cs| - 1], cs[|cs| - 1];
      RepairKeepsActiveTask(init, whole);
      ActiveTaskConcat(init, [last]);
      assert cs == init + [last];
      if Survives(last, whole) {
        ActiveTaskConcat(Surviving(init, whole), [last]);
      } else {
        assert Surviving(init, whole) + [] == Surviving(init, whole);
        OnlyGenuine(last);
      }
    }
  }

  lemma OnlyGenuine(c: Content)
    ensures ActiveTask([c]) == if GenuineUserText(c) then Some(c) else None
  {
    assert LastUserText([c], 0) == None;
  }

  lemma {:induction false} TailHasTurnIff(cs: seq<Content>, i: nat, k: nat)
    requires k <= |cs| && LastUserText(cs, |cs|) == Some(i)
    ensures ActiveTask(cs[k..]).Some? <==> i >= k
  {
    var tail := cs[k..];
    assert forall m :: k <= m < |cs| ==> cs[m] == tail[m - k];
    assert forall m :: 0 <= m < |tail| ==> tail[m] == cs[k + m];
  }

  lemma {:induction false} SplitActiveTask(cs: seq<Content>, i: nat, k: nat)
    requires k <= |cs| && LastUserText(cs, |cs|) == Some(i)
    ensures ActiveTask(cs[k..]).Some? <==> i >= k
    ensures ActiveTask(cs) == if i >= k then ActiveTask(cs[k..]) else ActiveTask(cs[..k])
  {
    TailHasTurnIff(cs, i, k);
    TakeAndDrop(cs, k);
    ActiveTaskConcat(cs[..k], cs[k..]);
  }

  lemma NoTurnInSides(cs: seq<Content>, a: nat, b: nat)
    requires a <= |cs| && b <= |cs| && ActiveTask(cs) == None
    ensures ActiveTask(cs[..a]) == None && ActiveTask(cs[b..]) == None
  {
    TakeAndDrop(cs, a);
    ActiveTaskConcat(cs[..a], cs[a..]);
    TakeAndDrop(cs, b);
    ActiveTaskConcat(cs[..b], cs[b..]);
  }

  // ---------------------------------------------------------------- tier 6

  /** Where tier 6 cuts: the first round stays, and what follows up to a later round goes. */
  function DrainCut(cs: seq<Content>, render: Content -> string): (nat, nat)
    requires DrainAnswer(cs, render).Some?
  {
    var rs := Partition(ContentsToMsgs(cs, render));
    (|rs[0]|, |Flatten(rs[..1 + DropCount(|rs|, MAX_COLLAPSE_FRACTION)])|)
  }

  lemma FlattenOne<T>(r: seq<T>)
    ensures Flatten([r]) == r
  {
    assert [r][..0] == [];
  }

  lemma SplitRounds(rs: seq<seq<Msg>>, n: nat)
    requires n + 2 <= |rs|
    ensures Flatten(rs[..1 + n]) == rs[0] + Flatten(rs[1..1 + n])
    ensures Flatten(rs) == Flatten(rs[..1 + n]) + Flatten(rs[1 + n..])
    ensures Flatten(KeptRounds(rs, n)) == rs[0] + Flatten(rs[1 + n..])
  {
    FlattenOne(rs[0]);
    assert rs[..1 + n] == [rs[0]] + rs[1..1 + n];
    FlattenConcat([rs[0]], rs[1..1 + n]);
    TakeAndDrop(rs, 1 + n);
    FlattenConcat(rs[..1 + n], rs[1 + n..]);
    FlattenConcat([rs[0]], rs[1 + n..]);
  }

  lemma CutOfThree(first: seq<Msg>, gone: seq<Msg>, rest: seq<Msg>, cs: seq<Content>)
    requires Rebuilt(first + gone + rest, cs) == cs
    ensures |first| + |gone| + |rest| == |cs|
    ensures cs[..|first|] == Rebuilt(first, cs) && cs[|first|..|first| + |gone|] == Rebuilt(gone, cs)
    ensures cs[|first| + |gone|..] == Rebuilt(rest, cs)
    ensures Rebuilt(first + rest, cs) == cs[..|first|] + cs[|first| + |gone|..]
  {
    RebuiltConcat(first + gone, rest, cs);
    RebuiltConcat(first, gone, cs);
    RebuiltConcat(first, rest, cs);
    var x, y, z := Rebuilt(first, cs), Rebuilt(gone, cs), Rebuilt(rest, cs);
    assert cs == x + y + z;
    assert cs[..|x|] == x && cs[|x| + |y|..] == z;
  }

  lemma SomeMessage(rs: seq<seq<Msg>>)
    requires rs != [] && rs[0] != []
    ensures Flatten(rs) != []
  {
    RoundMessagesAreOriginal(rs, 0, 0);
  }

  /** Leaving out `n` rounds behind the first one leaves out one slice of the contents. */
  lemma KeptIsCut(rs: seq<seq<Msg>>, n: nat, cs: seq<Content>)
    requires 1 <= n && n + 2 <= |rs| && rs[0] != [] && rs[1] != [] && rs[1 + n] != []
    requires Rebuilt(Flatten(rs), cs) == cs
    ensures var a, b := |rs[0]|, |Flatten(rs[..1 + n])|;
            && 0 < a < b < |cs| && Rebuilt(Flatten(KeptRounds(rs, n)), cs) == cs[..a] + cs[b..]
            && cs[..a] == Rebuilt(rs[0], cs) && cs[a..b] == Rebuilt(Flatten(rs[1..1 + n]), cs)
            && cs[b..] == Rebuilt(Flatten(rs[1 + n..]), cs)
  {
    SplitRounds(rs, n);
    CutOfThree(rs[0], Flatten(rs[1..1 + n]), Flatten(rs[1 + n..]), cs);
    SomeMessage(rs[1..1 + n]);
    SomeMessage(rs[1 + n..]);
  }

  lemma RoundsOfHistory(cs: seq<Content>, render: Content -> string)
    ensures var rs := Partition(ContentsToMsgs(cs, render));
            Rebuilt(Flatten(rs), cs) == cs && forall i :: 0 <= i < |rs| ==> rs[i] != []
  {
    PartitionIsRounds(ContentsToMsgs(cs, render));
    MessagesRebuild(cs, render);
  }

  lemma DrainKept(cs: seq<Content>, render: Content -> string)
    requires DrainAnswer(cs, render).Some?
    ensures var rs := Partition(ContentsToMsgs(cs, render));
            && |rs| > 2
            && DrainAnswer(cs, render) == Some(Flatten(KeptRounds(rs, DropCount(|rs|, 0.2))))
            && DrainCut(cs, render) == (|rs[0]|, |Flatten(rs[..1 + DropCount(|rs|, 0.2)])|)
  {
  }

  /** Tier 6 takes one slice out of the middle and repairs the rest. */
  lemma DrainIsCut(cs: seq<Content>, render: Content -> string)
    requires DrainAnswer(cs, render).Some?
    ensures var (a, b) := DrainCut(cs, render);
            0 < a < b < |cs| && Applied(cs, DrainAnswer(cs, render)) == Repaired(cs[..a] + cs[b..])
  {
    var rs := Partition(ContentsToMsgs(cs, render));
    DrainKept(cs, render);
    RoundsOfHistory(cs, render);
    KeptIsCut(rs, DropCount(|rs|, 0.2), cs);
  }

  /** A round that opens with a user turn and holds no other. */
  predicate TurnRound(r: seq<Msg>, cs: seq<Content>) {
    r != [] && UserTurn(Rebuilt(r, cs)[0]) && forall k :: 0 < k < |r| ==> !UserTurn(Rebuilt(r, cs)[k])
  }

  predicate TurnRounds(rs: seq<seq<Msg>>, cs: seq<Content>) {
    forall r :: r in rs ==> TurnRound(r, cs)
  }

  lemma LaterRounds(cs: seq<Content>, render: Content -> string, lo: nat, hi: nat)
    requires 0 < lo <= hi <= |Partition(ContentsToMsgs(cs, render))|
    ensures TurnRounds(Partition(ContentsToMsgs(cs, render))[lo..hi], cs)
  {
    var rs := Partition(ContentsToMsgs(cs, render));
    RoundsOpenAtUserTurns(cs, render);
    forall r | r in rs[lo..hi]
      ensures TurnRound(r, cs)
    {
      var i :| 0 <= i < hi - lo && rs[lo..hi][i] == r;
      assert rs[lo + i] == r;
    }
  }

  /** The messages of such rounds, put back, hold one user turn each, and begin with one. */
  lemma {:induction false} OpenedTurns(rs: seq<seq<Msg>>, cs: seq<Content>)
    requires TurnRounds(rs, cs)
    ensures UserTurns(Rebuilt(Flatten(rs), cs)) == |rs|
    ensures rs != [] ==> Rebuilt(Flatten(rs), cs) != [] && UserTurn(Rebuilt(Flatten(rs), cs)[0])
  {
    if rs != [] {
      var front, last := rs[..|rs| - 1], rs[|rs| - 1];
      OpenedTurns(front, cs);
      RebuiltConcat(Flatten(front), last, cs);
      UserTurnsConcat(Rebuilt(Flatten(front), cs), Rebuilt(last, cs));
      assert TurnRound(last, cs);
      OneTurn(Rebuilt(last, cs));
    }
  }

  lemma {:induction false} OneTurn(cs: seq<Content>)
    requires cs != [] && UserTurn(cs[0]) && forall k :: 0 < k < |cs| ==> !UserTurn(cs[k])
    ensures UserTurns(cs) == 1
  {
    if |cs| > 1 { OneTurn(cs[..|cs| - 1]); } else { assert cs[..0] == []; }
  }

  lemma FirstRound(cs: seq<Content>, render: Content -> string)
    requires cs != []
    ensures var rs := Partition(ContentsToMsgs(cs, render));
            rs != [] && rs[0] != [] && forall k :: 0 < k < |rs[0]| ==> !UserTurn(Rebuilt(rs[0], cs)[k])
  {
    RoundsOpenAtUserTurns(cs, render);
  }

  /** A history in three stretches, the later two of which begin with a user turn. */
  ghost predicate InStretches(cs: seq<Content>, first: seq<Content>, gone: seq<Content>, rest: seq<Content>) {
    && cs == first + gone + rest && first != [] && gone != [] && rest != []
    && UserTurn(gone[0]) && UserTurn(rest[0]) && forall k :: 0 < k < |first| ==> !UserTurn(first[k])
  }

  lemma Stretches(rs: seq<seq<Msg>>, n: nat, cs: seq<Content>)
    requires 1 <= n && n + 2 <= |rs| && rs[0] != [] && Rebuilt(Flatten(rs), cs) == cs
    requires forall k :: 0 < k < |rs[0]| ==> !UserTurn(Rebuilt(rs[0], cs)[k])
    requires rs[1] != [] && rs[1 + n] != [] && TurnRounds(rs[1..1 + n], cs) && TurnRounds(rs[1 + n..], cs)
    ensures var a, b := |rs[0]|, |Flatten(rs[..1 + n])|;
            && 0 < a < b < |cs| && InStretches(cs, cs[..a], cs[a..b], cs[b..]) && UserTurns(cs[a..b]) == n
  {
    KeptIsCut(rs, n, cs);
    OpenedTurns(rs[1..1 + n], cs);
    OpenedTurns(rs[1 + n..], cs);
    ThreeSlices(cs, |rs[0]|, |Flatten(rs[..1 + n])|);
  }

  lemma ThreeSlices<T>(s: seq<T>, a: nat, b: nat)
    requires a <= b <= |s|
    ensures s == s[..a] + s[a..b] + s[b..]
  {
  }

  lemma StretchesOfHistory(cs: seq<Content>, render: Content -> string, n: nat)
    requires cs != [] && 1 <= n && n + 2 <= |Partition(ContentsToMsgs(cs, render))|
    ensures var rs := Partition(ContentsToMsgs(cs, render));
            var a, b := |rs[0]|, |Flatten(rs[..1 + n])|;
            && 0 < a < b < |cs| && InStretches(cs, cs[..a], cs[a..b], cs[b..]) && UserTurns(cs[a..b]) == n
  {
    var rs := Partition(ContentsToMsgs(cs, render));
    RoundsOfHistory(cs, render);
    FirstRound(cs, render);
    LaterRounds(cs, render, 1, 1 + n);
    LaterRounds(cs, render, 1 + n, |rs|);
    assert rs[1 + n..|rs|] == rs[1 + n..];
    Stretches(rs, n, cs);
  }

  /** The three stretches that tier 6 tells apart. */
  lemma DrainStretches(cs: seq<Content>, render: Content -> string)
    requires cs != [] && DrainAnswer(cs, render).Some?
    ensures var (a, b) := DrainCut(cs, render);
            && 0 < a < b < |cs| && InStretches(cs, cs[..a], cs[a..b], cs[b..])
            && UserTurns(cs[a..b]) == DropCount(|Partition(ContentsToMsgs(cs, render))|, 0.2)
  {
    DrainKept(cs, render);
    StretchesOfHistory(cs, render, DropCount(|Partition(ContentsToMsgs(cs, render))|, 0.2));
  }

  lemma CutAtFirstTurn(cs: seq<Content>, first: seq<Content>, gone: seq<Content>, rest: seq<Content>)
    requires InStretches(cs, first, gone, rest)
    ensures FirstRoundEnd(cs) == |first| && cs[|first|..|first| + |gone|] == gone
    ensures cs[|first| + |gone|] == rest[0]
  {
    FirstRoundEndsAtUserTurn(cs);
    assert forall k :: 0 < k < |first| ==> cs[k] == first[k];
    assert cs[|first|] == gone[0];
  }

  /** What the slice is, on contents: tier 6 acts if and only if there are two user turns behind the first content,
      and takes out whole stretches from user turn to user turn, beginning with the oldest: a fifth of all rounds,
      rounded up, but never the last one. */
  lemma DrainTakesOldestTurns(cs: seq<Content>, render: Content -> string)
    requires cs != []
    ensures DrainAnswer(cs, render).Some? <==> UserTurns(cs[1..]) >= 2
    ensures DrainAnswer(cs, render).Some? ==>
              var (a, b) := DrainCut(cs, render);
              && a == FirstRoundEnd(cs) < b < |cs| && UserTurn(cs[b])
              && UserTurns(cs[a..b]) == DropCount(1 + UserTurns(cs[1..]), 0.2)
  {
    RoundsAreCounted(cs, render);
    if DrainAnswer(cs, render).Some? {
      var (a, b) := DrainCut(cs, render);
      DrainStretches(cs, render);
      CutAtFirstTurn(cs, cs[..a], cs[a..b], cs[b..]);
    }
  }

  /** So a history of one running turn is never cut into: tier 6 declines, and the fail-safe hands it to the repair
      whole. */
  lemma RunningTurnStaysWhole(est: Content -> nat, cs: seq<Content>, render: Content -> string, budget: nat)
    requires |cs| >= 2 && forall m :: 1 <= m < |cs| ==> !UserTurn(cs[m])
    ensures DrainAnswer(cs, render) == None
    ensures Truncated(est, cs, budget) == Repaired(cs)
  {
    NoTurns(cs[1..]);
    DrainTakesOldestTurns(cs, render);
    FirstRoundEndsAtUserTurn(cs);
    assert Seam(est, cs, budget) == cs;
  }

  lemma {:induction false} NoTurns(cs: seq<Content>)
    requires forall c :: c in cs ==> !UserTurn(c)
    ensures UserTurns(cs) == 0
  {
    if cs != [] { NoTurns(cs[..|cs| - 1]); }
  }

  /** The last user turn of what a cut and the repair leave, the last one before standing at `i`. */
  lemma {:induction false} CutActiveTask(cs: seq<Content>, a: nat, b: nat, i: nat)
    requires a <= b <= |cs| && LastUserText(cs, |cs|) == Some(i)
    ensures ActiveTask(Repaired(cs[..a] + cs[b..])) == if a <= i < b then ActiveTask(cs[..a]) else ActiveTask(cs)
  {
    RepairKeepsActiveTask(cs[..a] + cs[b..], cs[..a] + cs[b..]);
    ActiveTaskConcat(cs[..a], cs[b..]);
    SplitActiveTask(cs, i, b);
    SplitActiveTask(cs, i, a);
  }

  /** The last user turn after tier 6: the one before, unless the slice takes it out, and then the last one of the
      first round. */
  function DrainTurn(cs: seq<Content>, render: Content -> string, i: nat): Option<Content> {
    if DrainAnswer(cs, render).Some? && DrainCut(cs, render).0 <= i < DrainCut(cs, render).1 <= |cs|
    then ActiveTask(cs[..DrainCut(cs, render).0])
    else ActiveTask(cs)
  }

  lemma {:induction false} CollapseActiveTask(cs: seq<Content>, render: Content -> string, i: nat)
    requires LastUserText(cs, |cs|) == Some(i)
    ensures ActiveTask(Applied(cs, DrainAnswer(cs, render))) == DrainTurn(cs, render, i)
  {
    if DrainAnswer(cs, render).Some? {
      DrainIsCut(cs, render);
      CutActiveTask(cs, DrainCut(cs, render).0, DrainCut(cs, render).1, i);
    }
  }

  // ---------------------------------------------------------------- tier 7

  /** After tier 7 the last user turn is the last content if that is one, and otherwise the summary: so it stays
      what it was if and only if the last content was it, or it read exactly like the summary. */
  lemma CompactActiveTask(cs: seq<Content>, render: Content -> string, summary: string)
    requires |cs| >= 2
    ensures var head, last := CompactHead(summary), cs[|cs| - 1];
            ActiveTask(Applied(cs, CompactAnswer(cs, render, false, Some(summary)))) ==
            Some(if GenuineUserText(last) then last else head)
  {
    var head, last := CompactHead(summary), cs[|cs| - 1];
    CompactLosesPendingResultIff(cs, render, summary);
    assert head.parts[0] in head.parts && GenuineUserText(head);
    OnlyGenuine(head);
    OnlyGenuine(last);
    ActiveTaskConcat([head], [last]);
    assert [head] + [last] == [head, last];
  }

  // ---------------------------------------------------------------- the fail-safe

  /** After the fail-safe the last user turn is that of the kept tail if it has one, otherwise the marker where it
      was put in, otherwise that of the first round. */
  lemma TruncationActiveTask(est: Content -> nat, cs: seq<Content>, budget: nat)
    requires |cs| >= 2
    ensures var head, tail := cs[..FirstRoundEnd(cs)], cs[TailOf(est, cs, budget)..];
            ActiveTask(Truncated(est, cs, budget)) ==
            if ActiveTask(tail).Some? then ActiveTask(tail)
            else if Marked(est, cs, budget) then Some(MARKER)
            else ActiveTask(head)
  {
    var head, tail := cs[..FirstRoundEnd(cs)], cs[TailOf(est, cs, budget)..];
    var mark := if Marked(est, cs, budget) then [MARKER] else [];
    RepairKeepsActiveTask(Seam(est, cs, budget), Seam(est, cs, budget));
    ActiveTaskConcat(head + mark, tail);
    ActiveTaskConcat(head, mark);
    assert MARKER.parts[0] in MARKER.parts && GenuineUserText(MARKER);
    OnlyGenuine(MARKER);
  }

  /** Hence, with the last user turn at `i`: the fail-safe keeps it when the kept tail still holds it, or it stands
      in the first round and no marker is put in; with a marker in, anything before the kept tail loses to it. */
  lemma {:induction false} TruncationKeepsActiveTask(est: Content -> nat, cs: seq<Content>, budget: nat, i: nat)
    requires |cs| >= 2 && LastUserText(cs, |cs|) == Some(i)
    ensures var k := TailOf(est, cs, budget);
            ActiveTask(Truncated(est, cs, budget)) ==
            if i >= k then ActiveTask(cs)
            else if Marked(est, cs, budget) then Some(MARKER)
            else if i < FirstRoundEnd(cs) then ActiveTask(cs)
            else ActiveTask(cs[..FirstRoundEnd(cs)])
  {
    TruncationActiveTask(est, cs, budget);
    SplitActiveTask(cs, i, TailOf(est, cs, budget));
    SplitActiveTask(cs, i, FirstRoundEnd(cs));
  }

  /** The same, for any contents. */
  function FailsafeTurn(est: Content -> nat, cs: seq<Content>, budget: nat): Option<Content> {
    if |cs| <= 1 then ActiveTask(cs)
    else
      var marked, f := Marked(est, cs, budget), FirstRoundEnd(cs);
      match LastUserText(cs, |cs|)
      case None => if marked then Some(MARKER) else None
      case Some(i) =>
        if i >= TailOf(est, cs, budget) then ActiveTask(cs)
        else if marked then Some(MARKER)
        else if i < f then ActiveTask(cs) else ActiveTask(cs[..f])
  }

  lemma TruncationTurn(est: Content -> nat, cs: seq<Content>, budget: nat)
    ensures ActiveTask(Truncated(est, cs, budget)) == FailsafeTurn(est, cs, budget)
  {
    if |cs| > 1 {
      match LastUserText(cs, |cs|)
      case None =>
        TruncationActiveTask(est, cs, budget);
        NoTurnInSides(cs, FirstRoundEnd(cs), TailOf(est, cs, budget));
      case Some(i) =>
        TruncationKeepsActiveTask(est, cs, budget, i);
    }
  }

  lemma PairIsItsSeam(est: Content -> nat, cs: seq<Content>, budget: nat)
    requires |cs| == 2
    ensures Seam(est, cs, budget) == cs
  {
    var f := FirstRoundEnd(cs);
    assert f == 1 ==> TailOf(est, cs, budget) == 1;
    assert cs == cs[..f] + [] + cs[f..];
  }

  /** What tier 7 leaves passes the fail-safe with its last user turn. */
  lemma TruncationKeepsPair(est: Content -> nat, cs: seq<Content>, budget: nat)
    requires |cs| <= 2
    ensures ActiveTask(Truncated(est, cs, budget)) == ActiveTask(cs)
  {
    if |cs| == 2 {
      PairIsItsSeam(est, cs, budget);
      RepairKeepsActiveTask(cs, cs);
    }
  }

  // ---------------------------------------------------------------- the whole call

  /** The ladder either takes what tier 6 left, or goes on from it. */
  lemma EscalatedIs(est: Content -> nat, budget: nat, cs: seq<Content>, tier6: Option<seq<Msg>>,
                    tier7: Option<seq<Msg>>)
    ensures var after6 := Applied(cs, tier6);
            var after7, out := Applied(after6, tier7), Escalated(est, budget, cs, tier6, tier7).0;
            if Accepts(est, budget, cs, tier6) then out == after6
            else if tier7.None? then out == Truncated(est, after6, budget)
            else out == after7 || out == Truncated(est, after7, budget)
  {
  }

  /** Tier 7 leaves its own turn, also when the fail-safe comes after it. */
  lemma CompactedLeaves(est: Content -> nat, budget: nat, cs: seq<Content>, render: Content -> string,
                        summary: string)
    requires |cs| >= 2
    ensures var after7 := Applied(cs, CompactAnswer(cs, render, false, Some(summary)));
            var turn := if GenuineUserText(cs[|cs| - 1]) then cs[|cs| - 1] else CompactHead(summary);
            ActiveTask(after7) == Some(turn) && ActiveTask(Truncated(est, after7, budget)) == Some(turn)
  {
    CompactActiveTask(cs, render, summary);
    CompactLosesPendingResultIff(cs, render, summary);
    TruncationKeepsPair(est, Applied(cs, CompactAnswer(cs, render, false, Some(summary))), budget);
  }

  /** What the ladder leaves when tier 6 is not enough. */
  function LowerTiersLeave(est: Content -> nat, budget: nat, after6: seq<Content>, summary: Option<string>):
      Option<Content>
  {
    if summary.None? || |after6| < 2 then FailsafeTurn(est, after6, budget)
    else if GenuineUserText(after6[|after6| - 1]) then Some(after6[|after6| - 1])
    else Some(CompactHead(summary.value))
  }

  /** The last user turn after the ladder, the last one before standing at `i`; `summary` is what tier 7 would get
      from its summarizer, `None` when that raises or the breaker is open. */
  function LadderLeaves(est: Content -> nat, budget: nat, cs: seq<Content>, render: Content -> string, i: nat,
                        summary: Option<string>): Option<Content>
  {
    if Accepts(est, budget, cs, DrainAnswer(cs, render)) then DrainTurn(cs, render, i)
    else LowerTiersLeave(est, budget, Applied(cs, DrainAnswer(cs, render)), summary)
  }

  lemma LowerTiersActiveTask(est: Content -> nat, budget: nat, after6: seq<Content>, render: Content -> string,
                             breakerOpen: bool, summary: Option<string>, out: seq<Content>)
    requires var tier7 := CompactAnswer(after6, render, breakerOpen, summary);
             if tier7.None? then out == Truncated(est, after6, budget)
             else out == Applied(after6, tier7) || out == Truncated(est, Applied(after6, tier7), budget)
    ensures ActiveTask(out) == LowerTiersLeave(est, budget, after6, if breakerOpen then None else summary)
  {
    if breakerOpen || summary.None? || |after6| < 2 {
      TruncationTurn(est, after6, budget);
    } else {
      CompactedLeaves(est, budget, after6, render, summary.value);
    }
  }

  lemma {:induction false} LadderActiveTask(est: Content -> nat, budget: nat, cs: seq<Content>,
                                            render: Content -> string, i: nat,
                                            breakerOpen: bool, summary: Option<string>)
    requires LastUserText(cs, |cs|) == Some(i)
    ensures var tier6 := DrainAnswer(cs, render);
            var tier7 := CompactAnswer(Applied(cs, tier6), render, breakerOpen, summary);
            ActiveTask(Escalated(est, budget, cs, tier6, tier7).0) ==
            LadderLeaves(est, budget, cs, render, i, if breakerOpen then None else summary)
  {
    var tier6 := DrainAnswer(cs, render);
    var after6 := Applied(cs, tier6);
    var tier7 := CompactAnswer(after6, render, breakerOpen, summary);
    EscalatedIs(est, budget, cs, tier6, tier7);
    if Accepts(est, budget, cs, tier6) {
      CollapseActiveTask(cs, render, i);
    } else {
      LowerTiersActiveTask(est, budget, after6, render, breakerOpen, summary,
                           Escalated(est, budget, cs, tier6, tier7).0);
    }
  }

  /** What tier 7 gets from its summarizer in this call. */
  function Tier7Summary(p: Policy, s: Session, c: ModelCall, mid: seq<Content>): Option<string> {
    if ReadCount(s, PROACTIVE_KEY) >= p.cfg.cap then None
    else c.world.compact(Applied(mid, DrainAnswer(mid, c.world.render)))
  }

  /** The last user turn of what a call sends. A call that does not open the gate sends the one it was given. One
      that does sends what the ladder leaves, and the ladder starts from that same turn. */
  lemma SentActiveTask(p: Policy, s: Session, c: ModelCall)
    requires ActiveTask(c.contents).Some?
    ensures var mid := AfterTrim(p, s, c);
            var at := LastUserText(mid, |mid|);
            && at.Some? && Some(mid[at.value]) == ActiveTask(c.contents)
            && ActiveTask(SentBy(p, s, c)) ==
               if !GateOpens(c.world.est, mid, p, c.world.window) then ActiveTask(c.contents)
               else LadderLeaves(c.world.est, Percent(c.world.window, p.criticalPct), mid, c.world.render, at.value,
                                 Tier7Summary(p, s, c, mid))
  {
    var mid := AfterTrim(p, s, c);
    TrimStepKeepsActiveTask(c.world.est, c.contents, c.requested, p, SignalsOf(p, s, c.world), SummaryOf(p, s, c));
    if GateOpens(c.world.est, mid, p, c.world.window) {
      var after6 := Applied(mid, DrainAnswer(mid, c.world.render));
      LadderActiveTask(c.world.est, Percent(c.world.window, p.criticalPct), mid, c.world.render,
                       LastUserText(mid, |mid|).value, ReadCount(s, PROACTIVE_KEY) >= p.cfg.cap,
                       c.world.compact(after6));
    }
  }

  // ---------------------------------------------------------------- the turn just made

  predicate EndsWith(cs: seq<Content>, u: Content) { cs != [] && cs[|cs| - 1] == u }

  lemma RepairKeepsEnd(cs: seq<Content>, u: Content)
    requires EndsWith(cs, u) && !HasResponse(u)
    ensures EndsWith(Repaired(cs), u)
  {
  }

  lemma PruneKeepsEnd(cs: seq<Content>, p: Policy, u: Content)
    requires GenuineUserText(u) && EndsWith(cs, u)
    ensures EndsWith(AfterPrune(cs, p), u)
  {
    PruneKeepsGenuineTexts(cs, p.knobs, |cs|);
  }

  lemma TrimKeepsEnd(cs: seq<Content>, tail: nat, summary: Option<string>, u: Content)
    requires tail >= 1 && EndsWith(cs, u)
    ensures EndsWith(Trimmed(cs, tail, summary), u)
  {
    if CutPoint(cs, tail) > 0 { TrimmedAt(cs, tail, summary); }
  }

  lemma TrimStepKeepsEnd(p: Policy, s: Session, c: ModelCall, u: Content)
    requires p.knobs.Valid() && GenuineUserText(u) && EndsWith(c.contents, u)
    ensures EndsWith(AfterTrim(p, s, c), u)
  {
    PruneKeepsEnd(c.contents, p, u);
    TrimKeepsEnd(AfterPrune(c.contents, p), p.knobs.tail, SummaryOf(p, s, c), u);
  }

  lemma DrainKeepsEnd(cs: seq<Content>, render: Content -> string, u: Content)
    requires !HasResponse(u) && EndsWith(cs, u)
    ensures EndsWith(Applied(cs, DrainAnswer(cs, render)), u)
  {
    if DrainAnswer(cs, render).Some? {
      DrainIsCut(cs, render);
      var (a, b) := DrainCut(cs, render);
      RepairKeepsEnd(cs[..a] + cs[b..], u);
    }
  }

  lemma CompactKeepsEnd(cs: seq<Content>, render: Content -> string, breakerOpen: bool,
                        summary: Option<string>, u: Content)
    requires !HasResponse(u) && EndsWith(cs, u)
    ensures EndsWith(Applied(cs, CompactAnswer(cs, render, breakerOpen, summary)), u)
  {
    if CompactAnswer(cs, render, breakerOpen, summary).Some? {
      CompactLosesPendingResultIff(cs, render, summary.value);
    }
  }

  lemma TruncationKeepsEnd(est: Content -> nat, cs: seq<Content>, budget: nat, u: Content)
    requires !HasResponse(u) && EndsWith(cs, u)
    ensures EndsWith(Truncated(est, cs, budget), u)
  {
    if |cs| > 1 { RepairKeepsEnd(Seam(est, cs, budget), u); }
  }

  lemma LadderKeepsEnd(p: Policy, w: World, mid: seq<Content>, breakerOpen: bool, u: Content)
    requires !HasResponse(u) && EndsWith(mid, u)
    ensures EndsWith(AfterLadder(p, w, mid, breakerOpen), u)
  {
    var budget := Percent(w.window, p.criticalPct);
    if GateOpens(w.est, mid, p, w.window) {
      var tier6 := DrainAnswer(mid, w.render);
      var after6 := Applied(mid, tier6);
      var tier7 := CompactAnswer(after6, w.render, breakerOpen, w.compact(after6));
      EscalatedIs(w.est, budget, mid, tier6, tier7);
      DrainKeepsEnd(mid, w.render, u);
      CompactKeepsEnd(after6, w.render, breakerOpen, w.compact(after6), u);
      TruncationKeepsEnd(w.est, after6, budget, u);
      TruncationKeepsEnd(w.est, Applied(after6, tier7), budget, u);
    }
  }

  /** The turn the user has just made always reaches the model, as the last content of the request: whatever is
      configured, stored, estimated and answered, and however far the ladder has to go. */
  lemma FreshTurnIsSent(p: Policy, s: Session, c: ModelCall, u: Content)
    requires p.knobs.Valid() && GenuineUserText(u) && EndsWith(c.contents, u)
    ensures EndsWith(SentBy(p, s, c), u)
    ensures ActiveTask(SentBy(p, s, c)) == Some(u)
  {
    TrimStepKeepsEnd(p, s, c, u);
    LadderKeepsEnd(p, c.world, AfterTrim(p, s, c), ReadCount(s, PROACTIVE_KEY) >= p.cfg.cap, u);
    LastUserTextIs(SentBy(p, s, c), |SentBy(p, s, c)|, |SentBy(p, s, c)| - 1);
  }
}
