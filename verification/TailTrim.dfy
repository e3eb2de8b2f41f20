/** The tail cut: keep the recent contents, widen the cut backwards over tool responses, pin the
    active user turn, and put a summary head in front when a summary was made. */
module TailTrim {
  import opened Basics
  import opened Transcript

  const SUMMARY_MARKER := "[Previous conversation summary]\n\n"
  const PRESERVED_PREFIX := "[Preserved tool output: "
  const PAYLOAD_MAX_CHARS := 24_000
  const PRUNE_PROTECTED_TOOLS := {"LoadGaPlaybook", "select_recipe"}

  /** The outgoing request; the plugin rewrites its contents in place. */
  class LlmRequest {
    var contents: seq<Content>
    constructor (contents: seq<Content>)
      ensures this.contents == contents
    {
      this.contents := contents;
    }
  }

  // ---------------------------------------------------------------- the split point

  /** The cut after widening: the nearest position at or below `split` that does not start on a
      response, or the head of the list. */
  function AdjustedSplit(cs: seq<Content>, split: nat): (k: nat)
    requires split <= |cs|
    ensures k <= split
    ensures forall m :: k < m <= split && m < |cs| ==> HasResponse(cs[m])
    ensures 0 < k < |cs| ==> !HasResponse(cs[k])
  {
    if 0 < split < |cs| && HasResponse(cs[split]) then AdjustedSplit(cs, split - 1) else split
  }

  method AdjustSplitToAvoidOrphanResponse(cs: seq<Content>, split: nat) returns (k: nat)
    requires split <= |cs|
    ensures k == AdjustedSplit(cs, split)
  {
    k := split;
    while 0 < k < |cs| && HasResponse(cs[k])
      invariant k <= split
      invariant AdjustedSplit(cs, k) == AdjustedSplit(cs, split)
      decreases k
    {
      k := k - 1;
    }
  }

  function CutPoint(cs: seq<Content>, tail: nat): (k: nat)
    ensures k <= |cs|
  {
    AdjustedSplit(cs, |cs| - Min(tail, |cs|))
  }

  /** The widening is exactly as large as it must be: every later cut down to the requested one would
      start on a response, and the cut taken does not, unless it keeps everything. */
  lemma CutPointIsNearestClean(cs: seq<Content>, tail: nat)
    requires 1 <= tail <= |cs|
    ensures var k := CutPoint(cs, tail);
            && k <= |cs| - tail
            && (k > 0 ==> !HasResponse(cs[k]))
            && forall m :: k < m <= |cs| - tail ==> HasResponse(cs[m])
  {
  }

  // ---------------------------------------------------------------- the pinned user turn

  /** Index of the last genuine user-text content among the first `n`. */
  function LastUserText(cs: seq<Content>, n: nat): (r: Option<nat>)
    requires n <= |cs|
    ensures r.Some? ==> r.value < n && GenuineUserText(cs[r.value])
                        && forall m :: r.value < m < n ==> !GenuineUserText(cs[m])
    ensures r.None? ==> forall m :: 0 <= m < n ==> !GenuineUserText(cs[m])
  {
    if n == 0 then None
    else if GenuineUserText(cs[n - 1]) then Some(n - 1)
    else LastUserText(cs, n - 1)
  }

  method LastRealUserTextIndex(cs: seq<Content>) returns (r: Option<nat>)
    ensures r == LastUserText(cs, |cs|)
  {
    var index := |cs|;
    while index > 0
      invariant 0 <= index <= |cs|
      invariant LastUserText(cs, |cs|) == LastUserText(cs, index)
    {
      if GenuineUserText(cs[index - 1]) { return Some(index - 1); }
      index := index - 1;
    }
    r := None;
  }

  /** What the model was last asked to do: the last genuine user text, as a value. */
  function ActiveTask(cs: seq<Content>): Option<Content> {
    match LastUserText(cs, |cs|)
    case None => None
    case Some(i) => Some(cs[i])
  }

  function Pinned(cs: seq<Content>, split: nat): seq<Content>
    requires split <= |cs|
  {
    match LastUserText(cs, |cs|)
    case None => []
    case Some(i) => if i < split then [cs[i]] else []
  }

  // ---------------------------------------------------------------- the summary head

  predicate ProtectedResult(p: Part) {
    p.Response? && p.name in PRUNE_PROTECTED_TOOLS
  }

  function PreservedText(p: Part): Content
    requires p.Response?
  {
    Content(User, [Text(PRESERVED_PREFIX + p.name + "]\n" + p.payload[..Min(PAYLOAD_MAX_CHARS, |p.payload|)])])
  }

  function ProtectedOfParts(parts: seq<Part>): seq<Content> {
    if parts == [] then []
    else
      var before, p := ProtectedOfParts(parts[..|parts| - 1]), parts[|parts| - 1];
      if ProtectedResult(p) then before + [PreservedText(p)] else before
  }

  function ProtectedTexts(dropped: seq<Content>): seq<Content> {
    if dropped == [] then []
    else ProtectedTexts(dropped[..|dropped| - 1]) + ProtectedOfParts(dropped[|dropped| - 1].parts)
  }

  lemma {:induction false} ProtectedOfPartsIs(parts: seq<Part>)
    ensures forall c :: c in ProtectedOfParts(parts) <==>
              exists p :: p in parts && ProtectedResult(p) && c == PreservedText(p)
  {
    if parts != [] {
      ProtectedOfPartsIs(parts[..|parts| - 1]);
      assert parts == parts[..|parts| - 1] + [parts[|parts| - 1]];
    }
  }

  /** The preserved texts are exactly those of the protected results. */
  lemma {:induction false} ProtectedTextsAre(dropped: seq<Content>)
    ensures forall c :: c in ProtectedTexts(dropped) <==>
              exists d, p :: d in dropped && p in d.parts && ProtectedResult(p) && c == PreservedText(p)
  {
    if dropped != [] {
      var init, last := dropped[..|dropped| - 1], dropped[|dropped| - 1];
      ProtectedTextsAre(init);
      ProtectedOfPartsIs(last.parts);
      assert dropped == init + [last];
    }
  }

  lemma {:induction false} ProtectedOfPartsConcat(a: seq<Part>, b: seq<Part>)
    ensures ProtectedOfParts(a + b) == ProtectedOfParts(a) + ProtectedOfParts(b)
  {
    if b == [] {
      assert a + b == a;
    } else {
      ProtectedOfPartsConcat(a, b[..|b| - 1]);
      assert (a + b)[..|a + b| - 1] == a + b[..|b| - 1];
    }
  }

  lemma ProtectedTextsSnoc(dropped: seq<Content>, c: Content)
    ensures ProtectedTexts(dropped + [c]) == ProtectedTexts(dropped) + ProtectedOfParts(c.parts)
  {
    assert (dropped + [c])[..|dropped|] == dropped;
  }

  lemma {:induction false} ProtectedTextsConcat(a: seq<Content>, b: seq<Content>)
    ensures ProtectedTexts(a + b) == ProtectedTexts(a) + ProtectedTexts(b)
  {
    if b == [] {
      assert a + b == a;
    } else {
      var init, last := b[..|b| - 1], b[|b| - 1];
      ProtectedTextsConcat(a, init);
      ProtectedTextsSnoc(a + init, last);
      assert a + b == a + init + [last];
      Regrouped(ProtectedTexts(a), ProtectedTexts(init), ProtectedOfParts(last.parts));
    }
  }

  lemma Regrouped<T>(x: seq<T>, y: seq<T>, z: seq<T>)
    ensures x + y + z == x + (y + z)
  {
  }

  /** They come in the order of the results: over contents, and over the parts of each. */
  lemma ProtectedTextsInOrder(a: seq<Content>, b: seq<Content>, c: Content, p: seq<Part>, q: seq<Part>)
    requires c.parts == p + q
    ensures ProtectedTexts(a + [c] + b) ==
            ProtectedTexts(a) + ProtectedOfParts(p) + ProtectedOfParts(q) + ProtectedTexts(b)
  {
    ProtectedTextsConcat(a + [c], b);
    ProtectedTextsSnoc(a, c);
    ProtectedOfPartsConcat(p, q);
    Regrouped(ProtectedTexts(a), ProtectedOfParts(p), ProtectedOfParts(q));
  }

  /** Results of protected tools in the dropped region come back as plain user text. */
  method ProtectedTextContents(dropped: seq<Content>) returns (out: seq<Content>)
    ensures out == ProtectedTexts(dropped)
  {
    out := [];
    for i := 0 to |dropped|
      invariant out == ProtectedTexts(dropped[..i])
    {
      var parts := dropped[i].parts;
      ghost var before := out;
      for k := 0 to |parts|
        invariant out == before + ProtectedOfParts(parts[..k])
      {
        assert parts[..k + 1][..k] == parts[..k];
        if ProtectedResult(parts[k]) { out := out + [PreservedText(parts[k])]; }
      }
      assert parts[..|parts|] == parts;
      assert dropped[..i + 1][..i] == dropped[..i];
    }
    assert dropped[..|dropped|] == dropped;
  }

  function SummaryContent(summary: string): Content {
    Content(User, [Text(SUMMARY_MARKER + summary)])
  }

  function SummaryHead(dropped: seq<Content>, summary: Option<string>): seq<Content> {
    match summary
    case None => []
    case Some(s) => [SummaryContent(s)] + ProtectedTexts(dropped)
  }

  lemma SummaryHeadIsText(dropped: seq<Content>, summary: Option<string>)
    ensures forall c :: c in SummaryHead(dropped, summary) ==> TextOnly(c)
  {
    ProtectedTextsAre(dropped);
  }

  // ---------------------------------------------------------------- the trim

  /** What the trim leaves; `summary` is the summary made of the dropped prefix, if any. */
  function Trimmed(cs: seq<Content>, tail: nat, summary: Option<string>): seq<Content> {
    var k := CutPoint(cs, tail);
    if k == 0 then cs
    else SummaryHead(cs[..k], summary) + Pinned(cs, k) + cs[k..]
  }

  method PinActiveTask(cs: seq<Content>, split: nat) returns (pinned: seq<Content>)
    requires split <= |cs|
    ensures pinned == Pinned(cs, split)
  {
    var pin := LastRealUserTextIndex(cs);
    pinned := if pin.Some? && pin.value < split then [cs[pin.value]] else [];
  }

  method FindCut(cs: seq<Content>, tail: nat) returns (split: nat)
    ensures split == CutPoint(cs, tail)
  {
    var keep := Min(tail, |cs|);
    split := AdjustSplitToAvoidOrphanResponse(cs, |cs| - keep);
  }

  lemma TrimmedAt(cs: seq<Content>, tail: nat, summary: Option<string>)
    requires CutPoint(cs, tail) > 0
    ensures var k := CutPoint(cs, tail);
            Trimmed(cs, tail, summary) == SummaryHead(cs[..k], summary) + Pinned(cs, k) + cs[k..]
  {
  }

  // ---------------------------------------------------------------- pairing is safe

  /** Text-only contents in front neither answer nor demand anything. */
  lemma TextPrefixAnswersNothing(front: seq<Content>, cs: seq<Content>, r: Part)
    requires r.Response?
    requires forall c :: c in front ==> !HasCall(c)
    ensures Answered(front + cs, r) <==> Answered(cs, r)
  {
    if Answered(cs, r) {
      AnsweredMonotone(cs, front + cs, r);
    }
    if Answered(front + cs, r) {
      var c :| c in front + cs && HoldsCallFor(c, r);
      assert c in cs;
    }
  }

  /** The contents put in front of the kept tail hold no tool part. */
  lemma FrontIsToolFree(cs: seq<Content>, k: nat, summary: Option<string>)
    requires k <= |cs|
    ensures forall c :: c in SummaryHead(cs[..k], summary) + Pinned(cs, k) ==> !HasCall(c) && !HasResponse(c)
  {
    SummaryHeadIsText(cs[..k], summary);
  }

  /** In a chained history a clean cut keeps every call that a kept response needs. */
  lemma CleanCutKeepsChains(cs: seq<Content>, k: nat)
    requires Chained(cs) && k < |cs|
    requires k > 0 ==> !HasResponse(cs[k])
    ensures Chained(cs[k..])
  {
    var t := cs[k..];
    forall j, r | 0 <= j < |t| && Demands(t[j], r)
      ensures exists i :: LeadsTo(t, i, j) && HoldsCallFor(t[i], r)
    {
      var i :| LeadsTo(cs, i, k + j) && HoldsCallFor(cs[i], r);
      assert k <= i;
      assert LeadsTo(t, i - k, j);
    }
  }

  lemma ChainedIsPaired(cs: seq<Content>)
    requires Chained(cs)
    ensures PairedInOrder(cs)
  {
    forall j, r | 0 <= j < |cs| && Demands(cs[j], r)
      ensures Answered(cs[..j + 1], r)
    {
      var i :| LeadsTo(cs, i, j) && HoldsCallFor(cs[i], r);
      assert cs[..j + 1][i] == cs[i];
    }
  }

  lemma PairedBehindText(front: seq<Content>, cs: seq<Content>)
    requires forall c :: c in front ==> !HasCall(c) && !HasResponse(c)
    ensures PairedInOrder(front + cs) <==> PairedInOrder(cs)
  {
    var all := front + cs;
    forall j, r | 0 <= j < |cs| && Demands(cs[j], r)
      ensures Answered(cs[..j + 1], r) <==> Answered(all[..|front| + j + 1], r)
    {
      assert all[..|front| + j + 1] == front + cs[..j + 1];
      TextPrefixAnswersNothing(front, cs[..j + 1], r);
    }
    assert forall j :: 0 <= j < |cs| ==> cs[j] == all[|front| + j];
    assert forall j :: 0 <= j < |front| ==> all[j] == front[j] && !HasResponse(all[j]);
    if PairedInOrder(cs) {
      forall j, r | 0 <= j < |all| && Demands(all[j], r)
        ensures Answered(all[..j + 1], r)
      {
        assert all[j] == cs[j - |front|];
      }
    }
  }

  /** Safety on both paths: after any trim of a chained history no kept response lacks its call. */
  lemma TrimKeepsPairs(cs: seq<Content>, tail: nat, summary: Option<string>)
    requires Chained(cs) && tail >= 1
    ensures PairedInOrder(Trimmed(cs, tail, summary))
    ensures OrphanFree(Trimmed(cs, tail, summary))
  {
    var k := CutPoint(cs, tail);
    if k == 0 {
      ChainedIsPaired(cs);
    } else {
      var front := SummaryHead(cs[..k], summary) + Pinned(cs, k);
      CleanCutKeepsChains(cs, k);
      ChainedIsPaired(cs[k..]);
      FrontIsToolFree(cs, k, summary);
      PairedBehindText(front, cs[k..]);
    }
    PairedIsOrphanFree(Trimmed(cs, tail, summary));
  }

  /** A paired trim result has a paired tail. */
  lemma KeptTailIsPaired(cs: seq<Content>, tail: nat)
    requires PairedInOrder(Trimmed(cs, tail, None))
    ensures PairedInOrder(cs[CutPoint(cs, tail)..])
  {
    var k := CutPoint(cs, tail);
    if k == 0 {
      assert cs[k..] == cs;
    } else {
      FrontIsToolFree(cs, k, None);
      PairedBehindText(Pinned(cs, k), cs[k..]);
      assert Trimmed(cs, tail, None) == Pinned(cs, k) + cs[k..];
    }
  }

  /** A response answered within a run of responses is led to from its call. */
  lemma AnsweredInRunGivesChain(cs: seq<Content>, k: nat, j: nat, r: Part)
    requires k <= j < |cs| && r.Response? && Answered(cs[k..][..j - k + 1], r)
    requires forall m :: k < m <= j ==> HasResponse(cs[m])
    ensures exists i :: LeadsTo(cs, i, j) && HoldsCallFor(cs[i], r)
  {
    var kept := cs[k..];
    var c :| c in kept[..j - k + 1] && HoldsCallFor(c, r);
    var i :| 0 <= i <= j - k && kept[i] == c;
    assert LeadsTo(cs, k + i, j);
  }

  /** If the cut that starts on content `j` keeps its response paired, the call leads to it. */
  lemma SafeCutGivesChain(cs: seq<Content>, j: nat, r: Part)
    requires j < |cs| && Demands(cs[j], r)
    requires PairedInOrder(Trimmed(cs, |cs| - j, None))
    ensures exists i :: LeadsTo(cs, i, j) && HoldsCallFor(cs[i], r)
  {
    var k := CutPoint(cs, |cs| - j);
    CutPointIsNearestClean(cs, |cs| - j);
    KeptTailIsPaired(cs, |cs| - j);
    assert cs[k..][j - k] == cs[j];
    AnsweredInRunGivesChain(cs, k, j, r);
  }

  /** The exact condition: the pure tail drop is safe at every tail size if and only if every response
      is reached from its call through response-bearing contents only. */
  lemma TrimIsSafeIffChained(cs: seq<Content>)
    ensures (forall tail: nat :: tail >= 1 ==> PairedInOrder(Trimmed(cs, tail, None))) <==> Chained(cs)
  {
    if Chained(cs) {
      forall tail: nat | tail >= 1
        ensures PairedInOrder(Trimmed(cs, tail, None))
      {
        TrimKeepsPairs(cs, tail, None);
      }
    }
    if forall tail: nat :: tail >= 1 ==> PairedInOrder(Trimmed(cs, tail, None)) {
      forall j, r | 0 <= j < |cs| && Demands(cs[j], r)
        ensures exists i :: LeadsTo(cs, i, j) && HoldsCallFor(cs[i], r)
      {
        SafeCutGivesChain(cs, j, r);
      }
    }
  }

  lemma CutAtUserTurn(call: Content, user: Content, resp: Content)
    requires GenuineUserText(user) && HasResponse(resp)
    ensures Trimmed([call, user, resp], 1, None) == [user, resp]
  {
    var cs := [call, user, resp];
    assert CutPoint(cs, 1) == AdjustedSplit(cs, 1) == 1;
    assert LastUserText(cs, 3) == Some(1);
  }

  lemma CallBeforeResponse(call: Content, user: Content, resp: Content, r: Part)
    requires r.Response? && HoldsCallFor(call, r) && !HasResponse(call) && !HasResponse(user)
    requires forall q :: Demands(resp, q) ==> q == r
    ensures PairedInOrder([call, user, resp])
  {
    var cs := [call, user, resp];
    forall j, q | 0 <= j < |cs| && Demands(cs[j], q)
      ensures Answered(cs[..j + 1], q)
    {
      assert q == r && cs[..j + 1][0] == call;
    }
  }

  lemma UserBreaksChain(call: Content, user: Content, resp: Content, r: Part)
    requires Demands(resp, r) && !HasResponse(user) && !HoldsCallFor(user, r) && !HoldsCallFor(resp, r)
    ensures !Chained([call, user, resp])
    ensures !OrphanFree([user, resp])
  {
    var cs := [call, user, resp];
    assert Demands(cs[2], r) && !HasResponse(cs[1]) && !LeadsTo(cs, 0, 2);
    assert forall i :: LeadsTo(cs, i, 2) ==> i == 1 || i == 2;
    assert resp in [user, resp] && !Answered([user, resp], r);
  }

  /** A paired history that is not chained: a user turn between a call and its response. */
  lemma InterruptedToolCycleIsOrphaned()
    ensures var cs :=
            [Content(Model, [Call("a", "t")]), Content(User, [Text("hi")]), Content(User, [Response("a", "t", "")])];
            PairedInOrder(cs) && !Chained(cs) && !OrphanFree(Trimmed(cs, 1, None))
  {
    var call, user := Content(Model, [Call("a", "t")]), Content(User, [Text("hi")]);
    var r := Response("a", "t", "");
    var resp := Content(User, [r]);
    assert HoldsCallFor(call, r) by { assert call.parts[0] == Call("a", "t") && Answers(Call("a", "t"), r); }
    assert GenuineUserText(user) by { assert user.parts[0] == Text("hi"); }
    assert Demands(resp, r) by { assert resp.parts[0] == r; }
    CallBeforeResponse(call, user, resp, r);
    UserBreaksChain(call, user, resp, r);
    CutAtUserTurn(call, user, resp);
  }

  // ---------------------------------------------------------------- the user's turn survives

  /** The index is determined: the only genuine user text with none after it. */
  lemma {:induction false} LastUserTextIs(cs: seq<Content>, n: nat, i: nat)
    requires i < n <= |cs| && GenuineUserText(cs[i])
    requires forall m :: i < m < n ==> !GenuineUserText(cs[m])
    ensures LastUserText(cs, n) == Some(i)
  {
    if i < n - 1 { LastUserTextIs(cs, n - 1, i); }
  }

  /** The last genuine user text of a concatenation is that of its last part that has one. */
  lemma ActiveTaskConcat(a: seq<Content>, b: seq<Content>)
    ensures ActiveTask(a + b) == if ActiveTask(b).Some? then ActiveTask(b) else ActiveTask(a)
  {
    var ab := a + b;
    assert forall m :: |a| <= m < |ab| ==> ab[m] == b[m - |a|];
    match LastUserText(b, |b|)
    case Some(i) => LastUserTextIs(ab, |ab|, |a| + i);
    case None =>
      match LastUserText(a, |a|)
      case Some(i) => LastUserTextIs(ab, |ab|, i);
      case None =>
        assert forall m :: 0 <= m < |ab| ==> !GenuineUserText(ab[m]);
  }

  lemma LastUserTextInTail(front: seq<Content>, cs: seq<Content>, k: nat, i: nat)
    requires k <= |cs|
    requires LastUserText(cs, |cs|) == Some(i) && k <= i
    ensures ActiveTask(front + cs[k..]) == Some(cs[i])
  {
    var out := front + cs[k..];
    var at := |front| + i - k;
    assert out[at] == cs[i];
    assert forall m :: at < m < |out| ==> out[m] == cs[m - |front| + k];
    LastUserTextIs(out, |out|, at);
  }

  /** On both paths the last genuine user text of the output is the one of the input. */
  lemma TrimKeepsActiveTask(cs: seq<Content>, tail: nat, summary: Option<string>)
    requires ActiveTask(cs).Some?
    ensures ActiveTask(Trimmed(cs, tail, summary)) == ActiveTask(cs)
  {
    var k := CutPoint(cs, tail);
    var i := LastUserText(cs, |cs|).value;
    if k > 0 {
      var head := SummaryHead(cs[..k], summary);
      if i >= k {
        LastUserTextInTail(head + Pinned(cs, k), cs, k, i);
      } else {
        var out := head + [cs[i]] + cs[k..];
        assert Trimmed(cs, tail, summary) == out;
        assert out[|head|] == cs[i];
        forall m | |head| < m < |out|
          ensures !GenuineUserText(out[m])
        {
          assert out[m] == cs[k + m - |head| - 1];
        }
        LastUserTextIs(out, |out|, |head|);
      }
    }
  }

  /** What follows the first line of a text. */
  function AfterFirstLine(t: string): string {
    if t == "" then "" else if t[0] == '\n' then t[1..] else AfterFirstLine(t[1..])
  }

  lemma {:induction false} AfterFirstLineOf(line: string, rest: string)
    requires '\n' !in line
    ensures AfterFirstLine(line + "\n" + rest) == rest
  {
    var t := line + "\n" + rest;
    if line == "" {
      assert t[1..] == rest;
    } else {
      AfterFirstLineOf(line[1..], rest);
      assert t[0] == line[0] && t[1..] == line[1..] + "\n" + rest;
    }
  }

  /** The summary head opens with a user text that says the summary after its heading. */
  lemma SummaryComesFirst(dropped: seq<Content>, summary: string)
    ensures var head := SummaryHead(dropped, Some(summary));
            && |head| == 1 + |ProtectedTexts(dropped)| && head[0].role == User && |head[0].parts| == 1
            && head[0].parts[0].Text? && AfterFirstLine(AfterFirstLine(head[0].parts[0].text)) == summary
  {
    var heading := "[Previous conversation summary]";
    AfterFirstLineOf(heading, "\n" + summary);
    AfterFirstLineOf("", summary);
    assert SUMMARY_MARKER + summary == heading + "\n" + ("\n" + summary);
    assert "" + "\n" + summary == "\n" + summary;
  }

  /** `c` is one user text that names the tool and whose lines after the first are the payload of `p`, or the
      first 24,000 characters of a longer one. */
  predicate CarriesResult(c: Content, p: Part)
    requires p.Response?
  {
    && c.role == User && |c.parts| == 1 && c.parts[0].Text?
    && "[Preserved tool output: " + p.name + "]\n" <= c.parts[0].text
    && AfterFirstLine(c.parts[0].text) == p.payload[..Min(24_000, |p.payload|)]
  }

  lemma PreservedTextCarries(p: Part)
    requires p.Response? && '\n' !in p.name
    ensures CarriesResult(PreservedText(p), p)
  {
    var payload := p.payload[..Min(24_000, |p.payload|)];
    AfterFirstLineOf(PRESERVED_PREFIX + p.name + "]", payload);
    assert PRESERVED_PREFIX + p.name + "]\n" + payload == PRESERVED_PREFIX + p.name + "]" + "\n" + payload;
  }

  /** With a summary, every result of the two protected tools is kept as it was, or comes back as a user text with
      its payload in it. */
  lemma ProtectedResultsSurvive(cs: seq<Content>, tail: nat, summary: string, j: nat, p: Part)
    requires j < |cs| && p in cs[j].parts && p.Response? && p.name in {"LoadGaPlaybook", "select_recipe"}
    ensures var out := Trimmed(cs, tail, Some(summary));
            cs[j] in out || exists c :: c in out && CarriesResult(c, p)
  {
    var k := CutPoint(cs, tail);
    if k > 0 {
      var head := SummaryHead(cs[..k], Some(summary));
      if j >= k {
        assert cs[k..][j - k] == cs[j];
      } else {
        assert cs[..k][j] == cs[j];
        ProtectedTextsAre(cs[..k]);
        PreservedTextCarries(p);
        assert PreservedText(p) in head;
      }
    }
  }

  /** Nothing else comes back: each text put in front besides the summary carries a protected result of the dropped
      prefix. */
  lemma PreservedTextsAreResults(dropped: seq<Content>, c: Content)
    requires c in ProtectedTexts(dropped)
    ensures exists d, p :: d in dropped && p in d.parts && p.Response? && CarriesResult(c, p)
                           && p.name in {"LoadGaPlaybook", "select_recipe"}
  {
    ProtectedTextsAre(dropped);
    var d, p :| d in dropped && p in d.parts && ProtectedResult(p) && c == PreservedText(p);
    ProtectedNames(p);
    PreservedTextCarries(p);
  }

  lemma ProtectedNames(p: Part)
    requires ProtectedResult(p)
    ensures p.Response? && '\n' !in p.name && p.name in {"LoadGaPlaybook", "select_recipe"}
  {
  }

  // ---------------------------------------------------------------- trimming twice

  lemma AdjustedSplitShift(cs: seq<Content>, front: seq<Content>, k: nat, s: nat)
    requires k <= s < |cs|
    requires forall m :: k < m <= s ==> HasResponse(cs[m])
    requires !HasResponse(cs[k])
    ensures AdjustedSplit(front + cs[k..], |front| + s - k) == |front|
    decreases s
  {
    var out := front + cs[k..];
    assert out[|front| + s - k] == cs[s];
    if s > k { AdjustedSplitShift(cs, front, k, s - 1); }
  }

  /** The trim keeps the whole requested tail and never grows a history. */
  lemma TrimKeepsTail(cs: seq<Content>, tail: nat)
    requires tail >= 1
    ensures var out, keep := Trimmed(cs, tail, None), Min(tail, |cs|);
            keep <= |out| <= |cs| && out[|out| - keep..] == cs[|cs| - keep..]
  {
    var k := CutPoint(cs, tail);
    if k > 0 {
      CutPointIsNearestClean(cs, tail);
      var out := Pinned(cs, k) + cs[k..];
      assert Trimmed(cs, tail, None) == out;
      assert out[|out| - tail..] == cs[|cs| - tail..];
    }
  }

  /** Trimming an already trimmed history changes nothing, pinned turn and widening included. */
  lemma TrimIsIdempotent(cs: seq<Content>, tail: nat)
    requires tail >= 1
    ensures Trimmed(Trimmed(cs, tail, None), tail, None) == Trimmed(cs, tail, None)
  {
    var k := CutPoint(cs, tail);
    if k > 0 {
      CutPointIsNearestClean(cs, tail);
      var front := Pinned(cs, k);
      var out := front + cs[k..];
      assert Trimmed(cs, tail, None) == out;
      AdjustedSplitShift(cs, front, k, |cs| - tail);
      assert CutPoint(out, tail) == |front|;
      if front != [] {
        assert ActiveTask(cs).Some?;
        TrimKeepsActiveTask(cs, tail, None);
        forall m | 0 < m < |out|
          ensures !GenuineUserText(out[m])
        {
          assert out[m] == cs[k + m - 1];
        }
        assert LastUserText(out, |out|) == Some(0);
        assert Trimmed(out, tail, None) == [out[0]] + out[1..];
      }
    }
  }
}
