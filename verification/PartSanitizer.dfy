/** Which parts of a history reach the native converter: reasoning is stripped while thinking is off, parts
    the converter would raise on are dropped, and contents left without parts are skipped. */
module PartSanitizer {
  import opened Basics
  import opened Transcript

  /** A part by what it carries; a field is true when it is present and non-empty. */
  datatype RichPart = RichPart(thought: bool, signature: bool, text: bool, call: Option<ToolRef>,
                               response: Option<ToolRef>, inlineMedia: bool, code: bool, codeResult: bool)
  datatype ToolRef = ToolRef(id: string, name: string)
  datatype RichContent = RichContent(role: Role, parts: seq<RichPart>)

  predicate ThoughtBearing(p: RichPart) { p.thought || p.signature }

  /** The converter's own chain of cases, in order. */
  predicate FallsThrough(p: RichPart) {
    if p.thought && p.text then false
    else if p.thought && p.signature then false
    else if p.text then false
    else if p.call.Some? then false
    else if p.response.Some? then false
    else if p.inlineMedia then false
    else if p.code then false
    else !p.codeResult
  }

  predicate Kept(p: RichPart, thinking: bool) { (thinking || !ThoughtBearing(p)) && !FallsThrough(p) }

  function KeptParts(parts: seq<RichPart>, thinking: bool): seq<RichPart> {
    if parts == [] then []
    else
      var before, p := KeptParts(parts[..|parts| - 1], thinking), parts[|parts| - 1];
      before + if Kept(p, thinking) then [p] else []
  }

  function Sanitized(cs: seq<RichContent>, thinking: bool): seq<RichContent> {
    if cs == [] then []
    else
      var c := cs[|cs| - 1];
      var kept := KeptParts(c.parts, thinking);
      Sanitized(cs[..|cs| - 1], thinking) + if kept == [] then [] else [RichContent(c.role, kept)]
  }

  function AllParts(cs: seq<RichContent>): seq<RichPart> {
    if cs == [] then [] else AllParts(cs[..|cs| - 1]) + cs[|cs| - 1].parts
  }

  method SanitizeParts(parts: seq<RichPart>, thinking: bool, dropped: nat)
      returns (kept: seq<RichPart>, droppedNow: nat)
    ensures kept == KeptParts(parts, thinking)
    ensures droppedNow == dropped + |parts| - |kept|
  {
    kept, droppedNow := [], dropped;
    for i := 0 to |parts|
      invariant kept == KeptParts(parts[..i], thinking)
      invariant droppedNow == dropped + i - |kept|
    {
      assert parts[..i + 1][..i] == parts[..i];
      var p := parts[i];
      if !thinking && ThoughtBearing(p) {
        droppedNow := droppedNow + 1;
        continue;
      }
      if FallsThrough(p) {
        droppedNow := droppedNow + 1;
        continue;
      }
      kept := kept + [p];
    }
    assert parts[..|parts|] == parts;
  }

  /** Input parts equal output parts plus dropped entries. */
  method SafeContents(cs: seq<RichContent>, thinking: bool) returns (messages: seq<RichContent>, dropped: nat)
    ensures messages == Sanitized(cs, thinking)
    ensures |AllParts(cs)| == |AllParts(messages)| + dropped
  {
    messages, dropped := [], 0;
    for i := 0 to |cs|
      invariant messages == Sanitized(cs[..i], thinking)
      invariant |AllParts(cs[..i])| == |AllParts(messages)| + dropped
    {
      assert cs[..i + 1][..i] == cs[..i];
      var kept, now := SanitizeParts(cs[i].parts, thinking, dropped);
      dropped := now;
      if kept == [] { continue; }
      var m := RichContent(cs[i].role, kept);
      assert (messages + [m])[..|messages|] == messages;
      messages := messages + [m];
    }
    assert cs[..|cs|] == cs;
  }

  // ---------------------------------------------------------------- what reaches the converter

  lemma {:induction false} KeptPartsAre(parts: seq<RichPart>, thinking: bool)
    ensures forall p :: p in KeptParts(parts, thinking) <==> p in parts && Kept(p, thinking)
  {
    if parts != [] {
      KeptPartsAre(parts[..|parts| - 1], thinking);
      assert parts == parts[..|parts| - 1] + [parts[|parts| - 1]];
    }
  }

  /** No message is empty, and no part of one is rejected by the converter or is reasoning while thinking is off. */
  lemma {:induction false} EveryMessageConverts(cs: seq<RichContent>, thinking: bool)
    ensures forall m :: m in Sanitized(cs, thinking) ==> m.parts != [] && forall p :: p in m.parts ==> Kept(p, thinking)
    ensures forall m :: m in Sanitized(cs, thinking) ==>
              exists c :: c in cs && m == RichContent(c.role, KeptParts(c.parts, thinking))
  {
    if cs != [] {
      EveryMessageConverts(cs[..|cs| - 1], thinking);
      KeptPartsAre(cs[|cs| - 1].parts, thinking);
    }
  }

  /** What gets through: a part that carries text, a tool part, media, code or its result, or signed reasoning; and
      with thinking off, only one that carries no reasoning at all. Nothing else comes out. */
  lemma PartsThatSurvive(cs: seq<RichContent>, thinking: bool, p: RichPart)
    ensures p in AllParts(Sanitized(cs, thinking)) <==>
            && p in AllParts(cs) && (thinking || (!p.thought && !p.signature))
            && (p.text || p.call.Some? || p.response.Some? || p.inlineMedia || p.code || p.codeResult
                || (p.thought && p.signature))
  {
    OutputIsInOrderFilter(cs, thinking);
    KeptPartsAre(AllParts(cs), thinking);
  }

  lemma {:induction false} FilterConcat(a: seq<RichPart>, b: seq<RichPart>, thinking: bool)
    ensures KeptParts(a + b, thinking) == KeptParts(a, thinking) + KeptParts(b, thinking)
  {
    if b == [] {
      assert a + b == a;
    } else {
      FilterConcat(a, b[..|b| - 1], thinking);
      assert (a + b)[..|a + b| - 1] == a + b[..|b| - 1];
    }
  }

  /** Over the whole history the output is an in-order filter: its parts, read in sequence, are the kept parts
      of the input, read in sequence. */
  lemma {:induction false} OutputIsInOrderFilter(cs: seq<RichContent>, thinking: bool)
    ensures AllParts(Sanitized(cs, thinking)) == KeptParts(AllParts(cs), thinking)
  {
    if cs != [] {
      var init, c, out := cs[..|cs| - 1], cs[|cs| - 1], Sanitized(cs, thinking);
      OutputIsInOrderFilter(init, thinking);
      FilterConcat(AllParts(init), c.parts, thinking);
      if KeptParts(c.parts, thinking) == [] {
        assert out == Sanitized(init, thinking);
      } else {
        assert out[..|out| - 1] == Sanitized(init, thinking);
      }
    }
  }

  lemma {:induction false} FilterAgain(parts: seq<RichPart>, thinking: bool)
    requires forall p :: p in parts ==> Kept(p, thinking)
    ensures KeptParts(parts, thinking) == parts
  {
    if parts != [] {
      FilterAgain(parts[..|parts| - 1], thinking);
      assert parts == parts[..|parts| - 1] + [parts[|parts| - 1]];
    }
  }

  /** Sanitizing an already sanitized history changes nothing. */
  lemma {:induction false} SanitizeIsIdempotent(cs: seq<RichContent>, thinking: bool)
    ensures Sanitized(Sanitized(cs, thinking), thinking) == Sanitized(cs, thinking)
  {
    if cs != [] {
      var init, c, out := cs[..|cs| - 1], cs[|cs| - 1], Sanitized(cs, thinking);
      var kept := KeptParts(c.parts, thinking);
      SanitizeIsIdempotent(init, thinking);
      KeptPartsAre(c.parts, thinking);
      FilterAgain(kept, thinking);
      if kept == [] {
        assert out == Sanitized(init, thinking);
      } else {
        assert out[..|out| - 1] == Sanitized(init, thinking);
      }
    }
  }

  predicate IsTool(p: RichPart) { p.call.Some? || p.response.Some? }

  /** The tool parts of a history, in order: its calls and responses. */
  function ToolParts(parts: seq<RichPart>): seq<RichPart> {
    if parts == [] then []
    else ToolParts(parts[..|parts| - 1]) + if IsTool(parts[|parts| - 1]) then [parts[|parts| - 1]] else []
  }

  predicate LosesTool(p: RichPart, thinking: bool) { IsTool(p) && !thinking && ThoughtBearing(p) }

  lemma {:induction false} ToolPartsKept(parts: seq<RichPart>, thinking: bool)
    ensures |ToolParts(KeptParts(parts, thinking))| <= |ToolParts(parts)|
    ensures ToolParts(KeptParts(parts, thinking)) == ToolParts(parts) <==>
            forall p :: p in parts ==> !LosesTool(p, thinking)
  {
    if parts != [] {
      var init, last := parts[..|parts| - 1], parts[|parts| - 1];
      ToolPartsKept(init, thinking);
      assert parts == init + [last];
      assert (forall p :: p in parts ==> !LosesTool(p, thinking)) <==>
             (forall p :: p in init ==> !LosesTool(p, thinking)) && !LosesTool(last, thinking);
      var kept, keptInit := KeptParts(parts, thinking), KeptParts(init, thinking);
      var all, some := ToolParts(init), ToolParts(keptInit);
      if Kept(last, thinking) { assert kept[..|kept| - 1] == keptInit; } else { assert kept == keptInit; }
      if !IsTool(last) {
        assert all + [] == all && some + [] == some;
        assert ToolParts(parts) == all && ToolParts(kept) == some;
      } else if Kept(last, thinking) {
        ToolSnoc(some, all, last);
      } else {
        assert LosesTool(last, thinking);
        assert |ToolParts(kept)| < |ToolParts(parts)|;
      }
    }
  }

  lemma ToolSnoc(a: seq<RichPart>, b: seq<RichPart>, x: RichPart)
    ensures a + [x] == b + [x] <==> a == b
    ensures |a| <= |b| ==> a != b + [x]
  {
    assert (a + [x])[..|a|] == a && (b + [x])[..|b|] == b;
  }

  /** Every call and every response survives, in order, exactly when thinking is on or no tool part carries
      reasoning. */
  lemma ToolPairsSurviveIff(cs: seq<RichContent>, thinking: bool)
    ensures ToolParts(AllParts(Sanitized(cs, thinking))) == ToolParts(AllParts(cs)) <==>
            thinking || forall p :: p in AllParts(cs) ==> !(IsTool(p) && ThoughtBearing(p))
  {
    OutputIsInOrderFilter(cs, thinking);
    ToolPartsKept(AllParts(cs), thinking);
    assert forall p :: LosesTool(p, thinking) <==> !thinking && IsTool(p) && ThoughtBearing(p);
  }

  // ---------------------------------------------------------------- pairs

  /** Matched by id when the response has one, by name otherwise. */
  predicate Matches(p: RichPart, r: ToolRef) {
    p.call.Some? && Answers(Call(p.call.value.id, p.call.value.name), Response(r.id, r.name, ""))
  }

  predicate Asks(p: RichPart) {
    p.response.Some? && (p.response.value.id != "" || p.response.value.name != "")
  }

  predicate Answered(parts: seq<RichPart>, r: ToolRef) {
    exists p :: p in parts && Matches(p, r)
  }

  /** Every response has its call somewhere. */
  predicate Paired(parts: seq<RichPart>) {
    forall p :: p in parts && Asks(p) ==> Answered(parts, p.response.value)
  }

  predicate Plain(p: RichPart) { !ThoughtBearing(p) }

  lemma AnsweredAlike(a: seq<RichPart>, b: seq<RichPart>, r: ToolRef)
    requires forall p :: IsTool(p) ==> (p in a <==> p in b)
    ensures Answered(a, r) <==> Answered(b, r)
  {
  }

  lemma ToolsKept(cs: seq<RichContent>, thinking: bool, p: RichPart)
    requires IsTool(p)
    ensures p in AllParts(Sanitized(cs, thinking)) <==> p in AllParts(cs) && (thinking || Plain(p))
  {
    PartsThatSurvive(cs, thinking, p);
  }

  lemma PairedWithThinking(cs: seq<RichContent>)
    ensures Paired(AllParts(Sanitized(cs, true))) <==> Paired(AllParts(cs))
  {
    var parts, on := AllParts(cs), AllParts(Sanitized(cs, true));
    forall p | IsTool(p) { ToolsKept(cs, true, p); }
    forall r: ToolRef { AnsweredAlike(on, parts, r); }
    assert forall p :: Asks(p) ==> (p in on <==> p in parts);
  }

  /** Some part without reasoning is a call that matches. */
  predicate PlainlyAnswered(parts: seq<RichPart>, r: ToolRef) {
    exists q :: q in parts && Plain(q) && Matches(q, r)
  }

  lemma PairedWithoutThinking(cs: seq<RichContent>)
    ensures Paired(AllParts(Sanitized(cs, false))) <==>
            forall p :: p in AllParts(cs) && Plain(p) && Asks(p) ==> PlainlyAnswered(AllParts(cs), p.response.value)
  {
    var parts, off := AllParts(cs), AllParts(Sanitized(cs, false));
    forall p | IsTool(p) { ToolsKept(cs, false, p); }
    forall r: ToolRef
      ensures Answered(off, r) <==> PlainlyAnswered(parts, r)
    {
      assert forall q :: Matches(q, r) ==> (q in off <==> q in parts && Plain(q));
    }
    assert forall p :: Asks(p) ==> (p in off <==> p in parts && Plain(p));
  }

  /** Dropping reasoning orphans a response exactly when the response is plain and every call it matches
      carries reasoning: with thinking off, the sanitized history is paired if and only if each plain response
      has a plain call. With thinking on, sanitizing never changes whether a history is paired. */
  lemma SanitizedIsPairedIff(cs: seq<RichContent>)
    ensures Paired(AllParts(Sanitized(cs, true))) <==> Paired(AllParts(cs))
    ensures Paired(AllParts(Sanitized(cs, false))) <==>
            forall p :: p in AllParts(cs) && Plain(p) && Asks(p) ==> PlainlyAnswered(AllParts(cs), p.response.value)
  {
    PairedWithThinking(cs);
    PairedWithoutThinking(cs);
  }

  /** With thinking on no reasoning text is lost, signed or not. */
  lemma ThinkingTextSurvives(cs: seq<RichContent>, p: RichPart)
    requires p in AllParts(cs) && p.text
    ensures p in AllParts(Sanitized(cs, true))
  {
    OutputIsInOrderFilter(cs, true);
    KeptPartsAre(AllParts(cs), true);
  }
}
