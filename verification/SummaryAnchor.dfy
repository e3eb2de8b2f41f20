/** Anchored summaries: a summary head that falls into a later dropped prefix is recognized by its marker
    and fed back, body only, as the anchor of the next summary. */
module SummaryAnchor {
  import opened Basics
  import opened Transcript
  import opened TailTrim

  const ANCHOR_MAX_CHARS := 24_000

  function Capped(s: string): string { s[..Min(ANCHOR_MAX_CHARS, |s|)] }

  /** Decided by the first part that holds text: marker means anchor, any other text means not. */
  function AnchorOfParts(parts: seq<Part>): Option<string> {
    if parts == [] then None
    else if parts[0].Text? && SUMMARY_MARKER <= parts[0].text then Some(parts[0].text[|SUMMARY_MARKER|..])
    else if parts[0].Text? && parts[0].text != "" then None
    else AnchorOfParts(parts[1..])
  }

  predicate SilentBefore(parts: seq<Part>, i: nat)
    requires i <= |parts|
  {
    forall k :: 0 <= k < i ==> !parts[k].Text? || parts[k].text == ""
  }

  /** A content is an anchor if and only if the first text it carries is the marker with a body behind it. */
  lemma {:induction false} AnchorOfPartsIff(parts: seq<Part>, body: string)
    ensures AnchorOfParts(parts) == Some(body) <==>
            exists i: nat :: i < |parts| && parts[i] == Text(SUMMARY_MARKER + body) && SilentBefore(parts, i)
  {
    if parts != [] {
      var p, rest := parts[0], parts[1..];
      AnchorOfPartsIff(rest, body);
      if p.Text? && SUMMARY_MARKER <= p.text {
        assert p.text == SUMMARY_MARKER + p.text[|SUMMARY_MARKER|..];
        assert (SUMMARY_MARKER + body)[|SUMMARY_MARKER|..] == body;
        if p.text == SUMMARY_MARKER + body { assert SilentBefore(parts, 0); }
      } else if !p.Text? || p.text == "" {
        SilentStep(parts, body);
      }
    }
  }

  lemma SilentStep(parts: seq<Part>, body: string)
    requires parts != [] && (!parts[0].Text? || parts[0].text == "")
    ensures (exists i: nat :: i < |parts| && parts[i] == Text(SUMMARY_MARKER + body) && SilentBefore(parts, i)) <==>
            exists i: nat :: i < |parts[1..]| && parts[1..][i] == Text(SUMMARY_MARKER + body)
                             && SilentBefore(parts[1..], i)
  {
    var rest := parts[1..];
    if i: nat :| i < |parts| && parts[i] == Text(SUMMARY_MARKER + body) && SilentBefore(parts, i) {
      assert rest[i - 1] == parts[i] && SilentBefore(rest, i - 1);
    }
    if i: nat :| i < |rest| && rest[i] == Text(SUMMARY_MARKER + body) && SilentBefore(rest, i) {
      assert parts[i + 1] == rest[i] && SilentBefore(parts, i + 1);
    }
  }

  method AnchorTextFromContent(c: Content) returns (anchor: Option<string>)
    ensures anchor == AnchorOfParts(c.parts)
  {
    for i := 0 to |c.parts|
      invariant AnchorOfParts(c.parts) == AnchorOfParts(c.parts[i..])
    {
      var p := c.parts[i];
      if p.Text? && SUMMARY_MARKER <= p.text { return Some(p.text[|SUMMARY_MARKER|..]); }
      if p.Text? && p.text != "" { return None; }
    }
    anchor := None;
  }

  /** The freshest anchor among the dropped contents. */
  function AnchorFromDropped(dropped: seq<Content>): Option<string> {
    if dropped == [] then None
    else
      var body := AnchorOfParts(dropped[|dropped| - 1].parts);
      if body.Some? then body else AnchorFromDropped(dropped[..|dropped| - 1])
  }

  method FindAnchor(dropped: seq<Content>) returns (found: Option<string>)
    ensures found == AnchorFromDropped(dropped)
  {
    found := None;
    for i := 0 to |dropped|
      invariant found == AnchorFromDropped(dropped[..i])
    {
      assert dropped[..i + 1][..i] == dropped[..i];
      var body := AnchorTextFromContent(dropped[i]);
      if body.Some? { found := body; }
    }
    assert dropped[..|dropped|] == dropped;
  }

  /** The anchor handed to the summarizer: the one in the dropped prefix, or else the stored one. */
  function AnchorFor(anchored: bool, stored: Option<string>, dropped: seq<Content>): Option<string> {
    if !anchored then None
    else if AnchorFromDropped(dropped).Some? then AnchorFromDropped(dropped)
    else stored
  }

  lemma {:induction false} NoAnchorAfter(front: seq<Content>, rest: seq<Content>)
    requires forall c :: c in rest ==> AnchorOfParts(c.parts) == None
    ensures AnchorFromDropped(front + rest) == AnchorFromDropped(front)
  {
    if rest == [] {
      assert front + rest == front;
    } else {
      assert rest[|rest| - 1] in rest;
      assert (front + rest)[..|front + rest| - 1] == front + rest[..|rest| - 1];
      NoAnchorAfter(front, rest[..|rest| - 1]);
    }
  }

  lemma PreservedTextIsNoAnchor(p: Part)
    requires p.Response?
    ensures AnchorOfParts(PreservedText(p).parts) == None
  {
    var text := PreservedText(p).parts[0].text;
    assert text[4] == PRESERVED_PREFIX[4] == 's';
    assert SUMMARY_MARKER[4] == 'v';
    assert !(SUMMARY_MARKER <= text);
  }

  lemma PreservedTextsHoldNoAnchor(dropped: seq<Content>)
    ensures forall c :: c in ProtectedTexts(dropped) ==> AnchorOfParts(c.parts) == None
  {
    ProtectedTextsAre(dropped);
    forall c | c in ProtectedTexts(dropped)
      ensures AnchorOfParts(c.parts) == None
    {
      var d, p :| d in dropped && p in d.parts && ProtectedResult(p) && c == PreservedText(p);
      PreservedTextIsNoAnchor(p);
    }
  }

  lemma SummaryIsFound(before: seq<Content>, summary: string, rest: seq<Content>)
    requires forall c :: c in rest ==> AnchorOfParts(c.parts) == None
    ensures AnchorFromDropped(before + [SummaryContent(summary)] + rest) == Some(summary)
  {
    var head, front := SummaryContent(summary), before + [SummaryContent(summary)];
    NoAnchorAfter(front, rest);
    assert (SUMMARY_MARKER + summary)[|SUMMARY_MARKER|..] == summary;
    assert AnchorOfParts(head.parts) == Some(summary);
  }

  /** Round trip: whatever was dropped before, a head made from `summary` gives back exactly `summary`. */
  lemma AnchorRoundTrip(before: seq<Content>, dropped: seq<Content>, summary: string, after: seq<Content>)
    requires forall c :: c in after ==> AnchorOfParts(c.parts) == None
    ensures AnchorFromDropped(before + SummaryHead(dropped, Some(summary)) + after) == Some(summary)
  {
    var head, texts := [SummaryContent(summary)], ProtectedTexts(dropped);
    PreservedTextsHoldNoAnchor(dropped);
    SummaryIsFound(before, summary, texts + after);
    assert before + (head + texts) + after == before + head + (texts + after);
  }

  predicate NoAnchorBetween(cs: seq<Content>, lo: nat, hi: nat) {
    forall i :: lo <= i < hi && i < |cs| ==> AnchorOfParts(cs[i].parts) == None
  }

  lemma CappedIffShort(summary: string)
    ensures Capped(summary) == summary <==> |summary| <= ANCHOR_MAX_CHARS
  {
    assert |summary| > ANCHOR_MAX_CHARS ==> |Capped(summary)| < |summary|;
  }

  /** Across two trims: when the second one drops the first one's summary, with any part of what stands behind
      it, and nobody else wrote the marker in between, the summarizer is handed the first summary in full. What
      the session stores of that summary is something else exactly when the summary is longer than the cap. */
  lemma SecondTrimFindsFirstSummary(cs: seq<Content>, tail: nat, summary: string, later: seq<Content>, tail2: nat)
    requires CutPoint(cs, tail) > 0
    requires var next := Trimmed(cs, tail, Some(summary)) + later;
             var head := SummaryHead(cs[..CutPoint(cs, tail)], Some(summary));
             CutPoint(next, tail2) > 0 && NoAnchorBetween(next, |head|, CutPoint(next, tail2))
    ensures var next, stored := Trimmed(cs, tail, Some(summary)) + later, Some(Capped(summary));
            var handed := AnchorFor(true, stored, next[..CutPoint(next, tail2)]);
            handed == Some(summary) && (handed != stored <==> |summary| > ANCHOR_MAX_CHARS)
  {
    var next := Trimmed(cs, tail, Some(summary)) + later;
    PreservedTextsHoldNoAnchor(cs[..CutPoint(cs, tail)]);
    TrimOpensWithHead(cs, tail, summary, later);
    PrefixFindsSummary(next, summary, ProtectedTexts(cs[..CutPoint(cs, tail)]), CutPoint(next, tail2));
    CappedIffShort(summary);
  }

  lemma TrimOpensWithHead(cs: seq<Content>, tail: nat, summary: string, later: seq<Content>)
    requires CutPoint(cs, tail) > 0
    ensures SummaryHead(cs[..CutPoint(cs, tail)], Some(summary)) <= Trimmed(cs, tail, Some(summary)) + later
  {
  }

  lemma PrefixFindsSummary(next: seq<Content>, summary: string, texts: seq<Content>, k: nat)
    requires 0 < k <= |next| && [SummaryContent(summary)] + texts <= next
    requires forall c :: c in texts ==> AnchorOfParts(c.parts) == None
    requires NoAnchorBetween(next, |texts| + 1, k)
    ensures AnchorFromDropped(next[..k]) == Some(summary)
  {
    var rest := next[1..k];
    forall c | c in rest
      ensures AnchorOfParts(c.parts) == None
    {
      var i :| 0 <= i < |rest| && rest[i] == c;
      assert c == next[i + 1];
      if i < |texts| { assert c == texts[i]; }
    }
    SummaryIsFound([], summary, rest);
    assert next[..k] == [] + [SummaryContent(summary)] + rest;
  }
}
