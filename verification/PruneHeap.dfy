/** The prune as the plugin runs it: on response objects that are shared with the outgoing request and
    overwritten in place, so that the reduction persists. */
module PruneHeap {
  import opened Basics
  import opened Transcript
  import TailTrim
  import opened Prune

  class FunctionResponse {
    const id: string
    const name: string
    var response: string
    constructor (id: string, name: string, response: string)
      ensures this.id == id && this.name == name && this.response == response
    {
      this.id, this.name, this.response := id, name, response;
    }
  }

  /** A part either is a plain value or refers to a response object. */
  datatype HeapPart = Plain(part: Part) | Result(fr: FunctionResponse)
  datatype HeapContent = HeapContent(role: Role, parts: seq<HeapPart>)

  ghost predicate PartsWithin(parts: seq<HeapPart>, objects: set<FunctionResponse>) {
    forall k :: 0 <= k < |parts| && parts[k].Result? ==> parts[k].fr in objects
  }

  /** `objects` holds every response object of `cs`. */
  ghost predicate Within(cs: seq<HeapContent>, objects: set<FunctionResponse>) {
    forall i :: 0 <= i < |cs| ==> PartsWithin(cs[i].parts, objects)
  }

  predicate Holds(c: HeapContent, fr: FunctionResponse) {
    Result(fr) in c.parts
  }

  /** `v` is what the contents say, part by part. */
  ghost predicate Says(cs: seq<HeapContent>, objects: set<FunctionResponse>, v: seq<Content>)
    requires Within(cs, objects)
    reads objects
  {
    |v| == |cs| && forall i :: 0 <= i < |cs| ==> ContentSays(cs[i], objects, v[i])
  }

  ghost predicate ContentSays(c: HeapContent, objects: set<FunctionResponse>, v: Content)
    requires PartsWithin(c.parts, objects)
    reads objects
  {
    && v.role == c.role && |v.parts| == |c.parts|
    && forall k :: 0 <= k < |c.parts| ==> PartView(c.parts[k], objects) == v.parts[k]
  }

  ghost function PartView(p: HeapPart, objects: set<FunctionResponse>): Part
    requires p.Result? ==> p.fr in objects
    reads objects
  {
    match p
    case Plain(part) => if part.Response? then Blob else part
    case Result(fr) => Response(fr.id, fr.name, fr.response)
  }

  ghost function PartsView(parts: seq<HeapPart>, objects: set<FunctionResponse>): (v: seq<Part>)
    requires PartsWithin(parts, objects)
    reads objects
    ensures |v| == |parts|
  {
    if parts == [] then []
    else PartsView(parts[..|parts| - 1], objects) + [PartView(parts[|parts| - 1], objects)]
  }

  ghost function ContentView(c: HeapContent, objects: set<FunctionResponse>): Content
    requires PartsWithin(c.parts, objects)
    reads objects
  {
    Content(c.role, PartsView(c.parts, objects))
  }

  /** What the heap contents say right now. */
  ghost function View(cs: seq<HeapContent>, objects: set<FunctionResponse>): (v: seq<Content>)
    requires Within(cs, objects)
    reads objects
    ensures |v| == |cs|
  {
    if cs == [] then []
    else View(cs[..|cs| - 1], objects) + [ContentView(cs[|cs| - 1], objects)]
  }

  lemma {:induction false} PartsViewAt(parts: seq<HeapPart>, objects: set<FunctionResponse>, k: nat)
    requires PartsWithin(parts, objects) && k < |parts|
    ensures PartsView(parts, objects)[k] == PartView(parts[k], objects)
  {
    if k < |parts| - 1 { PartsViewAt(parts[..|parts| - 1], objects, k); }
  }

  lemma {:induction false} ViewAt(cs: seq<HeapContent>, objects: set<FunctionResponse>, i: nat)
    requires Within(cs, objects) && i < |cs|
    ensures View(cs, objects)[i] == ContentView(cs[i], objects)
  {
    if i < |cs| - 1 { ViewAt(cs[..|cs| - 1], objects, i); }
  }

  lemma TokensStep(parts: seq<HeapPart>, objects: set<FunctionResponse>, k: nat, m: string -> nat)
    requires PartsWithin(parts, objects) && k < |parts|
    ensures PartTokens(PartsView(parts[..k + 1], objects), m) ==
            PartTokens(PartsView(parts[..k], objects), m) + if parts[k].Result? then m(parts[k].fr.response) else 0
  {
    assert parts[..k + 1][..k] == parts[..k];
  }

  method ContentResponseTokens(c: HeapContent, ghost objects: set<FunctionResponse>, m: string -> nat)
      returns (total: nat)
    requires PartsWithin(c.parts, objects)
    ensures total == PartTokens(ContentView(c, objects).parts, m)
  {
    total := 0;
    for k := 0 to |c.parts|
      invariant total == PartTokens(PartsView(c.parts[..k], objects), m)
    {
      TokensStep(c.parts, objects, k, m);
      if c.parts[k].Result? { total := total + m(c.parts[k].fr.response); }
    }
    assert c.parts[..|c.parts|] == c.parts;
  }

  /** One step of the walk, in terms of the heap content it looks at. */
  lemma HeapWalkStep(cs: seq<HeapContent>, objects: set<FunctionResponse>, b: nat, running: nat, kn: Knobs)
    requires Within(cs, objects) && 0 < b <= |cs| && running < kn.protect
    ensures Walk(View(cs, objects), b, running, kn) ==
            Walk(View(cs, objects), b - 1,
                 running + PartTokens(ContentView(cs[b - 1], objects).parts, kn.measure), kn)
  {
    ViewAt(cs, objects, b - 1);
    WalkStep(View(cs, objects), b, running, kn);
  }

  method PruneProtectedBoundary(cs: seq<HeapContent>, ghost objects: set<FunctionResponse>, kn: Knobs) returns (b: nat)
    requires Within(cs, objects)
    ensures b == Boundary(View(cs, objects), kn)
  {
    ghost var view := View(cs, objects);
    ghost var boundary := Boundary(view, kn);
    var running := 0;
    b := |cs| - Min(kn.tail, |cs|);
    while b > 0 && running < kn.protect
      invariant 0 <= b <= |cs| && running >= 0
      invariant Walk(view, b, running, kn) == boundary
      decreases b
    {
      var more := ContentResponseTokens(cs[b - 1], objects, kn.measure);
      HeapWalkStep(cs, objects, b, running, kn);
      running := running + more;
      b := b - 1;
    }
  }

  /** From an unprotected tool, large, and larger than the placeholder. */
  ghost predicate WorthClearing(fr: FunctionResponse, m: string -> nat)
    reads fr
  {
    && fr.name !in {"LoadGaPlaybook", "select_recipe"}
    && m(fr.response) >= 1_000 && m(fr.response) > m(PLACEHOLDER)
  }

  lemma FreedStep(parts: seq<HeapPart>, objects: set<FunctionResponse>, k: nat, m: string -> nat)
    requires PartsWithin(parts, objects) && k < |parts|
    ensures FreedParts(PartsView(parts[..k + 1], objects), m) ==
            FreedParts(PartsView(parts[..k], objects), m) +
            if parts[k].Result? && WorthClearing(parts[k].fr, m) then m(parts[k].fr.response) - m(PLACEHOLDER) else 0
  {
    assert parts[..k + 1][..k] == parts[..k];
  }

  lemma TakeOneMore<T>(s: seq<T>, k: nat)
    requires k < |s|
    ensures s[..k + 1] == s[..k] + [s[k]]
  {
  }

  method FindInContent(c: HeapContent, ghost objects: set<FunctionResponse>, m: string -> nat)
    returns (pending: seq<FunctionResponse>, freed: nat)
    requires PartsWithin(c.parts, objects)
    ensures freed == FreedParts(ContentView(c, objects).parts, m)
    ensures forall fr :: fr in pending <==> Holds(c, fr) && WorthClearing(fr, m)
  {
    pending, freed := [], 0;
    for k := 0 to |c.parts|
      invariant freed == FreedParts(PartsView(c.parts[..k], objects), m)
      invariant forall fr :: fr in pending <==> Result(fr) in c.parts[..k] && WorthClearing(fr, m)
    {
      FreedStep(c.parts, objects, k, m);
      TakeOneMore(c.parts, k);
      if c.parts[k].Result? {
        var fr := c.parts[k].fr;
        if fr.name !in TailTrim.PRUNE_PROTECTED_TOOLS {
          var size := m(fr.response);
          if size >= PER_RESULT_MINIMUM && size > m(PLACEHOLDER) {
            pending := pending + [fr];
            freed := freed + size - m(PLACEHOLDER);
          }
        }
      }
    }
    assert c.parts[..|c.parts|] == c.parts;
  }

  ghost predicate InPrefix(cs: seq<HeapContent>, b: nat, fr: FunctionResponse)
    requires b <= |cs|
  {
    exists i :: 0 <= i < b && Holds(cs[i], fr)
  }

  lemma PrefixGrows(cs: seq<HeapContent>, i: nat)
    requires i < |cs|
    ensures forall fr :: InPrefix(cs, i + 1, fr) <==> InPrefix(cs, i, fr) || Holds(cs[i], fr)
  {
  }

  /** The objects below `b` whose payload is worth clearing, and what clearing them frees. */
  method FindClearable(cs: seq<HeapContent>, ghost objects: set<FunctionResponse>, b: nat, m: string -> nat)
    returns (pending: seq<FunctionResponse>, freed: nat)
    requires Within(cs, objects) && b <= |cs|
    ensures freed == FreedTotal(View(cs[..b], objects), m)
    ensures forall fr :: fr in pending <==> InPrefix(cs, b, fr) && WorthClearing(fr, m)
  {
    pending, freed := [], 0;
    for i := 0 to b
      invariant freed == FreedTotal(View(cs[..i], objects), m)
      invariant forall fr :: fr in pending <==> InPrefix(cs, i, fr) && WorthClearing(fr, m)
    {
      var more, gained := FindInContent(cs[i], objects, m);
      assert cs[..i + 1][..i] == cs[..i];
      PrefixGrows(cs, i);
      assert View(cs[..i + 1], objects) == View(cs[..i], objects) + [ContentView(cs[i], objects)];
      assert forall fr :: fr in pending + more <==> fr in pending || fr in more;
      pending := pending + more;
      freed := freed + gained;
    }
  }

  method Overwrite(pending: seq<FunctionResponse>)
    modifies pending
    ensures forall fr :: fr in pending ==> fr.response == PLACEHOLDER
  {
    for i := 0 to |pending|
      invariant forall k :: 0 <= k < i ==> pending[k].response == PLACEHOLDER
    {
      pending[i].response := PLACEHOLDER;
    }
  }

  lemma {:induction false} PartsViewIs(parts: seq<HeapPart>, objects: set<FunctionResponse>, v: seq<Part>)
    requires PartsWithin(parts, objects) && |v| == |parts|
    requires forall k :: 0 <= k < |parts| ==> PartView(parts[k], objects) == v[k]
    ensures PartsView(parts, objects) == v
  {
    if parts != [] {
      PartsViewIs(parts[..|parts| - 1], objects, v[..|parts| - 1]);
    }
  }

  lemma ViewSays(cs: seq<HeapContent>, objects: set<FunctionResponse>)
    requires Within(cs, objects)
    ensures Says(cs, objects, View(cs, objects))
  {
    forall i | 0 <= i < |cs|
      ensures ContentSays(cs[i], objects, View(cs, objects)[i])
    {
      ViewAt(cs, objects, i);
      forall k | 0 <= k < |cs[i].parts| { PartsViewAt(cs[i].parts, objects, k); }
    }
  }

  lemma {:induction false} SaysIsView(cs: seq<HeapContent>, objects: set<FunctionResponse>, v: seq<Content>)
    requires Within(cs, objects) && Says(cs, objects, v)
    ensures View(cs, objects) == v
  {
    if cs != [] {
      var last := |cs| - 1;
      SaysIsView(cs[..last], objects, v[..last]);
      assert ContentSays(cs[last], objects, v[last]);
      PartsViewIs(cs[last].parts, objects, v[last].parts);
    }
  }

  lemma {:induction false} ViewPrefix(cs: seq<HeapContent>, objects: set<FunctionResponse>, b: nat)
    requires Within(cs, objects) && b <= |cs|
    ensures View(cs, objects)[..b] == View(cs[..b], objects)
  {
    if b == |cs| {
      assert cs[..b] == cs;
    } else {
      var init := cs[..|cs| - 1];
      ViewPrefix(init, objects, b);
      assert init[..b] == cs[..b];
    }
  }

  /** Some payload worth clearing below `b` belongs to an object that is also held at or above `b`. */
  ghost predicate Straddled(cs: seq<HeapContent>, objects: set<FunctionResponse>, b: nat, m: string -> nat)
    requires b <= |cs|
    reads objects
  {
    exists fr, j :: fr in objects && b <= j < |cs| && Holds(cs[j], fr) && InPrefix(cs, b, fr) && WorthClearing(fr, m)
  }

  ghost predicate Collected(cs: seq<HeapContent>, b: nat, m: string -> nat, fr: FunctionResponse)
    requires b <= |cs|
    reads fr
  {
    InPrefix(cs, b, fr) && WorthClearing(fr, m)
  }

  /** The in-place prune, whatever objects the contents share. Exactly the objects collected below the boundary
      are overwritten; and what the contents say afterwards is the prune of what they said before, if and only
      if no object so cleared is also held in the protected region. */
  method MaybePruneToolOutputs(cs: seq<HeapContent>, ghost objects: set<FunctionResponse>, kn: Knobs)
    requires Within(cs, objects) && kn.Valid()
    modifies objects
    ensures var was := old(View(cs, objects));
            var commits, b := Commits(was, kn), Boundary(was, kn);
            && (forall fr :: fr in objects ==>
                  fr.response == if commits && old(Collected(cs, b, kn.measure, fr)) then PLACEHOLDER
                                 else old(fr.response))
            && (View(cs, objects) == Pruned(was, kn) <==> !(commits && old(Straddled(cs, objects, b, kn.measure))))
  {
    var b := PruneProtectedBoundary(cs, objects, kn);
    if b == 0 { return; }
    var pending, freed := FindClearable(cs, objects, b, kn.measure);
    ViewPrefix(cs, objects, b);
    if freed < kn.minimum { return; }
    CommitClears(cs, objects, b, pending, kn.measure);
  }

  method CommitClears(cs: seq<HeapContent>, ghost objects: set<FunctionResponse>, ghost b: nat,
                      pending: seq<FunctionResponse>, ghost m: string -> nat)
    requires Within(cs, objects) && b <= |cs|
    requires forall fr :: fr in pending <==> InPrefix(cs, b, fr) && WorthClearing(fr, m)
    modifies objects
    ensures forall fr :: fr in objects ==>
              fr.response == if old(Collected(cs, b, m, fr)) then PLACEHOLDER else old(fr.response)
    ensures View(cs, objects) == ClearedBelow(old(View(cs, objects)), b, m) <==> !old(Straddled(cs, objects, b, m))
  {
    ghost var before := View(cs, objects);
    ViewSays(cs, objects);
    PendingMarks(cs, objects, b, pending, m);
    Overwrite(pending);
    forall i | 0 <= i < |cs|
      ensures Became(cs[i], objects, pending, before[i])
    {
      assert old(ContentSays(cs[i], objects, before[i]));
    }
    if HeldAbove(cs, b, pending) {
      SharedIsShown(cs, objects, pending, before, b, m);
    } else {
      ApartIsCleared(cs, objects, pending, before, b, m);
    }
  }

  /** Some object of `pending` is held at or above `b`. */
  ghost predicate HeldAbove(cs: seq<HeapContent>, b: nat, pending: seq<FunctionResponse>) {
    exists j, fr :: b <= j < |cs| && fr in pending && Holds(cs[j], fr)
  }

  /** `pending` are the objects held below `b` that said something worth clearing in `v`. */
  ghost predicate Marks(cs: seq<HeapContent>, b: nat, pending: seq<FunctionResponse>, v: seq<Content>, m: string -> nat)
    requires b <= |cs|
  {
    && |v| == |cs|
    && (forall i :: 0 <= i < |cs| ==> |v[i].parts| == |cs[i].parts|)
    && forall i, k :: 0 <= i < |cs| && 0 <= k < |cs[i].parts| && cs[i].parts[k].Result? ==>
         (cs[i].parts[k].fr in pending <==> InPrefix(cs, b, cs[i].parts[k].fr) && Clearable(v[i].parts[k], m))
  }

  lemma PendingMarks(cs: seq<HeapContent>, objects: set<FunctionResponse>, b: nat, pending: seq<FunctionResponse>,
                     m: string -> nat)
    requires Within(cs, objects) && b <= |cs|
    requires forall fr :: fr in pending <==> InPrefix(cs, b, fr) && WorthClearing(fr, m)
    ensures forall fr :: fr in pending ==> fr in objects
    ensures Marks(cs, b, pending, View(cs, objects), m)
    ensures HeldAbove(cs, b, pending) <==> Straddled(cs, objects, b, m)
  {
    ViewSays(cs, objects);
    forall fr | fr in pending
      ensures fr in objects
    {
      var i :| 0 <= i < b && Holds(cs[i], fr);
      assert PartsWithin(cs[i].parts, objects);
    }
    forall i, k | 0 <= i < |cs| && 0 <= k < |cs[i].parts| && cs[i].parts[k].Result?
      ensures Clearable(View(cs, objects)[i].parts[k], m) <==> WorthClearing(cs[i].parts[k].fr, m)
    {
      assert ContentSays(cs[i], objects, View(cs, objects)[i]);
    }
  }

  lemma SharedIsShown(cs: seq<HeapContent>, objects: set<FunctionResponse>, pending: seq<FunctionResponse>,
                      before: seq<Content>, b: nat, m: string -> nat)
    requires Within(cs, objects) && b <= |cs| && Marks(cs, b, pending, before, m) && HeldAbove(cs, b, pending)
    requires forall i :: 0 <= i < |cs| ==> Became(cs[i], objects, pending, before[i])
    ensures View(cs, objects) != ClearedBelow(before, b, m)
  {
    var j, fr :| b <= j < |cs| && fr in pending && Holds(cs[j], fr);
    var k :| 0 <= k < |cs[j].parts| && cs[j].parts[k] == Result(fr);
    assert Became(cs[j], objects, pending, before[j]);
    StraddleShows(cs, objects, pending, before, b, m, j, k);
  }

  lemma ApartIsCleared(cs: seq<HeapContent>, objects: set<FunctionResponse>, pending: seq<FunctionResponse>,
                       before: seq<Content>, b: nat, m: string -> nat)
    requires Within(cs, objects) && b <= |cs| && Marks(cs, b, pending, before, m) && !HeldAbove(cs, b, pending)
    requires forall i :: 0 <= i < |cs| ==> Became(cs[i], objects, pending, before[i])
    ensures View(cs, objects) == ClearedBelow(before, b, m)
  {
    forall i | 0 <= i < |cs|
      ensures ClearedExactly(cs[i], pending, before[i], i < b, m)
    {
      forall k | 0 <= k < |cs[i].parts| && cs[i].parts[k].Result?
        ensures cs[i].parts[k].fr in pending <==> i < b && Clearable(before[i].parts[k], m)
      {
        assert Holds(cs[i], cs[i].parts[k].fr);
      }
    }
    ClearedInPlace(cs, objects, pending, before, b, m);
  }

  /** `c` said `v` before the objects in `pending` were overwritten. */
  ghost predicate Became(c: HeapContent, objects: set<FunctionResponse>, pending: seq<FunctionResponse>, v: Content)
    requires PartsWithin(c.parts, objects)
    reads objects
  {
    && v.role == c.role && |v.parts| == |c.parts|
    && forall k :: 0 <= k < |c.parts| ==>
         match c.parts[k]
         case Plain(_) => v.parts[k] == PartView(c.parts[k], objects)
         case Result(fr) =>
           && v.parts[k].Response? && v.parts[k].id == fr.id && v.parts[k].name == fr.name
           && fr.response == if fr in pending then PLACEHOLDER else v.parts[k].payload
  }

  /** The overwritten objects of `c` are exactly the payloads worth clearing, below the boundary, and none above. */
  ghost predicate ClearedExactly(c: HeapContent, pending: seq<FunctionResponse>, v: Content, below: bool,
      m: string -> nat)
    requires |v.parts| == |c.parts|
  {
    forall k :: 0 <= k < |c.parts| && c.parts[k].Result? ==>
      (c.parts[k].fr in pending <==> below && Clearable(v.parts[k], m))
  }

  lemma ClearedInPlace(cs: seq<HeapContent>, objects: set<FunctionResponse>, pending: seq<FunctionResponse>,
                       before: seq<Content>, b: nat, m: string -> nat)
    requires Within(cs, objects) && b <= |cs| == |before|
    requires forall i :: 0 <= i < |cs| ==>
               Became(cs[i], objects, pending, before[i]) && ClearedExactly(cs[i], pending, before[i], i < b, m)
    ensures View(cs, objects) == ClearedBelow(before, b, m)
  {
    var after := ClearedBelow(before, b, m);
    forall i | 0 <= i < |cs|
      ensures ContentSays(cs[i], objects, after[i])
    {
      ClearedBelowAt(before, b, m, i);
      assert Became(cs[i], objects, pending, before[i]) && ClearedExactly(cs[i], pending, before[i], i < b, m);
      forall k | 0 <= k < |cs[i].parts|
        ensures PartView(cs[i].parts[k], objects) == after[i].parts[k]
      {
        if cs[i].parts[k].Plain? { assert !Clearable(before[i].parts[k], m); }
      }
    }
    SaysIsView(cs, objects, after);
  }

  lemma StraddleShows(cs: seq<HeapContent>, objects: set<FunctionResponse>, pending: seq<FunctionResponse>,
                      before: seq<Content>, b: nat, m: string -> nat, j: nat, k: nat)
    requires Within(cs, objects) && b <= j < |cs| == |before|
    requires Became(cs[j], objects, pending, before[j])
    requires k < |cs[j].parts| && cs[j].parts[k].Result? && cs[j].parts[k].fr in pending
    requires before[j].parts[k].Response? && before[j].parts[k].payload != PLACEHOLDER
    ensures View(cs, objects) != ClearedBelow(before, b, m)
  {
    ClearedBelowAt(before, b, m, j);
    ViewAt(cs, objects, j);
    PartsViewAt(cs[j].parts, objects, k);
  }
}
