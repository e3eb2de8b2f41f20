/** The repair pass that drops orphaned responses from a kept list with holes in it, and the adapter
    that turns contents into strategy messages and back. */
module Repair {
  import opened Basics
  import opened Transcript

  /** `a` can be obtained from `b` by deleting elements. */
  ghost predicate IsSublist<T>(a: seq<T>, b: seq<T>)
    decreases |b|
  {
    a == [] || (b != [] &&
                (|| (a[|a| - 1] == b[|b| - 1] && IsSublist(a[..|a| - 1], b[..|b| - 1]))
                 || IsSublist(a, b[..|b| - 1])))
  }

  lemma {:induction false} SublistElements<T>(a: seq<T>, b: seq<T>)
    requires IsSublist(a, b)
    ensures forall x :: x in a ==> x in b
    ensures |a| <= |b|
    decreases |b|
  {
    if a != [] {
      var b' := b[..|b| - 1];
      if a[|a| - 1] == b[|b| - 1] && IsSublist(a[..|a| - 1], b') {
        SublistElements(a[..|a| - 1], b');
        assert a == a[..|a| - 1] + [a[|a| - 1]];
      } else {
        SublistElements(a, b');
      }
    }
  }

  // ---------------------------------------------------------------- the repair pass

  /** No response of `c` lacks its call in `whole`. */
  predicate Survives(c: Content, whole: seq<Content>) {
    forall r :: r in c.parts && Demands(c, r) ==> Answered(whole, r)
  }

  function Surviving(cs: seq<Content>, whole: seq<Content>): seq<Content> {
    if cs == [] then []
    else Surviving(cs[..|cs| - 1], whole) + if Survives(cs[|cs| - 1], whole) then [cs[|cs| - 1]] else []
  }

  lemma {:induction false} SurvivingContents(cs: seq<Content>, whole: seq<Content>)
    ensures forall c :: c in Surviving(cs, whole) <==> c in cs && Survives(c, whole)
    ensures |Surviving(cs, whole)| <= |cs|
  {
    if cs != [] {
      SurvivingContents(cs[..|cs| - 1], whole);
      assert cs == cs[..|cs| - 1] + [cs[|cs| - 1]];
    }
  }

  function Repaired(kept: seq<Content>): seq<Content> {
    Surviving(kept, kept)
  }

  /** What a response is matched by: the code keeps one set of call ids and one of call names. */
  /** Some content of the list makes a call with this id. */
  predicate CallsId(cs: seq<Content>, id: string) {
    exists c, p :: c in cs && p in c.parts && p.Call? && p.id == id
  }

  predicate CallsName(cs: seq<Content>, name: string) {
    exists c, p :: c in cs && p in c.parts && p.Call? && p.name == name
  }

  lemma AnsweredByIdOrName(cs: seq<Content>, r: Part)
    requires r.Response?
    ensures Answered(cs, r) <==> if r.id != "" then CallsId(cs, r.id) else CallsName(cs, r.name)
  {
    if Answered(cs, r) {
      var c :| c in cs && HoldsCallFor(c, r);
      var p :| p in c.parts && Answers(p, r);
      assert c in cs && p in c.parts;
    }
    if r.id != "" && CallsId(cs, r.id) {
      var c, p :| c in cs && p in c.parts && p.Call? && p.id == r.id;
      assert Answers(p, r) && HoldsCallFor(c, r);
    }
    if r.id == "" && CallsName(cs, r.name) {
      var c, p :| c in cs && p in c.parts && p.Call? && p.name == r.name;
      assert Answers(p, r) && HoldsCallFor(c, r);
    }
  }

  /** What the pass keeps, on ids and names: a content goes exactly when one of its responses has an id that no call
      of the list has, or has no id and a name that no call has. A response with neither is never missed. */
  lemma RepairGoesByIdThenName(cs: seq<Content>, c: Content)
    ensures c in Repaired(cs) <==>
            c in cs && forall r :: r in c.parts && r.Response? ==>
                         && (r.id != "" ==> CallsId(cs, r.id))
                         && (r.id == "" && r.name != "" ==> CallsName(cs, r.name))
  {
    SurvivingContents(cs, cs);
    forall r: Part | r.Response? { AnsweredByIdOrName(cs, r); }
  }

  datatype Key = Id(id: string) | Name(name: string)

  function KeyOf(r: Part): Key
    requires r.Response?
  {
    if r.id != "" then Id(r.id) else Name(r.name)
  }

  function CallKeys(p: Part): set<Key>
    requires p.Call?
  {
    (if p.id != "" then {Id(p.id)} else {}) + (if p.name != "" then {Name(p.name)} else {})
  }

  ghost predicate CalledIn(parts: seq<Part>, k: Key) {
    exists p :: p in parts && p.Call? && k in CallKeys(p)
  }

  lemma CalledByContent(c: Content, owner: Content, r: Part)
    requires Demands(owner, r)
    ensures CalledIn(c.parts, KeyOf(r)) <==> HoldsCallFor(c, r)
  {
    if CalledIn(c.parts, KeyOf(r)) {
      var p :| p in c.parts && p.Call? && KeyOf(r) in CallKeys(p);
      assert Answers(p, r);
    }
    if HoldsCallFor(c, r) {
      var p :| p in c.parts && Answers(p, r);
      assert KeyOf(r) in CallKeys(p);
    }
  }

  method FunctionCallKeys(c: Content) returns (keys: set<Key>)
    ensures forall k :: k in keys <==> CalledIn(c.parts, k)
  {
    keys := {};
    for i := 0 to |c.parts|
      invariant forall k :: k in keys <==> CalledIn(c.parts[..i], k)
    {
      var p := c.parts[i];
      assert c.parts[..i + 1] == c.parts[..i] + [p];
      assert forall k :: CalledIn(c.parts[..i + 1], k) <==> CalledIn(c.parts[..i], k) || (p.Call? && k in CallKeys(p));
      if p.Call? { keys := keys + CallKeys(p); }
    }
    assert c.parts[..|c.parts|] == c.parts;
  }

  method CollectCalls(kept: seq<Content>) returns (keys: set<Key>)
    ensures forall owner, r :: Demands(owner, r) ==> (KeyOf(r) in keys <==> Answered(kept, r))
  {
    keys := {};
    for i := 0 to |kept|
      invariant forall k :: k in keys <==> exists c :: c in kept[..i] && CalledIn(c.parts, k)
    {
      var found := FunctionCallKeys(kept[i]);
      assert kept[..i + 1] == kept[..i] + [kept[i]];
      keys := keys + found;
    }
    assert kept[..|kept|] == kept;
    forall owner, r | Demands(owner, r)
      ensures KeyOf(r) in keys <==> Answered(kept, r)
    {
      forall c: Content
        ensures CalledIn(c.parts, KeyOf(r)) <==> HoldsCallFor(c, r)
      {
        CalledByContent(c, owner, r);
      }
    }
  }

  method RepairOrphansNonprefix(kept: seq<Content>) returns (out: seq<Content>)
    ensures out == Repaired(kept)
  {
    var keys := CollectCalls(kept);
    out := [];
    for i := 0 to |kept|
      invariant out == Surviving(kept[..i], kept)
    {
      var parts := kept[i].parts;
      var orphan, k := false, 0;
      while k < |parts| && !orphan
        invariant 0 <= k <= |parts|
        invariant orphan <==> exists r :: r in parts[..k] && Demands(kept[i], r) && !Answered(kept, r)
      {
        var p := parts[k];
        assert parts[..k + 1] == parts[..k] + [p];
        if Demands(kept[i], p) { orphan := KeyOf(p) !in keys; }
        k := k + 1;
      }
      assert !orphan ==> parts[..k] == parts;
      assert orphan <==> !Survives(kept[i], kept);
      assert kept[..i + 1][..i] == kept[..i];
      if !orphan { out := out + [kept[i]]; }
    }
    assert kept[..|kept|] == kept;
  }

  lemma {:induction false} SurvivingIsSublist(cs: seq<Content>, whole: seq<Content>)
    ensures IsSublist(Surviving(cs, whole), cs)
  {
    if cs != [] {
      var init, last := cs[..|cs| - 1], cs[|cs| - 1];
      SurvivingIsSublist(init, whole);
      var out := Surviving(cs, whole);
      if Survives(last, whole) {
        assert out[..|out| - 1] == Surviving(init, whole);
      } else {
        assert out == Surviving(init, whole);
      }
    }
  }

  lemma {:induction false} SublistOfSurvivors(s: seq<Content>, cs: seq<Content>, whole: seq<Content>)
    requires IsSublist(s, cs)
    requires forall c :: c in s ==> Survives(c, whole)
    ensures IsSublist(s, Surviving(cs, whole))
    decreases |cs|
  {
    if s != [] {
      var init, last := cs[..|cs| - 1], cs[|cs| - 1];
      var out := Surviving(cs, whole);
      if s[|s| - 1] == last && IsSublist(s[..|s| - 1], init) {
        SublistOfSurvivors(s[..|s| - 1], init, whole);
        assert out[..|out| - 1] == Surviving(init, whole);
      } else {
        SublistOfSurvivors(s, init, whole);
        assert Survives(last, whole) ==> out[..|out| - 1] == Surviving(init, whole);
        assert !Survives(last, whole) ==> out == Surviving(init, whole);
      }
    }
  }

  /** The repair keeps every orphan-free sublist of its input, on all inputs. */
  lemma RepairKeepsOrphanFreeSublists(s: seq<Content>, kept: seq<Content>)
    requires IsSublist(s, kept) && OrphanFree(s)
    ensures IsSublist(s, Repaired(kept))
  {
    SublistElements(s, kept);
    forall c | c in s
      ensures Survives(c, kept)
    {
      forall r | r in c.parts && Demands(c, r)
        ensures Answered(kept, r)
      {
        AnsweredMonotone(s, kept, r);
      }
    }
    SublistOfSurvivors(s, kept, kept);
  }

  /** Every response that survives is also called from a content that survives. */
  ghost predicate CallsSurvive(kept: seq<Content>) {
    forall c, r :: c in kept && Survives(c, kept) && Demands(c, r) ==>
      exists d :: d in kept && Survives(d, kept) && HoldsCallFor(d, r)
  }

  lemma RepairClosesIff(kept: seq<Content>)
    ensures OrphanFree(Repaired(kept)) <==> CallsSurvive(kept)
  {
    var out := Repaired(kept);
    SurvivingContents(kept, kept);
    if OrphanFree(out) {
      forall c, r | c in kept && Survives(c, kept) && Demands(c, r)
        ensures exists d :: d in kept && Survives(d, kept) && HoldsCallFor(d, r)
      {
        assert c in out;
        var d :| d in out && HoldsCallFor(d, r);
      }
    }
    if CallsSurvive(kept) {
      forall c, r | c in out && Demands(c, r)
        ensures Answered(out, r)
      {
        var d :| d in kept && Survives(d, kept) && HoldsCallFor(d, r);
        assert d in out;
      }
    }
  }

  /** Every content that makes a call has its own responses answered. */
  predicate CallersAreAnswered(kept: seq<Content>) {
    forall c :: c in kept && HasCall(c) ==> Survives(c, kept)
  }

  /** Contents that never mix calls and responses qualify. */
  lemma UnmixedCallersAreAnswered(kept: seq<Content>)
    requires Unmixed(kept)
    ensures CallersAreAnswered(kept)
  {
  }

  /** When every content that makes a call has its own responses answered, one pass closes the list, and the
      repair is the greatest orphan-free sublist of its input. */
  lemma RepairIsGreatest(kept: seq<Content>)
    requires CallersAreAnswered(kept)
    ensures OrphanFree(Repaired(kept)) && IsSublist(Repaired(kept), kept)
    ensures forall s :: IsSublist(s, kept) && OrphanFree(s) ==> IsSublist(s, Repaired(kept))
  {
    forall c, r | c in kept && Survives(c, kept) && Demands(c, r)
      ensures exists d :: d in kept && Survives(d, kept) && HoldsCallFor(d, r)
    {
      assert r in c.parts;
      var d :| d in kept && HoldsCallFor(d, r);
      assert HasCall(d);
      assert Survives(d, kept);
    }
    RepairClosesIff(kept);
    SurvivingIsSublist(kept, kept);
    forall s | IsSublist(s, kept) && OrphanFree(s)
      ensures IsSublist(s, Repaired(kept))
    {
      RepairKeepsOrphanFreeSublists(s, kept);
    }
  }

  /** Otherwise it can fail: a content answers a lost call and makes another one; it goes, and the response to
      its own call stays behind. */
  lemma MixedContentDefeatsOnePass()
    ensures var mixed := Content(User, [Response("a", "t", ""), Call("b", "t")]);
            var result := Content(User, [Response("b", "t", "")]);
            Repaired([mixed, result]) == [result] && !OrphanFree([result])
  {
    var lost, next := Response("a", "t", ""), Response("b", "t", "");
    var mixed, result := Content(User, [lost, Call("b", "t")]), Content(User, [next]);
    var kept := [mixed, result];
    assert Demands(mixed, lost) && Demands(result, next);
    assert mixed.parts[1] == Call("b", "t") && Answers(mixed.parts[1], next);
    assert HoldsCallFor(mixed, next) && kept[0] == mixed;
    assert !Survives(mixed, kept);
    assert Survives(result, kept);
    assert kept[..1] == [mixed] && [mixed][..0] == [];
    assert Surviving([mixed], kept) == [];
    assert !Answered([result], next);
  }

  /** The repair is the identity exactly on orphan-free lists. */
  lemma RepairIsIdentityIff(kept: seq<Content>)
    ensures Repaired(kept) == kept <==> OrphanFree(kept)
  {
    if OrphanFree(kept) { AllSurvive(kept, kept); }
    SurvivingContents(kept, kept);
    if Repaired(kept) == kept {
      forall c, r | c in kept && Demands(c, r)
        ensures Answered(kept, r)
      {
        assert c in Repaired(kept) && r in c.parts;
      }
    }
  }

  lemma {:induction false} AllSurvive(cs: seq<Content>, whole: seq<Content>)
    requires forall c :: c in cs ==> Survives(c, whole)
    ensures Surviving(cs, whole) == cs
  {
    if cs != [] {
      AllSurvive(cs[..|cs| - 1], whole);
      assert cs == cs[..|cs| - 1] + [cs[|cs| - 1]];
    }
  }

  // ---------------------------------------------------------------- strategy messages

  /** Round roles: only a real user turn starts a round. */
  datatype StrategyRole = Starter | Assistant | Tool

  /** A message as the recovery strategies see it; a synthesized one has no original index. */
  datatype Msg = Msg(role: StrategyRole, text: string, origIndex: Option<int>)

  function RoleOf(c: Content): StrategyRole {
    if HasResponse(c) then Tool
    else if HasCall(c) then Assistant
    else if c.role == User then Starter
    else Assistant
  }

  function ContentsToMsgs(cs: seq<Content>, render: Content -> string): seq<Msg> {
    seq(|cs|, i requires 0 <= i < |cs| => Msg(RoleOf(cs[i]), render(cs[i]), Some(i)))
  }

  predicate Reuses(m: Msg, original: seq<Content>) {
    m.origIndex.Some? && 0 <= m.origIndex.value < |original|
  }

  function Materialized(m: Msg, original: seq<Content>): Content {
    if Reuses(m, original) then original[m.origIndex.value] else Content(User, [Text(m.text)])
  }

  function Rebuilt(msgs: seq<Msg>, original: seq<Content>): seq<Content> {
    seq(|msgs|, i requires 0 <= i < |msgs| => Materialized(msgs[i], original))
  }

  method MsgsToContents(msgs: seq<Msg>, original: seq<Content>) returns (out: seq<Content>)
    ensures out == Repaired(Rebuilt(msgs, original))
  {
    var kept: seq<Content> := [];
    for i := 0 to |msgs|
      invariant kept == Rebuilt(msgs, original)[..i]
    {
      var m := msgs[i];
      if Reuses(m, original) {
        kept := kept + [original[m.origIndex.value]];
      } else {
        kept := kept + [Content(User, [Text(m.text)])];
      }
    }
    assert kept == Rebuilt(msgs, original);
    out := RepairOrphansNonprefix(kept);
  }

  /** Whatever the messages are, a rebuilt content is an original or a fresh text turn. */
  lemma RebuiltContents(msgs: seq<Msg>, original: seq<Content>)
    ensures forall c :: c in Rebuilt(msgs, original) ==> c in original || (c.role == User && TextOnly(c))
    ensures Unmixed(original) ==> Unmixed(Rebuilt(msgs, original))
    ensures ResponsesAreUser(original) ==> ResponsesAreUser(Rebuilt(msgs, original))
  {
    var rebuilt := Rebuilt(msgs, original);
    forall c | c in rebuilt
      ensures c in original || (c.role == User && TextOnly(c))
    {
      var i :| 0 <= i < |rebuilt| && rebuilt[i] == c;
      assert c == Materialized(msgs[i], original);
    }
  }

  /** Every content finds itself again by its index. */
  lemma MessagesRebuild(cs: seq<Content>, render: Content -> string)
    ensures Rebuilt(ContentsToMsgs(cs, render), cs) == cs
  {
  }

  /** Round trip: to messages and back is the identity exactly on orphan-free histories. */
  lemma AdapterRoundTripIff(cs: seq<Content>, render: Content -> string)
    ensures Repaired(Rebuilt(ContentsToMsgs(cs, render), cs)) == cs <==> OrphanFree(cs)
  {
    MessagesRebuild(cs, render);
    RepairIsIdentityIff(cs);
  }
}
