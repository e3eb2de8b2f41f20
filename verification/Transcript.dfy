/** The conversation as the compaction plugin sees it: a sequence of role-tagged contents whose
    parts are text, tool calls and tool responses, and what it means for a response to be paired
    with its call. An absent id or name is the empty string, which the code treats alike. */
module Transcript {

  datatype Role = User | Model | Unset

  datatype Part =
    | Text(text: string)
    | Call(id: string, name: string)
    | Response(id: string, name: string, payload: string)
    | Blob

  datatype Content = Content(role: Role, parts: seq<Part>)

  predicate HasResponse(c: Content) {
    exists p :: p in c.parts && p.Response?
  }

  predicate HasCall(c: Content) {
    exists p :: p in c.parts && p.Call?
  }

  /** A real user turn: user role, some text, and no tool part. */
  predicate GenuineUserText(c: Content) {
    && c.role == User
    && (exists p :: p in c.parts && p.Text? && p.text != "")
    && !HasCall(c) && !HasResponse(c)
  }

  /** A content of user role without call or response. */
  predicate UserTurn(c: Content) {
    c.role == User && forall p :: p in c.parts ==> !p.Call? && !p.Response?
  }

  /** A real user turn is one that says something. */
  lemma GenuineIff(c: Content)
    ensures GenuineUserText(c) <==> UserTurn(c) && exists p :: p in c.parts && p.Text? && p.text != ""
  {
  }

  /** Carries text only, so it neither calls nor answers. */
  predicate TextOnly(c: Content) {
    forall p :: p in c.parts ==> p.Text?
  }

  /** Matching goes by id when the response has one, and by name otherwise. */
  predicate Answers(call: Part, r: Part)
    requires r.Response?
  {
    call.Call? && (if r.id != "" then call.id == r.id else call.name == r.name)
  }

  /** `r` is a response of `c` that can be orphaned: it has an id or a name to match on. */
  predicate Demands(c: Content, r: Part) {
    r in c.parts && r.Response? && (r.id != "" || r.name != "")
  }

  predicate HoldsCallFor(c: Content, r: Part)
    requires r.Response?
  {
    exists p :: p in c.parts && Answers(p, r)
  }

  predicate Answered(cs: seq<Content>, r: Part)
    requires r.Response?
  {
    exists c :: c in cs && HoldsCallFor(c, r)
  }

  /** Every response of `cs` has its call somewhere in `cs`. */
  ghost predicate OrphanFree(cs: seq<Content>) {
    forall c, r :: c in cs && Demands(c, r) ==> Answered(cs, r)
  }

  /** Every response of `cs` has its call at or before its own position. */
  ghost predicate PairedInOrder(cs: seq<Content>) {
    forall j, r :: 0 <= j < |cs| && Demands(cs[j], r) ==> Answered(cs[..j + 1], r)
  }

  ghost predicate AllResponses(cs: seq<Content>, lo: int, hi: int)
    requires 0 <= lo <= hi <= |cs|
  {
    forall m :: lo <= m < hi ==> HasResponse(cs[m])
  }

  /** The call at `i` leads to `j` through response-bearing contents only. */
  ghost predicate LeadsTo(cs: seq<Content>, i: int, j: int) {
    0 <= i <= j < |cs| && AllResponses(cs, i + 1, j + 1)
  }

  /** Every response is reached from its call through response-bearing contents only: the shape the
      model loop writes, a call content followed by the responses it triggered. */
  ghost predicate Chained(cs: seq<Content>) {
    forall j, r :: 0 <= j < |cs| && Demands(cs[j], r) ==>
      exists i :: LeadsTo(cs, i, j) && HoldsCallFor(cs[i], r)
  }

  /** No content both calls and answers. */
  ghost predicate Unmixed(cs: seq<Content>) {
    forall c :: c in cs ==> !(HasCall(c) && HasResponse(c))
  }

  /** Responses travel on the user role, as the ADK builds them. */
  ghost predicate ResponsesAreUser(cs: seq<Content>) {
    forall c :: c in cs && HasResponse(c) ==> c.role == User
  }

  lemma PairedIsOrphanFree(cs: seq<Content>)
    requires PairedInOrder(cs)
    ensures OrphanFree(cs)
  {
    forall c, r | c in cs && Demands(c, r)
      ensures Answered(cs, r)
    {
      var j :| 0 <= j < |cs| && cs[j] == c;
      var d :| d in cs[..j + 1] && HoldsCallFor(d, r);
      assert d in cs;
    }
  }

  /** A list holding all of another's contents answers whatever the other answers. */
  lemma AnsweredMonotone(cs: seq<Content>, ds: seq<Content>, r: Part)
    requires r.Response? && Answered(cs, r)
    requires forall c :: c in cs ==> c in ds
    ensures Answered(ds, r)
  {
    var c :| c in cs && HoldsCallFor(c, r);
    assert c in ds;
  }
}
