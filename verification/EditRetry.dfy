/** The edit-retry control: it counts failed edits per invocation and tool in the shared state, and hands
    the model corrective guidance until the retry controller gives up. */
module EditRetry {
  import opened Basics
  import opened ScopedState

  /** The control's own namespace in the shared state. */
  const NAMESPACE := "edit_retry"
  const EDIT_TOOLS := {"FileEdit", "PatchApply"}

  /** The corrective response that replaces a failed tool result. */
  datatype Guidance = Guidance(attempt: nat)

  /** What a tool came back with: the plugin's own injected response, an error, or anything else. */
  datatype ToolResult = Injected | Failure | Fine

  const GLOBAL_SCOPE := "__magi_edit_retry_global__"

  /** Calls without an invocation id are counted together in one scope of their own. */
  function ScopeKey(invocation: string): string { if invocation != "" then invocation else GLOBAL_SCOPE }

  /** Invocations never share a scope with each other, nor with the calls without one. */
  lemma ScopesAreSeparate(a: string, b: string)
    requires a != GLOBAL_SCOPE && b != GLOBAL_SCOPE
    ensures ScopeKey(a) == ScopeKey(b) <==> a == b
    ensures ScopeKey(a) != "" && (a != "" ==> ScopeKey(a) == a)
  {
  }

  function CounterKey(own: string, k: Key): Key { Stored(own, k) }

  function Counter(st: Store, own: string, k: Key): int {
    if Find(st, CounterKey(own, k)).Some? then Find(st, CounterKey(own, k)).value else 0
  }

  /** The controller aborts at the last allowed attempt and resamples before it. */
  predicate Resamples(attempt: int, max: nat) { attempt < max }

  function Counted(st: Store, own: string, k: Key, maxScopes: nat): Store {
    if k.name !in EDIT_TOOLS then st else SetScoped(st, CounterKey(own, k), Counter(st, own, k) + 1, maxScopes)
  }

  function Swept(st: Store, invocation: string): Store {
    if invocation == "" then st else WithoutScope(st, invocation)
  }

  class Plugin {
    const maxAttempts: nat
    const state: PerInvocationState
    const own: string

    constructor (maxAttempts: nat, state: PerInvocationState)
      requires maxAttempts >= 1
      ensures this.maxAttempts == maxAttempts && this.state == state && own == NAMESPACE
    {
      this.maxAttempts, this.state, own := maxAttempts, state, NAMESPACE;
    }

    method Reflect(k: Key) returns (attempt: int, guided: bool)
      modifies state
      ensures state.store == Counted(old(state.store), own, k, state.maxScopes)
      ensures guided == (k.name in EDIT_TOOLS && Resamples(Counter(old(state.store), own, k) + 1, maxAttempts))
      ensures k.name in EDIT_TOOLS ==> attempt == Counter(old(state.store), own, k) + 1
    {
      attempt := 0;
      if k.name !in EDIT_TOOLS { return 0, false; }
      attempt := state.Get(CounterKey(own, k), 0);
      attempt := attempt + 1;
      state.Set(CounterKey(own, k), attempt);
      guided := Resamples(attempt, maxAttempts);
    }

    method AfterTool(k: Key, result: ToolResult) returns (guided: bool)
      modifies state
      ensures state.store == (match result
                              case Injected => old(state.store)
                              case Failure => Counted(old(state.store), own, k, state.maxScopes)
                              case Fine => Popped(old(state.store), CounterKey(own, k)))
      ensures guided == (result.Failure? && k.name in EDIT_TOOLS &&
                         Resamples(Counter(old(state.store), own, k) + 1, maxAttempts))
    {
      match result
      case Injected => guided := false;
      case Fine =>
        state.Pop(CounterKey(own, k));
        guided := false;
      case Failure =>
        var attempt;
        attempt, guided := Reflect(k);
    }

    /** The end of a run sweeps its counters; one without an id sweeps nothing. */
    method AfterRun(invocation: string)
      modifies state
      ensures state.store == Swept(old(state.store), invocation)
    {
      if invocation != "" { state.ClearInvocation(invocation); }
    }
  }

  // ---------------------------------------------------------------- whole runs

  /** What happens to the shared state: this control's tool results, ends of runs, and writes by other
      controls through their own views. */
  datatype Event =
    | Returned(k: Key, result: ToolResult)
    | RunEnded(invocation: string)
    | OtherSet(ns: string, k: Key, value: int)
    | OtherDeleted(ns: string, k: Key)

  predicate OtherNamespace(own: string, ns: string) {
    ns != own && SEPARATOR[0] !in ns && SEPARATOR[0] !in own
  }

  predicate FromOutside(e: Event) { e.OtherSet? || e.OtherDeleted? }

  ghost predicate WellNamed(own: string, events: seq<Event>) {
    forall i :: 0 <= i < |events| && FromOutside(events[i]) ==> OtherNamespace(own, events[i].ns)
  }

  function Next(own: string, st: Store, e: Event, maxScopes: nat): Store {
    match e
    case Returned(k, Injected) => st
    case Returned(k, Failure) => Counted(st, own, k, maxScopes)
    case Returned(k, Fine) => Popped(st, CounterKey(own, k))
    case RunEnded(invocation) => Swept(st, invocation)
    case OtherSet(ns, k, v) => SetScoped(st, Stored(ns, k), v, maxScopes)
    case OtherDeleted(ns, k) => Popped(st, Stored(ns, k))
  }

  function After(own: string, events: seq<Event>, maxScopes: nat): Store {
    if events == [] then []
    else Next(own, After(own, events[..|events| - 1], maxScopes), events[|events| - 1], maxScopes)
  }

  /** The event writes into the invocation's part of the store. */
  predicate Writes(e: Event) {
    e.OtherSet? || (e.Returned? && e.result.Failure? && e.k.name in EDIT_TOOLS)
  }

  /** The invocations written to and not ended since. */
  function Alive(events: seq<Event>): set<string> {
    if events == [] then {}
    else
      var before, e := Alive(events[..|events| - 1]), events[|events| - 1];
      if Writes(e) then before + {e.k.scope}
      else if e.RunEnded? && e.invocation != "" then before - {e.invocation}
      else before
  }

  /** At `i` the invocation was written to, and it has not ended since. */
  predicate WrittenSinceEnd(events: seq<Event>, x: string, i: nat)
    requires i < |events|
  {
    && Writes(events[i]) && events[i].k.scope == x
    && (x == "" || forall j :: i < j < |events| ==> events[j] != RunEnded(x))
  }

  /** Alive are exactly the invocations written to since their last end; one without an id never ends. */
  lemma {:induction false} AliveIff(events: seq<Event>, x: string)
    ensures x in Alive(events) <==> exists i: nat :: i < |events| && WrittenSinceEnd(events, x, i)
  {
    if events != [] {
      var n := |events| - 1;
      var init, e := events[..n], events[n];
      AliveIff(init, x);
      if i: nat :| i < n && WrittenSinceEnd(init, x, i) {
        if x == "" || e != RunEnded(x) { assert WrittenSinceEnd(events, x, i); }
      }
      if i: nat :| i < |events| && WrittenSinceEnd(events, x, i) {
        if i < n { assert WrittenSinceEnd(init, x, i) && (x == "" || events[n] != RunEnded(x)); }
      }
      if Writes(e) && e.k.scope == x { assert WrittenSinceEnd(events, x, n); }
    }
  }

  /** At no moment are more invocations alive than the store has room for. */
  predicate WithinBound(events: seq<Event>, maxScopes: nat) {
    events == [] || (WithinBound(events[..|events| - 1], maxScopes) && |Alive(events)| <= maxScopes)
  }

  /** What takes the counter of `k` back to zero. */
  predicate Resets(e: Event, k: Key) {
    e == Returned(k, Fine) || (e == RunEnded(k.scope) && k.scope != "")
  }

  /** Failed edits of `k` since its last success or the last end of its run. */
  function FailuresSince(events: seq<Event>, k: Key): nat {
    if events == [] then 0
    else
      var before, e := FailuresSince(events[..|events| - 1], k), events[|events| - 1];
      if e == Returned(k, Failure) then before + 1
      else if Resets(e, k) then 0
      else before
  }

  lemma OwnStep(own: string, st: Store, q: Key, result: ToolResult, k: Key, maxScopes: nat)
    requires k.name in EDIT_TOOLS
    requires Writes(Returned(q, result)) ==> |Scopes(st) + {q.scope}| <= maxScopes
    ensures Counter(Next(own, st, Returned(q, result), maxScopes), own, k) ==
            if q == k && result.Failure? then Counter(st, own, k) + 1
            else if q == k && result.Fine? then 0
            else Counter(st, own, k)
  {
    match result
    case Injected =>
    case Failure =>
      if q.name in EDIT_TOOLS { Increment(own, st, q, k, maxScopes); }
    case Fine =>
      StoredInjective(own, q, k);
      PopStep(own, st, CounterKey(own, q), k);
  }

  lemma Increment(own: string, st: Store, q: Key, k: Key, maxScopes: nat)
    requires |Scopes(st) + {q.scope}| <= maxScopes
    ensures Counter(SetScoped(st, CounterKey(own, q), Counter(st, own, q) + 1, maxScopes), own, k)
         == Counter(st, own, k) + if q == k then 1 else 0
  {
    StoredInjective(own, q, k);
    WriteStep(own, st, CounterKey(own, q), Counter(st, own, q) + 1, k, maxScopes);
  }

  lemma OneStep(own: string, st: Store, e: Event, k: Key, maxScopes: nat)
    requires k.name in EDIT_TOOLS
    requires Writes(e) ==> |Scopes(st) + {e.k.scope}| <= maxScopes
    requires FromOutside(e) ==> OtherNamespace(own, e.ns)
    ensures Counter(Next(own, st, e, maxScopes), own, k) ==
            if e == Returned(k, Failure) then Counter(st, own, k) + 1
            else if Resets(e, k) then 0
            else Counter(st, own, k)
  {
    match e
    case Returned(q, result) => OwnStep(own, st, q, result, k, maxScopes);
    case RunEnded(invocation) => FindWithoutScope(st, invocation, CounterKey(own, k));
    case OtherSet(ns, q, v) =>
      WriteStep(own, st, Stored(ns, q), v, k, maxScopes);
      OtherKeysDiffer(own, ns, q, k);
    case OtherDeleted(ns, q) =>
      PopStep(own, st, Stored(ns, q), k);
      OtherKeysDiffer(own, ns, q, k);
  }

  /** The store never holds an invocation that is not alive. */
  lemma ScopesStep(own: string, st: Store, e: Event, maxScopes: nat)
    requires Writes(e) ==> |Scopes(st) + {e.k.scope}| <= maxScopes
    ensures Scopes(Next(own, st, e, maxScopes)) <= Scopes(st) + if Writes(e) then {e.k.scope} else {}
    ensures e.RunEnded? && e.invocation != "" ==> e.invocation !in Scopes(Next(own, st, e, maxScopes))
  {
    match e
    case Returned(q, Injected) =>
    case Returned(q, Failure) =>
      if Writes(e) { SetWithoutEviction(st, CounterKey(own, q), Counter(st, own, q) + 1, maxScopes); }
    case Returned(q, Fine) => PoppedScopes(st, CounterKey(own, q));
    case RunEnded(invocation) => WithoutScopeExactly(st, invocation);
    case OtherSet(ns, q, v) => SetWithoutEviction(st, Stored(ns, q), v, maxScopes);
    case OtherDeleted(ns, q) => PoppedScopes(st, Stored(ns, q));
  }

  lemma OtherKeysDiffer(own: string, ns: string, q: Key, k: Key)
    requires OtherNamespace(own, ns)
    ensures Stored(ns, q) != CounterKey(own, k)
  {
    StoredDiffer(ns, own, q, k);
  }

  lemma WriteStep(own: string, st: Store, w: Key, v: int, k: Key, maxScopes: nat)
    requires |Scopes(st) + {w.scope}| <= maxScopes
    ensures Counter(SetScoped(st, w, v, maxScopes), own, k)
         == if w == CounterKey(own, k) then v else Counter(st, own, k)
  {
    SetWithoutEviction(st, w, v, maxScopes);
    FindPut(st, w, v, CounterKey(own, k));
  }

  lemma PopStep(own: string, st: Store, w: Key, k: Key)
    ensures Counter(Popped(st, w), own, k) == if w == CounterKey(own, k) then 0 else Counter(st, own, k)
  {
    FindPopped(st, w, CounterKey(own, k));
  }

  /** Over every run in which at no moment too many invocations are alive, however many there are in all and
      whatever the other controls write, a counter is the number of failed edits since its last success or
      sweep; the re-entered response adds nothing. */
  lemma {:induction false} CounterIsFailuresSince(own: string, events: seq<Event>, k: Key, maxScopes: nat)
    requires WellNamed(own, events) && k.name in EDIT_TOOLS
    requires WithinBound(events, maxScopes)
    ensures Counter(After(own, events, maxScopes), own, k) == FailuresSince(events, k)
    ensures Scopes(After(own, events, maxScopes)) <= Alive(events)
  {
    if events != [] {
      var init, e := events[..|events| - 1], events[|events| - 1];
      CounterIsFailuresSince(own, init, k, maxScopes);
      var st := After(own, init, maxScopes);
      if Writes(e) { SubsetSize(Scopes(st) + {e.k.scope}, Alive(events)); }
      OneStep(own, st, e, k, maxScopes);
      ScopesStep(own, st, e, maxScopes);
    }
  }

  // ---------------------------------------------------------------- beyond the bound

  lemma {:induction false} DeadScopeHoldsNothing(st: Store, k: Key)
    requires k.scope !in Scopes(st)
    ensures Find(st, k) == None
  {
    if st != [] { DeadScopeHoldsNothing(st[..|st| - 1], k); }
  }

  /** Eviction takes invocations whole: one that is still there has kept everything. */
  lemma {:induction false} FindBounded(st: Store, max: nat, k: Key)
    ensures Find(Bounded(st, max), k) == if k.scope in Scopes(Bounded(st, max)) then Find(st, k) else None
    decreases |st|
  {
    if st == [] || |Scopes(st)| <= max {
      if k.scope !in Scopes(st) { DeadScopeHoldsNothing(st, k); }
    } else {
      var oldest := st[0].key.scope;
      var rest := WithoutScope(st, oldest);
      FindBounded(rest, max, k);
      FindWithoutScope(st, oldest, k);
      WithoutScopeExactly(st, oldest);
      BoundedScopes(rest, max);
    }
  }

  lemma {:induction false} BoundedScopes(st: Store, max: nat)
    ensures Scopes(Bounded(st, max)) <= Scopes(st)
    decreases |st|
  {
    if st != [] && |Scopes(st)| > max {
      BoundedScopes(WithoutScope(st, st[0].key.scope), max);
      WithoutScopeScopes(st, st[0].key.scope);
    }
  }

  /** What one event does to a counter in any store: its own step, unless its invocation is gone afterwards. */
  ghost predicate Steps(own: string, st: Store, st': Store, e: Event, k: Key) {
    Counter(st', own, k) ==
    if k.scope !in Scopes(st') then 0
    else if e == Returned(k, Failure) then Counter(st, own, k) + 1
    else if Resets(e, k) then 0
    else Counter(st, own, k)
  }

  lemma SurvivingWrite(own: string, st: Store, w: Key, v: int, k: Key, maxScopes: nat)
    requires k.scope in Scopes(SetScoped(st, w, v, maxScopes))
    ensures Counter(SetScoped(st, w, v, maxScopes), own, k)
         == if w == CounterKey(own, k) then v else Counter(st, own, k)
  {
    FindBounded(Put(st, w, v), maxScopes, CounterKey(own, k));
    FindPut(st, w, v, CounterKey(own, k));
  }

  lemma WritingStep(own: string, st: Store, e: Event, k: Key, maxScopes: nat)
    requires k.name in EDIT_TOOLS && Writes(e) && k.scope in Scopes(Next(own, st, e, maxScopes))
    requires FromOutside(e) ==> OtherNamespace(own, e.ns)
    ensures Counter(Next(own, st, e, maxScopes), own, k) ==
            Counter(st, own, k) + if e == Returned(k, Failure) then 1 else 0
  {
    if e.OtherSet? {
      OtherKeysDiffer(own, e.ns, e.k, k);
      SurvivingWrite(own, st, Stored(e.ns, e.k), e.value, k, maxScopes);
    } else {
      StoredInjective(own, e.k, k);
      SurvivingWrite(own, st, CounterKey(own, e.k), Counter(st, own, e.k) + 1, k, maxScopes);
    }
  }

  lemma AnyStep(own: string, st: Store, e: Event, k: Key, maxScopes: nat)
    requires k.name in EDIT_TOOLS
    requires FromOutside(e) ==> OtherNamespace(own, e.ns)
    ensures Steps(own, st, Next(own, st, e, maxScopes), e, k)
  {
    var st' := Next(own, st, e, maxScopes);
    if k.scope !in Scopes(st') {
      DeadScopeHoldsNothing(st', CounterKey(own, k));
    } else if Writes(e) {
      WritingStep(own, st, e, k, maxScopes);
    } else {
      OneStep(own, st, e, k, maxScopes);
    }
  }

  /** Since its last reset, the invocation of `k` was evicted while failures of `k` stood. */
  predicate EvictedSince(own: string, events: seq<Event>, k: Key, maxScopes: nat) {
    && events != [] && !Resets(events[|events| - 1], k)
    && (|| EvictedSince(own, events[..|events| - 1], k, maxScopes)
        || (FailuresSince(events, k) > 0 && k.scope !in Scopes(After(own, events, maxScopes))))
  }

  /** Over every run, bounded or not: a counter never exceeds the failures since its last reset, and it equals
      them if and only if its invocation was not evicted while failures stood. */
  lemma {:induction false} CounterAgreesIff(own: string, events: seq<Event>, k: Key, maxScopes: nat)
    requires WellNamed(own, events) && k.name in EDIT_TOOLS
    ensures var counter := Counter(After(own, events, maxScopes), own, k);
            && 0 <= counter <= FailuresSince(events, k)
            && (counter == FailuresSince(events, k) <==> !EvictedSince(own, events, k, maxScopes))
  {
    if events != [] {
      var init, e := events[..|events| - 1], events[|events| - 1];
      CounterAgreesIff(own, init, k, maxScopes);
      AnyStep(own, After(own, init, maxScopes), e, k, maxScopes);
    }
  }

  // ---------------------------------------------------------------- guidance

  /** The guidances handed out for `k` since its last success or sweep. */
  function GuidedSince(own: string, events: seq<Event>, k: Key, max: nat, maxScopes: nat): nat {
    if events == [] then 0
    else
      var init, e := events[..|events| - 1], events[|events| - 1];
      var before := GuidedSince(own, init, k, max, maxScopes);
      if e == Returned(k, Failure) then
        before + if Resamples(Counter(After(own, init, maxScopes), own, k) + 1, max) then 1 else 0
      else if Resets(e, k) then 0
      else before
  }

  /** Between two resets the model is guided once per failure, but at most `max - 1` times: the controller
      gives up on the attempt that reaches the maximum. */
  lemma {:induction false} GuidanceIsBounded(own: string, events: seq<Event>, k: Key, max: nat, maxScopes: nat)
    requires WellNamed(own, events) && k.name in EDIT_TOOLS && max >= 1
    requires WithinBound(events, maxScopes)
    ensures var n := FailuresSince(events, k);
            GuidedSince(own, events, k, max, maxScopes) == if n < max then n else max - 1
  {
    if events != [] {
      var init := events[..|events| - 1];
      CounterIsFailuresSince(own, init, k, maxScopes);
      GuidanceIsBounded(own, init, k, max, maxScopes);
    }
  }

  /** Beyond the bound a live counter can be evicted and start over: with room for one invocation, failing in
      `a`, in `b` and in `a` again leaves the first counter at one after two failures. */
  lemma EvictionRestartsCounter(own: string, a: Key, b: Key)
    requires a.scope != b.scope && a.name in EDIT_TOOLS && b.name in EDIT_TOOLS
    ensures var events := [Returned(a, Failure), Returned(b, Failure), Returned(a, Failure)];
            FailuresSince(events, a) == 2 && Counter(After(own, events, 1), own, a) == 1
  {
    var one := [Returned(a, Failure)];
    var two, three := one + [Returned(b, Failure)], one + [Returned(b, Failure)] + [Returned(a, Failure)];
    assert one[..0] == [] && two[..1] == one && three[..2] == two;
    assert three == [Returned(a, Failure), Returned(b, Failure), Returned(a, Failure)];
    Sole(own, a);
    assert After(own, one, 1) == [Entry(CounterKey(own, a), 1)];
    Evicted(own, a, b);
    assert After(own, two, 1) == [Entry(CounterKey(own, b), 1)];
    Evicted(own, b, a);
    assert After(own, three, 1) == [Entry(CounterKey(own, a), 1)];
    assert FailuresSince(one, a) == 1 && FailuresSince(two, a) == 1;
  }

  /** Failures of calls without an invocation id, and ends of such runs. */
  predicate Unidentified(more: seq<Event>, tool: string) {
    forall i :: 0 <= i < |more| ==> more[i] == RunEnded("") || more[i] == Returned(Key(ScopeKey(""), tool), Failure)
  }

  lemma {:induction false} UnidentifiedFailuresAdd(events: seq<Event>, more: seq<Event>, tool: string)
    requires Unidentified(more, tool)
    ensures var k := Key(ScopeKey(""), tool);
            FailuresSince(events + more, k) == FailuresSince(events, k) + FailuresSince(more, k)
  {
    if more == [] {
      assert events + more == events;
    } else {
      UnidentifiedFailuresAdd(events, more[..|more| - 1], tool);
      assert (events + more)[..|events + more| - 1] == events + more[..|more| - 1];
    }
  }

  lemma {:induction false} WithinBoundPrefix(events: seq<Event>, more: seq<Event>, maxScopes: nat)
    requires WithinBound(events + more, maxScopes)
    ensures WithinBound(events, maxScopes)
  {
    if more == [] {
      assert events + more == events;
    } else {
      assert (events + more)[..|events + more| - 1] == events + more[..|more| - 1];
      WithinBoundPrefix(events, more[..|more| - 1], maxScopes);
    }
  }

  /** Calls without an invocation id are never swept by the runs they belong to: over any number of further
      runs the stored counter of a tool goes up by every one of its failures. */
  lemma UnidentifiedRunsAccumulate(own: string, events: seq<Event>, more: seq<Event>, tool: string, maxScopes: nat)
    requires tool in EDIT_TOOLS && Unidentified(more, tool)
    requires WellNamed(own, events) && WithinBound(events + more, maxScopes)
    ensures var k := Key(ScopeKey(""), tool);
            Counter(After(own, events + more, maxScopes), own, k) ==
            Counter(After(own, events, maxScopes), own, k) + FailuresSince(more, k)
  {
    var k := Key(ScopeKey(""), tool);
    WithinBoundPrefix(events, more, maxScopes);
    CounterIsFailuresSince(own, events, k, maxScopes);
    CounterIsFailuresSince(own, events + more, k, maxScopes);
    UnidentifiedFailuresAdd(events, more, tool);
  }

  lemma SoleEntry(own: string, k: Key)
    ensures var st := [Entry(CounterKey(own, k), 1)];
            Scopes(st) == {k.scope} && Bounded(st, 1) == st && Counter(st, own, k) == 1
  {
    assert [Entry(CounterKey(own, k), 1)][..0] == [];
  }

  lemma Sole(own: string, a: Key)
    requires a.name in EDIT_TOOLS
    ensures Counted([], own, a, 1) == [Entry(CounterKey(own, a), 1)]
    ensures Counter([Entry(CounterKey(own, a), 1)], own, a) == 1
  {
    SoleEntry(own, a);
    assert Put([], CounterKey(own, a), 1) == [Entry(CounterKey(own, a), 1)];
  }

  /** With room for one invocation, a failure of another one replaces the whole store. */
  lemma Evicted(own: string, a: Key, b: Key)
    requires a.scope != b.scope && b.name in EDIT_TOOLS
    ensures Counted([Entry(CounterKey(own, a), 1)], own, b, 1) == [Entry(CounterKey(own, b), 1)]
    ensures Counter([Entry(CounterKey(own, b), 1)], own, b) == 1
  {
    var st, left := [Entry(CounterKey(own, a), 1)], [Entry(CounterKey(own, b), 1)];
    SoleEntry(own, a);
    SoleEntry(own, b);
    var both := st + left;
    assert st[..0] == [] && both[..1] == st && both[0] == st[0] && both[1] == left[0];
    assert Find(st, CounterKey(own, b)) == None;
    assert Counter(st, own, b) == 0;
    assert Put(st, CounterKey(own, b), 1) == both;
    assert Scopes(both) == {a.scope, b.scope};
    assert |{a.scope, b.scope}| == 2;
    assert WithoutScope(st, a.scope) == [];
    assert WithoutScope(both, a.scope) == left;
    assert Bounded(both, 1) == Bounded(left, 1);
  }
}
