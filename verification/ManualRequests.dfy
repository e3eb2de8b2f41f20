/** The one-shot `/compact` request over a run: requests come in between the model calls, and each call finds
    whatever flag the moments before it have left. */
module ManualRequests {
  import opened Transcript
  import opened TailTrim
  import opened SessionBreakers
  import opened CompactionTurn
  import opened CompactionPlugin
  import ModelRuns

  datatype Moment = Requested | Called(contents: seq<Content>, world: World)

  /** What one moment leaves of the flag. */
  function FlagAfter(p: Policy, flag: bool, m: Moment): bool {
    match m
    case Requested => true
    case Called(cs, _) => flag && !Forces(cs, flag, p)
  }

  /** What one moment leaves of the session. */
  function SessionAfter(p: Policy, s: Session, flag: bool, m: Moment): Session {
    match m
    case Requested => s
    case Called(cs, w) => After(p.cfg, s, TurnOf(p, s, ModelCall(cs, flag, w)))
  }

  function Flag(p: Policy, ms: seq<Moment>): bool {
    ms != [] && FlagAfter(p, Flag(p, ms[..|ms| - 1]), ms[|ms| - 1])
  }

  /** The model calls of a run, each with the flag it found. */
  function CallsOf(p: Policy, ms: seq<Moment>): seq<ModelCall> {
    if ms == [] then []
    else
      var init, m := ms[..|ms| - 1], ms[|ms| - 1];
      CallsOf(p, init) + if m.Called? then [ModelCall(m.contents, Flag(p, init), m.world)] else []
  }

  /** One moment through the plugin: a request raises the flag, a model call runs both callbacks. */
  method Live(plugin: Plugin, state: SessionState, signal: ManualSignal, m: Moment)
    requires plugin.p.knobs.Valid()
    modifies plugin, state, signal
    ensures signal.requested == FlagAfter(plugin.p, old(signal.requested), m)
    ensures state.values == SessionAfter(plugin.p, old(state.values), old(signal.requested), m)
  {
    match m
    case Requested => signal.Request();
    case Called(cs, w) =>
      var req := new LlmRequest(cs);
      plugin.BeforeModel(req, state, signal, w);
      plugin.AfterModel(state, w.measure(req.contents));
  }

  /** So the session of a run is the one of its calls with their flags. */
  lemma {:induction false} SessionOfMoments(p: Policy, s: Session, ms: seq<Moment>)
    requires ms != []
    ensures var init := ms[..|ms| - 1];
            ModelRuns.SessionAfter(p, s, CallsOf(p, ms)) ==
            SessionAfter(p, ModelRuns.SessionAfter(p, s, CallsOf(p, init)), Flag(p, init), ms[|ms| - 1])
  {
    var before, calls := CallsOf(p, ms[..|ms| - 1]), CallsOf(p, ms);
    if ms[|ms| - 1].Called? {
      assert calls[..|calls| - 1] == before;
      ModelRuns.TurnsSnoc(p, s, calls);
    } else {
      assert calls == before;
    }
  }

  // ---------------------------------------------------------------- one request, one forced trim

  /** The moment at `i` is a call that is forced to trim. */
  predicate ForcedAt(p: Policy, ms: seq<Moment>, i: nat)
    requires i < |ms|
  {
    ms[i].Called? && Forces(ms[i].contents, Flag(p, ms[..i]), p)
  }

  function CountForced(p: Policy, ms: seq<Moment>): nat {
    if ms == [] then 0
    else CountForced(p, ms[..|ms| - 1]) + if ForcedAt(p, ms, |ms| - 1) then 1 else 0
  }

  function CountRequests(ms: seq<Moment>): nat {
    if ms == [] then 0 else CountRequests(ms[..|ms| - 1]) + if ms[|ms| - 1].Requested? then 1 else 0
  }

  /** No request forces more than one trim. */
  lemma {:induction false} ForcedTrimsAreRequested(p: Policy, ms: seq<Moment>)
    ensures CountForced(p, ms) + (if Flag(p, ms) then 1 else 0) <= CountRequests(ms)
  {
    if ms != [] { ForcedTrimsAreRequested(p, ms[..|ms| - 1]); }
  }

  /** Too short to be trimmed. */
  predicate TooShort(p: Policy, m: Moment) { m.Called? && |m.contents| <= p.knobs.tail }

  lemma {:induction false} StillPending(p: Policy, ms: seq<Moment>, i: nat)
    requires i < |ms| && ms[i].Requested?
    requires forall k :: i < k < |ms| ==> ms[k].Requested? || TooShort(p, ms[k])
    ensures Flag(p, ms)
  {
    if i < |ms| - 1 { StillPending(p, ms[..|ms| - 1], i); }
  }

  /** A request waits through every call too short to compact. The first long call is forced: whatever the session
      holds by then and whatever the estimates, it drops the prefix before the cut, and the request is spent. */
  lemma {:induction false} RequestWaitsForALongCall(p: Policy, s: Session, ms: seq<Moment>, i: nat, j: nat)
    requires p.manual && i < j < |ms| && ms[i].Requested?
    requires forall k :: i < k < j ==> ms[k].Requested? || TooShort(p, ms[k])
    requires ms[j].Called? && !TooShort(p, ms[j])
    ensures var c := ModelCall(ms[j].contents, Flag(p, ms[..j]), ms[j].world);
            var found, pruned := ModelRuns.SessionAfter(p, s, CallsOf(p, ms[..j])), AfterPrune(c.contents, p);
            && CallsOf(p, ms[..j + 1]) == CallsOf(p, ms[..j]) + [c]
            && DroppedBy(p, found, c) == pruned[..CutPoint(pruned, p.knobs.tail)]
            && !Flag(p, ms[..j + 1])
  {
    StillPending(p, ms[..j], i);
    assert ms[..j + 1][..j] == ms[..j];
  }
}
