/** Prompt-cache breakpoints: one on the static prefix of the system prompt, and a rolling pair on the tail of
    the messages. */
module CacheMarkers {
  import opened Basics

  const MAX_TAIL_BREAKPOINTS := 2

  /** A content block; only mappings can carry a marker. */
  datatype Block = Dict(text: string, marked: bool) | Opaque(id: int)
  datatype Body = Absent | Plain(text: string) | Blocks(blocks: seq<Block>)

  /** A message parameter; one that is no mapping is passed through. */
  datatype Message = Param(system: bool, body: Body) | Foreign(system: bool)

  // ---------------------------------------------------------------- the message tail

  /** The marker goes on the last block that can carry one. */
  function MarkedBlocks(bs: seq<Block>): seq<Block> {
    if bs == [] then []
    else if bs[|bs| - 1].Dict? then bs[..|bs| - 1] + [bs[|bs| - 1].(marked := true)]
    else MarkedBlocks(bs[..|bs| - 1]) + [bs[|bs| - 1]]
  }

  function Marked(m: Message): Message {
    match m
    case Foreign(_) => m
    case Param(system, Blocks(bs)) => Param(system, Blocks(MarkedBlocks(bs)))
    case Param(system, Plain(text)) => Param(system, Blocks([Dict(text, true)]))
    case Param(system, Absent) => Param(system, Blocks([Dict("", true)]))
  }

  /** Marks the last `n` non-system messages. */
  function MarkedTail(ms: seq<Message>, n: nat): seq<Message> {
    if ms == [] || n == 0 then ms
    else
      var init, m := ms[..|ms| - 1], ms[|ms| - 1];
      if m.system then MarkedTail(init, n) + [m] else MarkedTail(init, n - 1) + [Marked(m)]
  }

  function TailSize(requested: int): nat {
    if requested < 0 then 0 else if requested < MAX_TAIL_BREAKPOINTS then requested else MAX_TAIL_BREAKPOINTS
  }

  method MarkMessage(m: Message) returns (out: Message)
    ensures out == Marked(m)
  {
    if m.Foreign? { return m; }
    match m.body
    case Plain(text) => out := Param(m.system, Blocks([Dict(text, true)]));
    case Absent => out := Param(m.system, Blocks([Dict("", true)]));
    case Blocks(bs) =>
      var position := |bs|;
      assert bs[..position] == bs;
      while position > 0 && !bs[position - 1].Dict?
        invariant 0 <= position <= |bs|
        invariant MarkedBlocks(bs) == MarkedBlocks(bs[..position]) + bs[position..]
        decreases position
      {
        assert bs[..position][..position - 1] == bs[..position - 1];
        assert bs[position - 1..] == [bs[position - 1]] + bs[position..];
        position := position - 1;
      }
      if position == 0 {
        assert bs[0..] == bs;
        return m;
      }
      assert bs[..position][..position - 1] == bs[..position - 1];
      var blocks := bs[position - 1 := bs[position - 1].(marked := true)];
      assert blocks == bs[..position - 1] + [bs[position - 1].(marked := true)] + bs[position..];
      out := Param(m.system, Blocks(blocks));
  }

  method InjectMessageTail(ms: seq<Message>, tailSize: int) returns (out: seq<Message>)
    ensures out == MarkedTail(ms, TailSize(tailSize))
  {
    var left := TailSize(tailSize);
    out := [];
    var i := |ms|;
    assert ms[..i] == ms;
    while i > 0 && left > 0
      invariant 0 <= i <= |ms| && left >= 0
      invariant MarkedTail(ms, TailSize(tailSize)) == MarkedTail(ms[..i], left) + out
      decreases i
    {
      var m := ms[i - 1];
      assert ms[..i][..i - 1] == ms[..i - 1];
      if !m.system {
        m := MarkMessage(m);
        left := left - 1;
      }
      out := [m] + out;
      i := i - 1;
    }
    out := ms[..i] + out;
  }

  function Marks(bs: seq<Block>): nat {
    if bs == [] then 0 else Marks(bs[..|bs| - 1]) + if bs[|bs| - 1].Dict? && bs[|bs| - 1].marked then 1 else 0
  }

  function MarksIn(m: Message): nat {
    if m.Param? && m.body.Blocks? then Marks(m.body.blocks) else 0
  }

  function MarksInAll(ms: seq<Message>): nat {
    if ms == [] then 0 else MarksInAll(ms[..|ms| - 1]) + MarksIn(ms[|ms| - 1])
  }

  lemma {:induction false} OneMarkPerBody(bs: seq<Block>)
    requires Marks(bs) == 0
    ensures Marks(MarkedBlocks(bs)) <= 1 && |MarkedBlocks(bs)| == |bs|
    ensures MarkedBlocks(MarkedBlocks(bs)) == MarkedBlocks(bs)
  {
    if bs != [] {
      var init, last, out := bs[..|bs| - 1], bs[|bs| - 1], MarkedBlocks(bs);
      if last.Dict? {
        assert out[..|out| - 1] == init;
      } else {
        OneMarkPerBody(init);
        assert out[..|out| - 1] == MarkedBlocks(init);
      }
    }
  }

  lemma SingleBlock(text: string)
    ensures var bs := [Dict(text, true)];
            MarkedBlocks(bs) == bs && Marks(bs) == 1 && ErasedBlocks(bs) == [Dict(text, false)]
  {
    var bs := [Dict(text, true)];
    assert bs[..0] == [];
  }

  lemma OneMarkPerMessage(m: Message)
    requires MarksIn(m) == 0
    ensures MarksIn(Marked(m)) <= 1 && Marked(Marked(m)) == Marked(m) && Marked(m).system == m.system
  {
    if m.Param? {
      match m.body
      case Blocks(bs) => OneMarkPerBody(bs);
      case Plain(text) => SingleBlock(text);
      case Absent => SingleBlock("");
    }
  }

  lemma {:induction false} MarkFound(bs: seq<Block>)
    requires Marks(bs) == 0
    ensures Marks(MarkedBlocks(bs)) == if exists b :: b in bs && b.Dict? then 1 else 0
  {
    if bs != [] {
      var init, last, out := bs[..|bs| - 1], bs[|bs| - 1], MarkedBlocks(bs);
      assert bs == init + [last];
      if last.Dict? {
        assert out[..|out| - 1] == init;
      } else {
        MarkFound(init);
        assert out[..|out| - 1] == MarkedBlocks(init);
      }
    }
  }

  /** A marked message carries one marker, unless it is no mapping or a list without a mapping. */
  lemma MarkedCarriesOne(m: Message)
    requires MarksIn(m) == 0
    ensures MarksIn(Marked(m)) ==
            if m.Param? && (m.body.Blocks? ==> exists b :: b in m.body.blocks && b.Dict?) then 1 else 0
  {
    if m.Param? {
      match m.body
      case Blocks(bs) => MarkFound(bs);
      case Plain(text) => SingleBlock(text);
      case Absent => SingleBlock("");
    }
  }

  /** How many of the last messages are candidates: non-system ones. */
  function NonSystem(ms: seq<Message>): nat {
    if ms == [] then 0 else NonSystem(ms[..|ms| - 1]) + if ms[|ms| - 1].system then 0 else 1
  }

  /** Of a marker-free list at most `n` messages get a marker, and marking again changes nothing. */
  lemma {:induction false} TailMarking(ms: seq<Message>, n: nat)
    requires MarksInAll(ms) == 0
    ensures |MarkedTail(ms, n)| == |ms| && MarksInAll(MarkedTail(ms, n)) <= n
    ensures MarkedTail(MarkedTail(ms, n), n) == MarkedTail(ms, n)
  {
    if ms != [] && n > 0 {
      var init, m, out := ms[..|ms| - 1], ms[|ms| - 1], MarkedTail(ms, n);
      OneMarkPerMessage(m);
      var n' := if m.system then n else n - 1;
      TailMarking(init, n');
      assert out[..|out| - 1] == MarkedTail(init, n');
    }
  }

  /** A message changes only if it is no system message and fewer than `n` non-system ones follow it. */
  lemma {:induction false} OnlyTheTailIsMarked(ms: seq<Message>, n: nat, i: nat)
    requires i < |ms| && (ms[i].system || NonSystem(ms[i + 1..]) >= n)
    ensures |MarkedTail(ms, n)| == |ms| && MarkedTail(ms, n)[i] == ms[i]
  {
    if n > 0 {
      var init, m := ms[..|ms| - 1], ms[|ms| - 1];
      var n' := if m.system then n else n - 1;
      if i < |ms| - 1 {
        assert ms[i + 1..][..|ms| - 2 - i] == init[i + 1..];
        OnlyTheTailIsMarked(init, n', i);
      } else {
        assert ms[i + 1..] == [];
        TailLength(init, n');
      }
    }
  }

  /** Each of the last `n` non-system messages is marked. */
  lemma {:induction false} TheTailIsMarked(ms: seq<Message>, n: nat, i: nat)
    requires i < |ms| && !ms[i].system && NonSystem(ms[i + 1..]) < n
    ensures |MarkedTail(ms, n)| == |ms| && MarkedTail(ms, n)[i] == Marked(ms[i])
  {
    var init, m := ms[..|ms| - 1], ms[|ms| - 1];
    var n' := if m.system then n else n - 1;
    TailLength(init, n');
    if i < |ms| - 1 {
      assert ms[i + 1..][..|ms| - 2 - i] == init[i + 1..];
      TheTailIsMarked(init, n', i);
    }
  }

  /** Together, for any requested size: a message is marked if and only if it is no system message and the number
      of non-system ones after it is below both two and the request. */
  lemma RequestedTailIsMarked(ms: seq<Message>, requested: int, i: nat)
    requires i < |ms|
    ensures var after, out := NonSystem(ms[i + 1..]), MarkedTail(ms, TailSize(requested));
            |out| == |ms| && out[i] == if !ms[i].system && after < 2 && after < requested then Marked(ms[i]) else ms[i]
  {
    var n := TailSize(requested);
    if !ms[i].system && NonSystem(ms[i + 1..]) < n {
      TheTailIsMarked(ms, n, i);
    } else {
      OnlyTheTailIsMarked(ms, n, i);
    }
  }

  lemma {:induction false} NoMarksIff(bs: seq<Block>)
    ensures Marks(bs) == 0 <==> forall b :: b in bs && b.Dict? ==> !b.marked
  {
    if bs != [] {
      NoMarksIff(bs[..|bs| - 1]);
      assert bs == bs[..|bs| - 1] + [bs[|bs| - 1]];
    }
  }

  /** What the count of markers means: it is zero if and only if no block of any message is marked. */
  lemma {:induction false} MarkerFreeIff(ms: seq<Message>)
    ensures MarksInAll(ms) == 0 <==>
            forall m, b :: m in ms && m.Param? && m.body.Blocks? && b in m.body.blocks && b.Dict? ==> !b.marked
  {
    if ms != [] {
      var init, last := ms[..|ms| - 1], ms[|ms| - 1];
      MarkerFreeIff(init);
      assert ms == init + [last];
      if last.Param? && last.body.Blocks? { NoMarksIff(last.body.blocks); }
    }
  }

  /** Block by block: the last mapping gets the marker, everything else is as it was. */
  lemma {:induction false} LastMappingIsMarked(bs: seq<Block>, k: nat)
    requires k < |bs|
    ensures |MarkedBlocks(bs)| == |bs|
    ensures var last := bs[k].Dict? && forall j :: k < j < |bs| ==> !bs[j].Dict?;
            MarkedBlocks(bs)[k] == if last then bs[k].(marked := true) else bs[k]
  {
    var init, b := bs[..|bs| - 1], bs[|bs| - 1];
    if !b.Dict? {
      if init != [] { LastMappingIsMarked(init, if k < |init| then k else 0); }
      assert k < |init| ==> ((forall j :: k < j < |bs| ==> !bs[j].Dict?) <==>
                             forall j :: k < j < |init| ==> !init[j].Dict?);
    }
  }

  lemma {:induction false} TailLength(ms: seq<Message>, n: nat)
    ensures |MarkedTail(ms, n)| == |ms|
  {
    if ms != [] && n > 0 { TailLength(ms[..|ms| - 1], if ms[|ms| - 1].system then n else n - 1); }
  }

  function ErasedBlocks(bs: seq<Block>): seq<Block> {
    if bs == [] then []
    else
      var b := bs[|bs| - 1];
      ErasedBlocks(bs[..|bs| - 1]) + [if b.Dict? then b.(marked := false) else b]
  }

  /** Takes the markers off; a body that is not a list reads as the one text block it is sent as. */
  function Erased(m: Message): Message {
    match m
    case Foreign(_) => m
    case Param(system, Blocks(bs)) => Param(system, Blocks(ErasedBlocks(bs)))
    case Param(system, Plain(text)) => Param(system, Blocks([Dict(text, false)]))
    case Param(system, Absent) => Param(system, Blocks([Dict("", false)]))
  }

  lemma {:induction false} ErasingUndoesBlocks(bs: seq<Block>)
    ensures ErasedBlocks(MarkedBlocks(bs)) == ErasedBlocks(bs)
  {
    if bs != [] {
      var init, last, out := bs[..|bs| - 1], bs[|bs| - 1], MarkedBlocks(bs);
      if last.Dict? {
        assert out[..|out| - 1] == init;
      } else {
        ErasingUndoesBlocks(init);
        assert out[..|out| - 1] == MarkedBlocks(init);
      }
    }
  }

  lemma ErasingUndoes(m: Message)
    ensures Erased(Marked(m)) == Erased(m)
  {
    if m.Param? {
      match m.body
      case Blocks(bs) => ErasingUndoesBlocks(bs);
      case Plain(text) => SingleBlock(text);
      case Absent => SingleBlock("");
    }
  }

  /** Marking changes nothing but markers: erased, every message is what it was. */
  lemma {:induction false} TailMarkingIsInvisible(ms: seq<Message>, n: nat)
    ensures |MarkedTail(ms, n)| == |ms|
    ensures forall i :: 0 <= i < |ms| ==> Erased(MarkedTail(ms, n)[i]) == Erased(ms[i])
  {
    if ms != [] && n > 0 {
      var m := ms[|ms| - 1];
      ErasingUndoes(m);
      TailMarkingIsInvisible(ms[..|ms| - 1], if m.system then n else n - 1);
    }
  }

  // ---------------------------------------------------------------- the system prefix

  predicate Occurs(s: string, pat: string, k: int) {
    0 <= k <= |s| - |pat| && s[k..k + |pat|] == pat
  }

  /** The first position at or after `i` where `pat` occurs. */
  function FindFrom(s: string, pat: string, i: nat): (r: Option<nat>)
    requires i <= |s|
    ensures r.Some? ==> i <= r.value && Occurs(s, pat, r.value)
    ensures forall k :: i <= k && (r.Some? ==> k < r.value) ==> !Occurs(s, pat, k)
    decreases |s| - i
  {
    if i + |pat| > |s| then None
    else if Occurs(s, pat, i) then Some(i)
    else FindFrom(s, pat, i + 1)
  }

  /** The system prompt as blocks: the static part up to and including the boundary is marked. An empty prompt
      is left as it is. */
  function SystemBlocks(system: string, boundary: string): seq<Block> {
    if system == "" then []
    else match FindFrom(system, boundary, 0)
      case None => [Dict(system, true)]
      case Some(i) =>
        var cut := i + |boundary|;
        [Dict(system[..cut], true)] + if cut < |system| then [Dict(system[cut..], false)] else []
  }

  function JoinedText(bs: seq<Block>): string {
    if bs == [] then ""
    else JoinedText(bs[..|bs| - 1]) + if bs[|bs| - 1].Dict? then bs[|bs| - 1].text else ""
  }

  /** The blocks read as the original prompt, and exactly the first one is marked. */
  lemma SystemPromptIsUnchanged(system: string, boundary: string)
    ensures JoinedText(SystemBlocks(system, boundary)) == system
    ensures Marks(SystemBlocks(system, boundary)) == if system == "" then 0 else 1
  {
    if system != "" {
      match FindFrom(system, boundary, 0)
      case None => TwoBlocks(system, "", false);
      case Some(i) =>
        var cut := i + |boundary|;
        TwoBlocks(system[..cut], system[cut..], cut < |system|);
        assert system[..cut] + system[cut..] == system;
    }
  }

  /** The first block alone is marked; it ends with the boundary, or is the whole prompt where that does not occur;
      and no block is empty. */
  lemma SystemBlocksAreTight(system: string, boundary: string)
    requires system != "" && boundary != ""
    ensures var bs := SystemBlocks(system, boundary);
            && 1 <= |bs| <= 2 && bs[0].Dict? && bs[0].marked && bs[0].text != ""
            && (|bs| == 2 ==> bs[1].Dict? && !bs[1].marked && bs[1].text != "")
            && (if FindFrom(system, boundary, 0).Some?
                then |bs[0].text| >= |boundary| && bs[0].text[|bs[0].text| - |boundary|..] == boundary
                else bs == [Dict(system, true)])
  {
    if FindFrom(system, boundary, 0).Some? {
      var i := FindFrom(system, boundary, 0).value;
      assert system[..i + |boundary|][i..] == boundary;
    }
  }

  lemma TwoBlocks(a: string, b: string, both: bool)
    requires both || b == ""
    ensures var bs := [Dict(a, true)] + if both then [Dict(b, false)] else [];
            JoinedText(bs) == a + b && Marks(bs) == 1
  {
    var first := [Dict(a, true)];
    SingleBlock(a);
    assert first[..0] == [];
    assert JoinedText(first) == a;
    if both {
      var bs := first + [Dict(b, false)];
      assert bs[..1] == first;
    } else {
      assert first + [] == first;
    }
  }

  /** The marked block depends only on the text up to the first boundary: whatever the dynamic tail, the cached
      prefix is the same. */
  lemma MarkedPrefixIgnoresTail(system: string, boundary: string, tail: string)
    requires boundary != "" && FindFrom(system, boundary, 0).Some?
    ensures var i := FindFrom(system, boundary, 0).value;
            SystemBlocks(system[..i + |boundary|] + tail, boundary)[0] == SystemBlocks(system, boundary)[0]
  {
    var i := FindFrom(system, boundary, 0).value;
    var cut := i + |boundary|;
    assert (system[..cut] + tail)[..cut] == system[..cut];
    FirstStays(system, system[..cut] + tail, boundary, i, 0);
  }

  /** The first occurrence depends only on the text up to its end. */
  lemma {:induction false} FirstStays(s: string, t: string, pat: string, i: nat, k: nat)
    requires k <= i && i + |pat| <= |s| && i + |pat| <= |t| && t[..i + |pat|] == s[..i + |pat|]
    requires FindFrom(s, pat, k) == Some(i)
    ensures FindFrom(t, pat, k) == Some(i)
    decreases i - k
  {
    SameStart(s, t, pat, i + |pat|, k);
    if k < i { FirstStays(s, t, pat, i, k + 1); }
  }

  lemma SameStart(s: string, t: string, pat: string, cut: nat, k: nat)
    requires cut <= |s| && cut <= |t| && s[..cut] == t[..cut] && k + |pat| <= cut
    ensures Occurs(s, pat, k) <==> Occurs(t, pat, k)
  {
    assert s[k..k + |pat|] == s[..cut][k..k + |pat|];
    assert t[k..k + |pat|] == t[..cut][k..k + |pat|];
  }

  /** A request without markers of its own never carries more than three. */
  lemma AtMostThreeBreakpoints(system: string, boundary: string, ms: seq<Message>, tailSize: int)
    requires MarksInAll(ms) == 0
    ensures Marks(SystemBlocks(system, boundary)) + MarksInAll(MarkedTail(ms, TailSize(tailSize))) <= 3
  {
    SystemPromptIsUnchanged(system, boundary);
    TailMarking(ms, TailSize(tailSize));
  }
}
