/** The slot matrix of the scenario generator and its pairwise selection: a subset of the combinations in
    which every pair of slot values of the matrix still occurs. */
module PairwiseSlots {
  import opened Basics
  import opened GreedyCover

  datatype Slots =
    | SingleRule(action: string, firesAt: string, kind: string, language: string, quirk: string, scope: string)
    | LinkedPolicy(domain: string, gatedTool: string, language: string, onUnavailable: string, quirk: string)

  /** A named slot and its value. */
  datatype Slot = Slot(name: string, value: string)
  datatype Pair = Pair(a: Slot, b: Slot)

  /** The slots of a combination, sorted by name. */
  function Dims(s: Slots): seq<Slot> {
    match s
    case SingleRule(action, firesAt, kind, language, quirk, scope) =>
      [Slot("action", action), Slot("firesAt", firesAt), Slot("kind", kind), Slot("lang", language),
       Slot("quirk", quirk), Slot("scope", scope)]
    case LinkedPolicy(domain, gatedTool, language, onUnavailable, quirk) =>
      [Slot("domain", domain), Slot("gatedTool", gatedTool), Slot("lang", language),
       Slot("onUnavailable", onUnavailable), Slot("quirk", quirk)]
  }

  function PairsOf(s: Slots): set<Pair> {
    var dims := Dims(s);
    set i, j | 0 <= i < j < |dims| :: Pair(dims[i], dims[j])
  }

  method SelectPairwise(matrix: seq<Slots>) returns (chosen: seq<Slots>)
    ensures chosen == Greedy(PairsOf, matrix, {})
  {
    chosen := SelectCover(PairsOf, matrix);
  }

  /** What a combination says under a name, if it has that slot. */
  function Value(s: Slots, name: string): Option<string> {
    match s
    case SingleRule(action, firesAt, kind, language, quirk, scope) =>
      if name == "action" then Some(action)
      else if name == "firesAt" then Some(firesAt)
      else if name == "kind" then Some(kind)
      else if name == "lang" then Some(language)
      else if name == "quirk" then Some(quirk)
      else if name == "scope" then Some(scope)
      else None
    case LinkedPolicy(domain, gatedTool, language, onUnavailable, quirk) =>
      if name == "domain" then Some(domain)
      else if name == "gatedTool" then Some(gatedTool)
      else if name == "lang" then Some(language)
      else if name == "onUnavailable" then Some(onUnavailable)
      else if name == "quirk" then Some(quirk)
      else None
  }

  lemma SlotIff(s: Slots, d: Slot)
    ensures d in Dims(s) <==> Value(s, d.name) == Some(d.value)
  {
  }

  lemma NameOnce(s: Slots, i: nat, j: nat)
    requires i < j < |Dims(s)|
    ensures Dims(s)[i].name != Dims(s)[j].name
  {
  }

  /** The pairs of a combination are those of two of its slots; the two are different slots. */
  lemma PairsAreOfTwoSlots(s: Slots, a: Slot, b: Slot)
    ensures Pair(a, b) in PairsOf(s) || Pair(b, a) in PairsOf(s) <==>
            a.name != b.name && Value(s, a.name) == Some(a.value) && Value(s, b.name) == Some(b.value)
  {
    SlotIff(s, a);
    SlotIff(s, b);
    var dims := Dims(s);
    if Value(s, a.name) == Some(a.value) && Value(s, b.name) == Some(b.value) && a.name != b.name {
      var i :| 0 <= i < |dims| && dims[i] == a;
      var j :| 0 <= j < |dims| && dims[j] == b;
      assert Pair(dims[i], dims[j]) in PairsOf(s) || Pair(dims[j], dims[i]) in PairsOf(s);
    }
    if Pair(a, b) in PairsOf(s) {
      var i, j :| 0 <= i < j < |dims| && a == dims[i] && b == dims[j];
      NameOnce(s, i, j);
    }
    if Pair(b, a) in PairsOf(s) {
      var i, j :| 0 <= i < j < |dims| && b == dims[i] && a == dims[j];
      NameOnce(s, i, j);
    }
  }

  /** Pairwise coverage: any two slot values that occur together somewhere in the matrix occur together in
      some chosen combination. */
  lemma EveryValuePairIsChosen(matrix: seq<Slots>, s: Slots, m: string, n: string)
    requires s in matrix && m != n && Value(s, m).Some? && Value(s, n).Some?
    ensures exists c :: c in Greedy(PairsOf, matrix, {}) && c in matrix
                        && Value(c, m) == Value(s, m) && Value(c, n) == Value(s, n)
  {
    var a, b := Slot(m, Value(s, m).value), Slot(n, Value(s, n).value);
    PairsAreOfTwoSlots(s, a, b);
    var p := if Pair(a, b) in PairsOf(s) then Pair(a, b) else Pair(b, a);
    SelectionCovers(PairsOf, matrix);
    var c :| c in Greedy(PairsOf, matrix, {}) && p in PairsOf(c);
    PairsAreOfTwoSlots(c, a, b);
  }
}
