/** The resumable multi-bug runner: results are appended to a line file, instances whose id is already there
    are skipped on the next run, and the score is taken over the whole file. */
module ResumableRun {
  import opened Basics

  datatype Instance = Instance(id: string, golds: seq<string>)
  datatype Record = Record(id: string, golds: seq<string>, preds: seq<string>)

  /** A line of the results file: a record, a JSON object without an id, or text that is no JSON. */
  datatype Line = Rec(record: Record) | NoId | Broken

  type File = seq<Line>
  type Runner = Instance -> seq<string>

  predicate Short(x: Instance) { |x.golds| < 2 }

  function Completed(file: File): set<string> {
    if file == [] then {}
    else Completed(file[..|file| - 1]) + if file[|file| - 1].Rec? then {file[|file| - 1].record.id} else {}
  }

  function Result(run: Runner, x: Instance): Line { Rec(Record(x.id, x.golds, run(x))) }

  predicate Skips(file: File, x: Instance) { x.id !in Completed(file) && Short(x) }

  function Step(run: Runner, file: File, x: Instance): File {
    if x.id in Completed(file) || Short(x) then file else file + [Result(run, x)]
  }

  /** The file after working through `xs`. */
  function AfterRun(run: Runner, file: File, xs: seq<Instance>): File {
    if xs == [] then file else Step(run, AfterRun(run, file, xs[..|xs| - 1]), xs[|xs| - 1])
  }

  function CountSkipped(run: Runner, file: File, xs: seq<Instance>): nat {
    if xs == [] then 0
    else
      var init := xs[..|xs| - 1];
      CountSkipped(run, file, init) + if Skips(AfterRun(run, file, init), xs[|xs| - 1]) then 1 else 0
  }

  /** What is scored: every record in order; `None` where the code raises on an object without an id. */
  function ScoreInputs(file: File): Option<seq<Record>> {
    if file == [] then Some([])
    else
      var before, l := ScoreInputs(file[..|file| - 1]), file[|file| - 1];
      if before.None? || l.NoId? then None
      else if l.Rec? then Some(before.value + [l.record]) else before
  }

  // ---------------------------------------------------------------- the run

  class ResultsFile {
    var lines: File
    constructor ()
      ensures lines == []
    {
      lines := [];
    }
  }

  method CollectCompleted(file: File) returns (ids: set<string>)
    ensures ids == Completed(file)
  {
    ids := {};
    for i := 0 to |file|
      invariant ids == Completed(file[..i])
    {
      assert file[..i + 1][..i] == file[..i];
      if file[i].Rec? { ids := ids + {file[i].record.id}; }
    }
    assert file[..|file|] == file;
  }

  /** A run that is interrupted after `stop` instances; a complete one has `stop == |instances|`. */
  method RunBenchmark(results: ResultsFile, run: Runner, instances: seq<Instance>, stop: nat) returns (skipped: nat)
    requires stop <= |instances|
    modifies results
    ensures results.lines == AfterRun(run, old(results.lines), instances[..stop])
    ensures skipped == CountSkipped(run, old(results.lines), instances[..stop])
  {
    ghost var file := results.lines;
    var completed := CollectCompleted(results.lines);
    skipped := 0;
    for i := 0 to stop
      invariant results.lines == AfterRun(run, file, instances[..i])
      invariant completed == Completed(results.lines)
      invariant skipped == CountSkipped(run, file, instances[..i])
    {
      var x := instances[i];
      assert instances[..i + 1][..i] == instances[..i];
      if x.id in completed { continue; }
      if Short(x) {
        skipped := skipped + 1;
        continue;
      }
      CompletedSnoc(results.lines, Result(run, x));
      results.lines := results.lines + [Result(run, x)];
      completed := completed + {x.id};
    }
  }

  // ---------------------------------------------------------------- resuming

  lemma CompletedSnoc(file: File, l: Line)
    ensures Completed(file + [l]) == Completed(file) + if l.Rec? then {l.record.id} else {}
  {
    assert (file + [l])[..|file|] == file;
  }

  lemma {:induction false} RunGrows(run: Runner, file: File, xs: seq<Instance>, n: nat)
    requires n <= |xs|
    ensures AfterRun(run, file, xs[..n]) <= AfterRun(run, file, xs)
    ensures Completed(AfterRun(run, file, xs[..n])) <= Completed(AfterRun(run, file, xs))
    decreases |xs|
  {
    if n < |xs| {
      var init, x := xs[..|xs| - 1], xs[|xs| - 1];
      RunGrows(run, file, init, n);
      assert init[..n] == xs[..n];
      CompletedSnoc(AfterRun(run, file, init), Result(run, x));
    } else {
      assert xs[..n] == xs;
    }
  }

  /** After a run every instance of it is completed or too short. */
  lemma RunSettles(run: Runner, file: File, xs: seq<Instance>, i: nat)
    requires i < |xs|
    ensures |xs[i].golds| < 2 || xs[i].id in Completed(AfterRun(run, file, xs))
  {
    var upto := xs[..i + 1];
    assert upto[..i] == xs[..i];
    CompletedSnoc(AfterRun(run, file, xs[..i]), Result(run, xs[i]));
    RunGrows(run, file, xs, i + 1);
  }

  /** Nothing but results is written: every new line is the record of an instance of the list that was neither
      completed before nor too short. */
  lemma {:induction false} NewLinesAreResults(run: Runner, file: File, xs: seq<Instance>, j: nat)
    requires |file| <= j < |AfterRun(run, file, xs)|
    ensures exists x :: x in xs && |x.golds| >= 2 && x.id !in Completed(file)
                        && AfterRun(run, file, xs)[j] == Rec(Record(x.id, x.golds, run(x)))
  {
    if xs != [] {
      var init, last := xs[..|xs| - 1], xs[|xs| - 1];
      var before := AfterRun(run, file, init);
      RunGrows(run, file, init, 0);
      assert init[..0] == [];
      if j < |before| {
        NewLinesAreResults(run, file, init, j);
        var x :| x in init && |x.golds| >= 2 && x.id !in Completed(file)
                 && before[j] == Rec(Record(x.id, x.golds, run(x)));
        assert x in xs;
      } else {
        assert last in xs;
      }
    }
  }

  /** Settled instances add nothing. */
  lemma {:induction false} SettledRunIsIdle(run: Runner, file: File, xs: seq<Instance>)
    requires forall i :: 0 <= i < |xs| ==> Short(xs[i]) || xs[i].id in Completed(file)
    ensures AfterRun(run, file, xs) == file
  {
    if xs != [] { SettledRunIsIdle(run, file, xs[..|xs| - 1]); }
  }

  lemma {:induction false} RunConcat(run: Runner, file: File, xs: seq<Instance>, ys: seq<Instance>)
    ensures AfterRun(run, file, xs + ys) == AfterRun(run, AfterRun(run, file, xs), ys)
  {
    if ys == [] {
      assert xs + ys == xs;
    } else {
      RunConcat(run, file, xs, ys[..|ys| - 1]);
      assert (xs + ys)[..|xs + ys| - 1] == xs + ys[..|ys| - 1];
    }
  }

  lemma InterruptedRunIsAbsorbed(run: Runner, file: File, xs: seq<Instance>, n: nat, m: nat)
    requires n <= m <= |xs|
    ensures AfterRun(run, AfterRun(run, file, xs[..n]), xs[..m]) == AfterRun(run, file, xs[..m])
  {
    var first := AfterRun(run, file, xs[..n]);
    forall i | 0 <= i < n
      ensures Short(xs[..n][i]) || xs[..n][i].id in Completed(first)
    {
      RunSettles(run, file, xs[..n], i);
    }
    SettledRunIsIdle(run, first, xs[..n]);
    assert xs[..m] == xs[..n] + xs[n..m];
    RunConcat(run, first, xs[..n], xs[n..m]);
    RunConcat(run, file, xs[..n], xs[n..m]);
  }

  predicate CutsWithin(cuts: seq<nat>, n: nat) {
    forall i :: 0 <= i < |cuts| ==> cuts[i] <= n
  }

  /** The file after a series of runs, each interrupted after the given number of instances. */
  function AfterRuns(run: Runner, file: File, xs: seq<Instance>, cuts: seq<nat>): File
    requires CutsWithin(cuts, |xs|)
  {
    if cuts == [] then file
    else AfterRun(run, AfterRuns(run, file, xs, cuts[..|cuts| - 1]), xs[..cuts[|cuts| - 1]])
  }

  function MaxCut(cuts: seq<nat>): nat {
    if cuts == [] then 0
    else if cuts[|cuts| - 1] > MaxCut(cuts[..|cuts| - 1]) then cuts[|cuts| - 1] else MaxCut(cuts[..|cuts| - 1])
  }

  lemma {:induction false} SeriesIsLongestRun(run: Runner, file: File, xs: seq<Instance>, cuts: seq<nat>)
    requires CutsWithin(cuts, |xs|)
    ensures MaxCut(cuts) <= |xs|
    ensures AfterRuns(run, file, xs, cuts) == AfterRun(run, file, xs[..MaxCut(cuts)])
  {
    if cuts != [] {
      var init, last := cuts[..|cuts| - 1], cuts[|cuts| - 1];
      SeriesIsLongestRun(run, file, xs, init);
      var n := MaxCut(init);
      if last > n {
        InterruptedRunIsAbsorbed(run, file, xs, n, last);
      } else {
        ShorterRerunIsIdle(run, file, xs, n, last);
      }
    }
  }

  lemma ShorterRerunIsIdle(run: Runner, file: File, xs: seq<Instance>, n: nat, m: nat)
    requires m <= n <= |xs|
    ensures AfterRun(run, AfterRun(run, file, xs[..n]), xs[..m]) == AfterRun(run, file, xs[..n])
  {
    var first := AfterRun(run, file, xs[..n]);
    forall i | 0 <= i < m
      ensures Short(xs[..m][i]) || xs[..m][i].id in Completed(first)
    {
      RunSettles(run, file, xs[..n], i);
    }
    SettledRunIsIdle(run, first, xs[..m]);
  }

  /** Resume refines one run: any series of interrupted runs over a list, completed by a full one, leaves the
      file and the score inputs of a single uninterrupted run. */
  lemma ResumeRefinesOneRun(run: Runner, file: File, xs: seq<Instance>, cuts: seq<nat>)
    requires CutsWithin(cuts, |xs|)
    ensures AfterRun(run, AfterRuns(run, file, xs, cuts), xs) == AfterRun(run, file, xs)
    ensures ScoreInputs(AfterRun(run, AfterRuns(run, file, xs, cuts), xs)) == ScoreInputs(AfterRun(run, file, xs))
  {
    SeriesIsLongestRun(run, file, xs, cuts);
    InterruptedRunIsAbsorbed(run, file, xs, MaxCut(cuts), |xs|);
    assert xs[..|xs|] == xs;
  }

  ghost predicate OneRecordPerId(file: File) {
    forall i, j :: 0 <= i < j < |file| && file[i].Rec? && file[j].Rec? ==> file[i].record.id != file[j].record.id
  }

  lemma {:induction false} RecordIsCompleted(file: File, i: nat)
    requires i < |file| && file[i].Rec?
    ensures file[i].record.id in Completed(file)
  {
    if i < |file| - 1 { RecordIsCompleted(file[..|file| - 1], i); }
  }

  /** A run never writes a second record of an id, and never touches the lines already there. */
  lemma {:induction false} RunKeepsOneRecordPerId(run: Runner, file: File, xs: seq<Instance>)
    requires OneRecordPerId(file)
    ensures OneRecordPerId(AfterRun(run, file, xs)) && file <= AfterRun(run, file, xs)
  {
    if xs != [] {
      var before, x := AfterRun(run, file, xs[..|xs| - 1]), xs[|xs| - 1];
      RunKeepsOneRecordPerId(run, file, xs[..|xs| - 1]);
      if x.id !in Completed(before) {
        forall i | 0 <= i < |before| && before[i].Rec?
          ensures before[i].record.id != x.id
        {
          RecordIsCompleted(before, i);
        }
      }
    }
  }

  // ---------------------------------------------------------------- what is scored

  /** The records of a file, in order. */
  function Records(file: File): seq<Record> {
    if file == [] then []
    else if file[0].Rec? then [file[0].record] + Records(file[1..])
    else Records(file[1..])
  }

  lemma {:induction false} RecordsSnoc(file: File, l: Line)
    ensures Records(file + [l]) == Records(file) + if l.Rec? then [l.record] else []
  {
    var all := file + [l];
    if file == [] {
      assert all[1..] == [];
    } else {
      RecordsSnoc(file[1..], l);
      assert all[1..] == file[1..] + [l];
    }
  }

  /** The score is refused if and only if some line is an object without an id; otherwise it is taken over all
      records in order, and lines that are no JSON count for nothing. */
  lemma {:induction false} ScoreInputsAre(file: File)
    ensures ScoreInputs(file) == if NoId in file then None else Some(Records(file))
  {
    if file != [] {
      var init, last := file[..|file| - 1], file[|file| - 1];
      ScoreInputsAre(init);
      RecordsSnoc(init, last);
      assert file == init + [last];
      assert NoId in file <==> NoId in init || last == NoId;
      assert Records(init) + [] == Records(init);
    }
  }

  // ---------------------------------------------------------------- the skipped count

  /** Some instance among `xs` has this id and is long enough to be run. */
  predicate LongIn(xs: seq<Instance>, id: string) {
    exists i :: 0 <= i < |xs| && !Short(xs[i]) && xs[i].id == id
  }

  /** What a run completes is known from the list alone. */
  lemma {:induction false} CompletedAfterRun(run: Runner, file: File, xs: seq<Instance>, id: string)
    ensures id in Completed(AfterRun(run, file, xs)) <==> id in Completed(file) || LongIn(xs, id)
  {
    if xs != [] {
      var init, x := xs[..|xs| - 1], xs[|xs| - 1];
      CompletedAfterRun(run, file, init, id);
      CompletedSnoc(AfterRun(run, file, init), Result(run, x));
      LongInSnoc(xs, id);
    }
  }

  lemma LongInSnoc(xs: seq<Instance>, id: string)
    requires xs != []
    ensures LongIn(xs, id) <==> LongIn(xs[..|xs| - 1], id) || (!Short(xs[|xs| - 1]) && xs[|xs| - 1].id == id)
  {
    var init := xs[..|xs| - 1];
    if LongIn(init, id) {
      var i :| 0 <= i < |init| && !Short(init[i]) && init[i].id == id;
      assert !Short(xs[i]) && xs[i].id == id;
    }
    if LongIn(xs, id) {
      var i :| 0 <= i < |xs| && !Short(xs[i]) && xs[i].id == id;
      assert i < |init| ==> !Short(init[i]) && init[i].id == id;
    }
  }

  /** The instance at `i` is too short, its id is neither in the file nor run before `i`, and a longer instance
      of the same id stands between it and position `m`. */
  predicate OvertakenBy(file: File, xs: seq<Instance>, i: nat, m: nat)
    requires i < m <= |xs|
  {
    Short(xs[i]) && xs[i].id !in Completed(file) && !LongIn(xs[..i], xs[i].id) && LongIn(xs[i..m], xs[i].id)
  }

  lemma LongInSplit(xs: seq<Instance>, i: nat, m: nat, id: string)
    requires i <= m <= |xs|
    ensures LongIn(xs[..m], id) <==> LongIn(xs[..i], id) || LongIn(xs[i..m], id)
  {
    if LongIn(xs[..m], id) {
      var k :| 0 <= k < m && !Short(xs[..m][k]) && xs[..m][k].id == id;
      assert k < i ==> xs[..i][k] == xs[k];
      assert k >= i ==> xs[i..m][k - i] == xs[k];
    }
    if LongIn(xs[..i], id) {
      var k :| 0 <= k < i && !Short(xs[..i][k]) && xs[..i][k].id == id;
      assert xs[..m][k] == xs[k];
    }
    if LongIn(xs[i..m], id) {
      var k :| 0 <= k < m - i && !Short(xs[i..m][k]) && xs[i..m][k].id == id;
      assert xs[..m][i + k] == xs[i + k];
    }
  }

  /** Where the resumed run and the uninterrupted one skip differently: at an overtaken instance the latter
      reports a skip and the former does not; everywhere else they agree. */
  lemma SkipsDifferAt(run: Runner, file: File, xs: seq<Instance>, m: nat, i: nat)
    requires m <= |xs| && i < |xs|
    ensures var resumed := Skips(AfterRun(run, AfterRun(run, file, xs[..m]), xs[..i]), xs[i]);
            var whole := Skips(AfterRun(run, file, xs[..i]), xs[i]);
            if i < m && OvertakenBy(file, xs, i, m) then whole && !resumed else whole == resumed
  {
    var id := xs[i].id;
    CompletedAfterRun(run, file, xs[..i], id);
    CompletedAfterRun(run, file, xs[..m], id);
    if i < m {
      ShorterRerunIsIdle(run, file, xs, m, i);
      LongInSplit(xs, i, m, id);
    } else {
      InterruptedRunIsAbsorbed(run, file, xs, m, i);
    }
  }

  lemma CountSkippedStep(run: Runner, file: File, xs: seq<Instance>, n: nat)
    requires 0 < n <= |xs|
    ensures CountSkipped(run, file, xs[..n]) ==
            CountSkipped(run, file, xs[..n - 1]) + if Skips(AfterRun(run, file, xs[..n - 1]), xs[n - 1]) then 1 else 0
  {
    assert xs[..n][..n - 1] == xs[..n - 1];
  }

  predicate NoneOvertaken(file: File, xs: seq<Instance>, n: nat, m: nat)
    requires n <= |xs| && m <= |xs|
  {
    forall i :: 0 <= i < n && i < m ==> !OvertakenBy(file, xs, i, m)
  }

  lemma NoneOvertakenStep(file: File, xs: seq<Instance>, n: nat, m: nat)
    requires 0 < n <= |xs| && m <= |xs|
    ensures NoneOvertaken(file, xs, n, m) <==>
            NoneOvertaken(file, xs, n - 1, m) && (n - 1 < m ==> !OvertakenBy(file, xs, n - 1, m))
  {
  }

  lemma {:induction false} SkipsCompared(run: Runner, file: File, xs: seq<Instance>, m: nat, n: nat)
    requires m <= |xs| && n <= |xs|
    ensures var resumed := AfterRun(run, file, xs[..m]);
            && CountSkipped(run, resumed, xs[..n]) <= CountSkipped(run, file, xs[..n])
            && (CountSkipped(run, resumed, xs[..n]) == CountSkipped(run, file, xs[..n]) <==>
               NoneOvertaken(file, xs, n, m))
  {
    if n > 0 {
      SkipsCompared(run, file, xs, m, n - 1);
      CountSkippedStep(run, file, xs, n);
      CountSkippedStep(run, AfterRun(run, file, xs[..m]), xs, n);
      SkipsDifferAt(run, file, xs, m, n - 1);
      NoneOvertakenStep(file, xs, n, m);
    }
  }

  /** The reported `skipped` is the one thing a resume can change. After any series of interrupted runs the
      completing run reports at most as many skips as one uninterrupted run, and the same number if and only if
      no short instance is followed, within the longest interrupted run, by the first longer one of its id. */
  lemma SkippedAgreesIff(run: Runner, file: File, xs: seq<Instance>, cuts: seq<nat>)
    requires CutsWithin(cuts, |xs|)
    ensures MaxCut(cuts) <= |xs|
    ensures var resumed := AfterRuns(run, file, xs, cuts);
            && CountSkipped(run, resumed, xs) <= CountSkipped(run, file, xs)
            && (CountSkipped(run, resumed, xs) == CountSkipped(run, file, xs) <==>
                forall i :: 0 <= i < MaxCut(cuts) ==> !OvertakenBy(file, xs, i, MaxCut(cuts)))
  {
    SeriesIsLongestRun(run, file, xs, cuts);
    SkipsCompared(run, file, xs, MaxCut(cuts), |xs|);
    assert xs[..|xs|] == xs;
  }

  /** An input where it changes: a short instance and a longer one share an id; a second full run reports no
      skip where the first reported one. */
  lemma ResumeChangesSkipped(run: Runner, short: Instance, long: Instance)
    requires Short(short) && !Short(long) && short.id == long.id
    ensures CountSkipped(run, [], [short, long]) == 1
    ensures CountSkipped(run, AfterRuns(run, [], [short, long], [2]), [short, long]) == 0
  {
    var xs := [short, long];
    assert xs[..1] == [short] && [short][..0] == [];
    CompletedAfterRun(run, [], [short], short.id);
    assert !LongIn([short], short.id);
    assert CountSkipped(run, [], [short]) == 1;
    assert OvertakenBy([], xs, 0, 2) by { assert xs[0..2][1] == long; }
    assert [2][..0] == [] && MaxCut([2]) == 2;
    SkippedAgreesIff(run, [], xs, [2]);
  }
}
