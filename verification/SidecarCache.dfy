/** The mtime-keyed cache of parsed sidecar files, used while another process may rewrite the files: between
    the stat and the cache lookup, between the lookup and the read, and between the read and the store. */
module SidecarCache {

  type Checks = seq<string>

  datatype FileState = FileState(mtime: nat, content: Checks)

  /** The files on disk, and the latest mtime any write ever had. */
  datatype Disk = Disk(files: map<string, FileState>, clock: nat)

  datatype Write = Saved(path: string, mtime: nat, content: Checks) | Removed(path: string)

  function Written(d: Disk, w: Write): Disk {
    match w
    case Saved(path, mtime, content) =>
      Disk(d.files[path := FileState(mtime, content)], if mtime > d.clock then mtime else d.clock)
    case Removed(path) => Disk(d.files - {path}, d.clock)
  }

  function WrittenAll(d: Disk, ws: seq<Write>): Disk {
    if ws == [] then d else Written(WrittenAll(d, ws[..|ws| - 1]), ws[|ws| - 1])
  }

  /** Every save gets a later mtime than any save before it. */
  predicate Increasing(d: Disk, ws: seq<Write>) {
    ws == [] ||
    (Increasing(d, ws[..|ws| - 1]) &&
     (ws[|ws| - 1].Saved? ==> ws[|ws| - 1].mtime > WrittenAll(d, ws[..|ws| - 1]).clock))
  }

  /** A missing or unreadable file parses as no checks. */
  function Read(d: Disk, path: string): Checks {
    if path in d.files then d.files[path].content else []
  }

  type Cache = map<string, FileState>

  /** The writer's moves in the three gaps of one load. */
  datatype Gaps = Gaps(afterStat: seq<Write>, beforeRead: seq<Write>, afterRead: seq<Write>)

  datatype Loaded = Loaded(cache: Cache, disk: Disk, checks: Checks, hit: bool)

  function Load(cache: Cache, d: Disk, path: string, gaps: Gaps): Loaded {
    var atLookup := WrittenAll(d, gaps.afterStat);
    var atRead := WrittenAll(atLookup, gaps.beforeRead);
    if path !in d.files then Loaded(cache, atRead, Read(atRead, path), false)
    else
      var mtime := d.files[path].mtime;
      if path in cache && cache[path].mtime == mtime then Loaded(cache, atLookup, cache[path].content, true)
      else
        var checks := Read(atRead, path);
        Loaded(cache[path := FileState(mtime, checks)], WrittenAll(atRead, gaps.afterRead), checks, false)
  }

  class SidecarFiles {
    var disk: Disk
    constructor ()
      ensures disk == Disk(map[], 0)
    {
      disk := Disk(map[], 0);
    }

    /** The other process at work. */
    method Interfere(ws: seq<Write>)
      modifies this
      ensures disk == WrittenAll(old(disk), ws)
    {
      for i := 0 to |ws|
        invariant disk == WrittenAll(old(disk), ws[..i])
      {
        assert ws[..i + 1][..i] == ws[..i];
        disk := Written(disk, ws[i]);
      }
      assert ws[..|ws|] == ws;
    }
  }

  class DashboardProducerControl {
    var cache: Cache
    constructor ()
      ensures cache == map[]
    {
      cache := map[];
    }

    method LoadChecks(files: SidecarFiles, path: string, gaps: Gaps) returns (checks: Checks, ghost hit: bool)
      modifies this, files
      ensures Loaded(cache, files.disk, checks, hit) == Load(old(cache), old(files.disk), path, gaps)
    {
      if path !in files.disk.files {
        files.Interfere(gaps.afterStat);
        files.Interfere(gaps.beforeRead);
        return Read(files.disk, path), false;
      }
      var mtime := files.disk.files[path].mtime;
      files.Interfere(gaps.afterStat);
      if path in cache && cache[path].mtime == mtime { return cache[path].content, true; }
      files.Interfere(gaps.beforeRead);
      checks := Read(files.disk, path);
      files.Interfere(gaps.afterRead);
      cache := cache[path := FileState(mtime, checks)];
      hit := false;
    }
  }

  // ---------------------------------------------------------------- soundness

  /** No mtime is ahead of the clock, and an entry whose mtime is current holds the current content. */
  ghost predicate Sound(cache: Cache, d: Disk) {
    && (forall p :: p in d.files ==> d.files[p].mtime <= d.clock)
    && (forall p :: p in cache ==> cache[p].mtime <= d.clock)
    && (forall p :: p in cache && p in d.files && cache[p].mtime == d.files[p].mtime ==>
          cache[p].content == d.files[p].content)
  }

  lemma {:induction false} WritesKeepSound(cache: Cache, d: Disk, ws: seq<Write>)
    requires Sound(cache, d) && Increasing(d, ws)
    ensures Sound(cache, WrittenAll(d, ws))
  {
    if ws != [] { WritesKeepSound(cache, d, ws[..|ws| - 1]); }
  }

  lemma {:induction false} IncreasingConcat(d: Disk, a: seq<Write>, b: seq<Write>)
    ensures WrittenAll(d, a + b) == WrittenAll(WrittenAll(d, a), b)
    ensures Increasing(d, a + b) <==> Increasing(d, a) && Increasing(WrittenAll(d, a), b)
  {
    if b == [] {
      assert a + b == a;
    } else {
      IncreasingConcat(d, a, b[..|b| - 1]);
      assert (a + b)[..|a + b| - 1] == a + b[..|b| - 1];
    }
  }

  /** After increasing writes a file either is as it was, or is gone, or carries a later mtime. */
  lemma {:induction false} FileAfterWrites(d: Disk, ws: seq<Write>, path: string)
    requires Sound(map[], d) && Increasing(d, ws)
    ensures var e := WrittenAll(d, ws);
            && d.clock <= e.clock
            && (path in e.files ==>
               e.files[path].mtime > d.clock || (path in d.files && e.files[path] == d.files[path]))
  {
    if ws != [] { FileAfterWrites(d, ws[..|ws| - 1], path); }
  }

  /** A file that still carries its mtime was not touched in between: no moment of the sequence saw it otherwise. */
  lemma {:induction false} UnchangedThroughout(d: Disk, a: seq<Write>, b: seq<Write>, path: string)
    requires Sound(map[], d) && Increasing(d, a + b) && path in d.files
    requires var e := WrittenAll(d, a + b); path in e.files && e.files[path].mtime == d.files[path].mtime
    ensures var m := WrittenAll(d, a); path in m.files && m.files[path] == d.files[path]
  {
    IncreasingConcat(d, a, b);
    var m := WrittenAll(d, a);
    WritesKeepSound(map[], d, a);
    FileAfterWrites(d, a, path);
    FileAfterWrites(m, b, path);
  }

  ghost predicate GapsIncreasing(d: Disk, gaps: Gaps) {
    Increasing(d, gaps.afterStat + (gaps.beforeRead + gaps.afterRead))
  }

  /** Storing what was read under the mtime that was stat'ed is sound, whatever was written meanwhile. */
  lemma RacedStoreIsSound(cache: Cache, d: Disk, path: string, read: seq<Write>, after: seq<Write>)
    requires Sound(cache, d) && Increasing(d, read + after) && path in d.files
    ensures Sound(cache[path := FileState(d.files[path].mtime, Read(WrittenAll(d, read), path))],
                  WrittenAll(d, read + after))
  {
    var last := WrittenAll(d, read + after);
    WritesKeepSound(cache, d, read + after);
    FileAfterWrites(d, read + after, path);
    if path in last.files && last.files[path].mtime == d.files[path].mtime {
      UnchangedThroughout(d, read, after, path);
    }
  }

  lemma GapsAreSteps(d: Disk, gaps: Gaps)
    requires GapsIncreasing(d, gaps)
    ensures var read := gaps.afterStat + gaps.beforeRead;
            && Increasing(d, gaps.afterStat) && Increasing(d, read) && Increasing(d, read + gaps.afterRead)
            && WrittenAll(WrittenAll(d, gaps.afterStat), gaps.beforeRead) == WrittenAll(d, read)
            && WrittenAll(WrittenAll(d, read), gaps.afterRead) == WrittenAll(d, read + gaps.afterRead)
  {
    var read := gaps.afterStat + gaps.beforeRead;
    assert gaps.afterStat + (gaps.beforeRead + gaps.afterRead) == read + gaps.afterRead;
    IncreasingConcat(d, gaps.afterStat, gaps.beforeRead);
    IncreasingConcat(d, read, gaps.afterRead);
  }

  /** One load, with the writer active in every gap: soundness is kept even when the store is raced, and a
      hit returns what was on disk at the stat. */
  lemma LoadIsSound(cache: Cache, d: Disk, path: string, gaps: Gaps)
    requires Sound(cache, d) && GapsIncreasing(d, gaps)
    ensures var l := Load(cache, d, path, gaps);
            && Sound(l.cache, l.disk)
            && (l.hit ==> path in d.files && l.checks == d.files[path].content)
            && (!l.hit ==> l.checks == Read(WrittenAll(d, gaps.afterStat + gaps.beforeRead), path))
  {
    var read := gaps.afterStat + gaps.beforeRead;
    GapsAreSteps(d, gaps);
    if path !in d.files {
      WritesKeepSound(cache, d, read);
    } else if path in cache && cache[path].mtime == d.files[path].mtime {
      WritesKeepSound(cache, d, gaps.afterStat);
    } else {
      RacedStoreIsSound(cache, d, path, read, gaps.afterRead);
    }
  }

  /** A history of the whole: the writer alone, and loads with their gaps. */
  datatype Op = Writes(w: Write) | Loads(path: string, gaps: Gaps)

  function Run(ops: seq<Op>): (Cache, Disk) {
    if ops == [] then (map[], Disk(map[], 0))
    else
      var (cache, d) := Run(ops[..|ops| - 1]);
      match ops[|ops| - 1]
      case Writes(w) => (cache, Written(d, w))
      case Loads(path, gaps) => var l := Load(cache, d, path, gaps); (l.cache, l.disk)
  }

  /** Every save of the history, alone or in a gap, gets a fresh mtime. */
  ghost predicate FreshMtimes(ops: seq<Op>) {
    ops == [] ||
    (FreshMtimes(ops[..|ops| - 1]) &&
     var d := Run(ops[..|ops| - 1]).1;
     match ops[|ops| - 1]
     case Writes(w) => w.Saved? ==> w.mtime > d.clock
     case Loads(_, gaps) => GapsIncreasing(d, gaps))
  }

  /** Over every history with increasing mtimes a cache entry whose mtime is current holds the current content. */
  lemma {:induction false} CacheStaysSound(ops: seq<Op>)
    requires FreshMtimes(ops)
    ensures Sound(Run(ops).0, Run(ops).1)
  {
    if ops != [] {
      CacheStaysSound(ops[..|ops| - 1]);
      var (cache, d) := Run(ops[..|ops| - 1]);
      match ops[|ops| - 1]
      case Writes(w) =>
      case Loads(path, gaps) => LoadIsSound(cache, d, path, gaps);
    }
  }

  /** So every hit of a history answers with the content at its stat, however many earlier stores were raced. */
  lemma HitsAreCurrent(ops: seq<Op>, path: string, gaps: Gaps)
    requires FreshMtimes(ops + [Loads(path, gaps)])
    ensures var (cache, d) := Run(ops);
            Load(cache, d, path, gaps).hit ==>
              path in d.files && Load(cache, d, path, gaps).checks == d.files[path].content
  {
    assert (ops + [Loads(path, gaps)])[..|ops|] == ops;
    CacheStaysSound(ops);
    LoadIsSound(Run(ops).0, Run(ops).1, path, gaps);
  }

  /** Increasing mtimes are needed: a rewrite within one tick of the clock leaves a stale hit behind. */
  lemma SameTickGoesStale(path: string, first: Checks, second: Checks)
    requires first != second
    ensures var none := Gaps([], [], []);
            var ops := [Writes(Saved(path, 1, first)), Loads(path, none), Writes(Saved(path, 1, second))];
            var (cache, d) := Run(ops);
            var l := Load(cache, d, path, none);
            l.hit && l.checks == first && d.files[path].content == second
  {
    var none := Gaps([], [], []);
    var a, b, c := Writes(Saved(path, 1, first)), Loads(path, none), Writes(Saved(path, 1, second));
    assert [a, b, c][..2] == [a, b] && [a, b][..1] == [a] && [a][..0] == [];
    assert Run([a]) == (map[], Disk(map[path := FileState(1, first)], 1));
    assert Run([a, b]).0 == map[path := FileState(1, first)];
  }
}
