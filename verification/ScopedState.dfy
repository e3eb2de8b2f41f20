/** The shared per-invocation state: an insertion-ordered store keyed by invocation and name, bounded in the
    number of invocations, and the namespaced views through which several controls share it. */
module ScopedState {
  import opened Basics

  const SEPARATOR := "\U{1F}"

  datatype Key = Key(scope: string, name: string)
  datatype Entry = Entry(key: Key, value: int)
  type Store = seq<Entry>

  // ---------------------------------------------------------------- the store

  function Find(st: Store, k: Key): Option<int> {
    if st == [] then None
    else if st[|st| - 1].key == k then Some(st[|st| - 1].value)
    else Find(st[..|st| - 1], k)
  }

  function Replaced(st: Store, k: Key, v: int): Store {
    if st == [] then []
    else Replaced(st[..|st| - 1], k, v) + [if st[|st| - 1].key == k then Entry(k, v) else st[|st| - 1]]
  }

  /** A known key keeps its place, a new one goes last. */
  function Put(st: Store, k: Key, v: int): Store {
    if Find(st, k).Some? then Replaced(st, k, v) else st + [Entry(k, v)]
  }

  function Popped(st: Store, k: Key): Store {
    if st == [] then []
    else Popped(st[..|st| - 1], k) + if st[|st| - 1].key == k then [] else [st[|st| - 1]]
  }

  function WithoutScope(st: Store, scope: string): (out: Store)
    ensures |out| <= |st|
    ensures st != [] && st[0].key.scope == scope ==> |out| < |st|
  {
    if st == [] then []
    else WithoutScope(st[..|st| - 1], scope) + if st[|st| - 1].key.scope == scope then [] else [st[|st| - 1]]
  }

  /** The invocations alive. */
  function Scopes(st: Store): set<string> {
    if st == [] then {} else Scopes(st[..|st| - 1]) + {st[|st| - 1].key.scope}
  }

  /** Evicts whole invocations, oldest first, until at most `max` are left. */
  function Bounded(st: Store, max: nat): Store
    decreases |st|
  {
    if st == [] || |Scopes(st)| <= max then st else Bounded(WithoutScope(st, st[0].key.scope), max)
  }

  function SetScoped(st: Store, k: Key, v: int, max: nat): Store { Bounded(Put(st, k, v), max) }

  class PerInvocationState {
    const maxScopes: nat
    var store: Store

    constructor (maxScopes: nat)
      ensures this.maxScopes == maxScopes && store == []
    {
      this.maxScopes, store := maxScopes, [];
    }

    method Get(k: Key, default: int) returns (v: int)
      ensures v == if Find(store, k).Some? then Find(store, k).value else default
    {
      var found := Find(store, k);
      v := if found.Some? then found.value else default;
    }

    method Set(k: Key, v: int)
      modifies this
      ensures store == SetScoped(old(store), k, v, maxScopes)
    {
      store := Put(store, k, v);
      while store != [] && |Scopes(store)| > maxScopes
        invariant Bounded(store, maxScopes) == SetScoped(old(store), k, v, maxScopes)
        decreases |store|
      {
        store := WithoutScope(store, store[0].key.scope);
      }
    }

    method Pop(k: Key)
      modifies this
      ensures store == Popped(old(store), k)
    {
      store := Popped(store, k);
    }

    method ClearInvocation(scope: string)
      modifies this
      ensures store == WithoutScope(old(store), scope)
    {
      store := WithoutScope(store, scope);
    }
  }

  // ---------------------------------------------------------------- the store as a map

  lemma {:induction false} FindReplaced(st: Store, k: Key, v: int, q: Key)
    ensures Find(Replaced(st, k, v), q) == if q == k && Find(st, k).Some? then Some(v) else Find(st, q)
  {
    if st != [] {
      var out := Replaced(st, k, v);
      FindReplaced(st[..|st| - 1], k, v, q);
      assert out[..|out| - 1] == Replaced(st[..|st| - 1], k, v);
    }
  }

  lemma FindPut(st: Store, k: Key, v: int, q: Key)
    ensures Find(Put(st, k, v), q) == if q == k then Some(v) else Find(st, q)
  {
    FindReplaced(st, k, v, q);
    var out := st + [Entry(k, v)];
    assert out[..|out| - 1] == st;
  }

  lemma {:induction false} FindPopped(st: Store, k: Key, q: Key)
    ensures Find(Popped(st, k), q) == if q == k then None else Find(st, q)
  {
    if st != [] {
      var before, out := Popped(st[..|st| - 1], k), Popped(st, k);
      FindPopped(st[..|st| - 1], k, q);
      if st[|st| - 1].key == k { assert out == before; } else { assert out[..|out| - 1] == before; }
    }
  }

  lemma {:induction false} FindWithoutScope(st: Store, scope: string, q: Key)
    ensures Find(WithoutScope(st, scope), q) == if q.scope == scope then None else Find(st, q)
  {
    if st != [] {
      var before, out := WithoutScope(st[..|st| - 1], scope), WithoutScope(st, scope);
      FindWithoutScope(st[..|st| - 1], scope, q);
      if st[|st| - 1].key.scope == scope { assert out == before; } else { assert out[..|out| - 1] == before; }
    }
  }

  lemma {:induction false} ReplacedAt(st: Store, k: Key, v: int, i: nat)
    requires i < |st|
    ensures |Replaced(st, k, v)| == |st|
    ensures Replaced(st, k, v)[i] == Entry(st[i].key, if st[i].key == k then v else st[i].value)
  {
    if |st| > 1 { ReplacedAt(st[..|st| - 1], k, v, if i < |st| - 1 then i else 0); }
  }

  /** A write keeps insertion order: a key already there keeps its place, with the new value, and a new key comes
      after all others. */
  lemma PutKeepsOrder(st: Store, k: Key, v: int, i: nat)
    requires i < |Put(st, k, v)|
    ensures var out := Put(st, k, v);
            if Find(st, k).Some?
            then |out| == |st| && out[i] == Entry(st[i].key, if st[i].key == k then v else st[i].value)
            else |out| == |st| + 1 && out[i] == if i < |st| then st[i] else Entry(k, v)
  {
    if Find(st, k).Some? && st != [] { ReplacedAt(st, k, v, if i < |st| then i else 0); }
  }

  lemma {:induction false} PoppedConcat(a: Store, b: Store, k: Key)
    ensures Popped(a + b, k) == Popped(a, k) + Popped(b, k)
  {
    if b == [] {
      assert a + b == a;
    } else {
      PoppedConcat(a, b[..|b| - 1], k);
      assert (a + b)[..|a + b| - 1] == a + b[..|b| - 1];
    }
  }

  lemma {:induction false} WithoutScopeConcat(a: Store, b: Store, scope: string)
    ensures WithoutScope(a + b, scope) == WithoutScope(a, scope) + WithoutScope(b, scope)
  {
    if b == [] {
      assert a + b == a;
    } else {
      WithoutScopeConcat(a, b[..|b| - 1], scope);
      assert (a + b)[..|a + b| - 1] == a + b[..|b| - 1];
    }
  }

  /** Removals keep the order of what stays: of two parts of a store they leave what they leave of each, and of one
      entry that entry or nothing. */
  lemma RemovalsKeepOrder(a: Store, b: Store, e: Entry, k: Key)
    ensures Popped(a + b, k) == Popped(a, k) + Popped(b, k)
    ensures Popped([e], k) == if e.key == k then [] else [e]
    ensures WithoutScope(a + b, k.scope) == WithoutScope(a, k.scope) + WithoutScope(b, k.scope)
    ensures WithoutScope([e], k.scope) == if e.key.scope == k.scope then [] else [e]
  {
    PoppedConcat(a, b, k);
    WithoutScopeConcat(a, b, k.scope);
    assert [e][..0] == [];
  }

  lemma {:induction false} FoundIsEntry(st: Store, k: Key)
    ensures Find(st, k).Some? <==> exists i :: 0 <= i < |st| && st[i].key == k
  {
    if st != [] {
      FoundIsEntry(st[..|st| - 1], k);
      if Find(st[..|st| - 1], k).Some? {
        var i :| 0 <= i < |st| - 1 && st[..|st| - 1][i].key == k;
        assert st[i].key == k;
      }
    }
  }

  /** No invocation is evicted while few enough are alive, counting the one written to. */
  lemma SetWithoutEviction(st: Store, k: Key, v: int, max: nat)
    requires |Scopes(st) + {k.scope}| <= max
    ensures SetScoped(st, k, v, max) == Put(st, k, v)
    ensures Scopes(Put(st, k, v)) <= Scopes(st) + {k.scope}
  {
    var out := Put(st, k, v);
    ReplacedScopes(st, k, v);
    assert (st + [Entry(k, v)])[..|st|] == st;
    assert Scopes(out) <= Scopes(st) + {k.scope};
    assert Scopes(st) + {k.scope} == Scopes(out) + (Scopes(st) + {k.scope} - Scopes(out));
  }

  lemma {:induction false} ReplacedScopes(st: Store, k: Key, v: int)
    ensures Scopes(Replaced(st, k, v)) <= Scopes(st) + {k.scope}
  {
    if st != [] {
      ReplacedScopes(st[..|st| - 1], k, v);
      var out := Replaced(st, k, v);
      assert out[..|out| - 1] == Replaced(st[..|st| - 1], k, v);
    }
  }

  lemma {:induction false} PoppedScopes(st: Store, k: Key)
    ensures Scopes(Popped(st, k)) <= Scopes(st)
  {
    if st != [] {
      var before, out := Popped(st[..|st| - 1], k), Popped(st, k);
      PoppedScopes(st[..|st| - 1], k);
      if st[|st| - 1].key == k { assert out == before; } else { assert out[..|out| - 1] == before; }
    }
  }

  lemma {:induction false} WithoutScopeScopes(st: Store, scope: string)
    ensures Scopes(WithoutScope(st, scope)) <= Scopes(st)
  {
    if st != [] {
      var before, out := WithoutScope(st[..|st| - 1], scope), WithoutScope(st, scope);
      WithoutScopeScopes(st[..|st| - 1], scope);
      if st[|st| - 1].key.scope == scope { assert out == before; } else { assert out[..|out| - 1] == before; }
    }
  }

  lemma {:induction false} WithoutScopeExactly(st: Store, scope: string)
    ensures Scopes(WithoutScope(st, scope)) == Scopes(st) - {scope}
  {
    if st != [] {
      var before, out := WithoutScope(st[..|st| - 1], scope), WithoutScope(st, scope);
      WithoutScopeExactly(st[..|st| - 1], scope);
      if st[|st| - 1].key.scope == scope { assert out == before; } else { assert out[..|out| - 1] == before; }
    }
  }

  lemma {:induction false} FirstScopeIsAlive(st: Store)
    requires st != []
    ensures st[0].key.scope in Scopes(st)
  {
    if |st| > 1 { FirstScopeIsAlive(st[..|st| - 1]); }
  }

  /** In a full store the first write of a new invocation evicts exactly the oldest one, whole. */
  lemma OverflowEvictsOldest(st: Store, k: Key, v: int, max: nat)
    requires st != [] && |Scopes(st)| == max && k.scope !in Scopes(st) && Find(st, k).None?
    ensures SetScoped(st, k, v, max) == WithoutScope(st + [Entry(k, v)], st[0].key.scope)
    ensures forall q :: Find(SetScoped(st, k, v, max), q) ==
              if q == k then Some(v) else if q.scope == st[0].key.scope then None else Find(st, q)
  {
    var out, oldest := st + [Entry(k, v)], st[0].key.scope;
    assert out[..|st|] == st && out[0] == st[0];
    FirstScopeIsAlive(st);
    WithoutScopeExactly(out, oldest);
    assert Scopes(out) == Scopes(st) + {k.scope};
    assert |Scopes(out)| == max + 1;
    assert |Scopes(WithoutScope(out, oldest))| == max;
    assert Bounded(out, max) == Bounded(WithoutScope(out, oldest), max);
    forall q
      ensures Find(WithoutScope(out, oldest), q) == if q == k then Some(v) else if q.scope == oldest then None
              else Find(st, q)
    {
      FindWithoutScope(out, oldest, q);
      FindPut(st, k, v, q);
    }
  }

  // ---------------------------------------------------------------- namespaced views

  function Prefix(ns: string): string { ns + SEPARATOR }

  function Stored(ns: string, k: Key): Key { Key(k.scope, Prefix(ns) + k.name) }

  function ViewFind(st: Store, ns: string, k: Key): Option<int> { Find(st, Stored(ns, k)) }

  /** The keys a view iterates over, in store order, with the namespace taken off. */
  function ViewKeys(st: Store, ns: string): seq<Key> {
    if st == [] then []
    else
      var k := st[|st| - 1].key;
      ViewKeys(st[..|st| - 1], ns) + if Prefix(ns) <= k.name then [Key(k.scope, k.name[|Prefix(ns)|..])] else []
  }

  datatype Deletion = Deleted | NoSuchKey

  /** A live view; it holds no state of its own. */
  class ScopedScalarView {
    const state: PerInvocationState
    const ns: string

    constructor (state: PerInvocationState, ns: string)
      ensures this.state == state && this.ns == ns
    {
      this.state, this.ns := state, ns;
    }

    method GetItem(k: Key) returns (v: Option<int>)
      ensures v == ViewFind(state.store, ns, k)
    {
      v := Find(state.store, Stored(ns, k));
    }

    method SetItem(k: Key, v: int)
      modifies state
      ensures state.store == SetScoped(old(state.store), Stored(ns, k), v, state.maxScopes)
    {
      state.Set(Stored(ns, k), v);
    }

    method DelItem(k: Key) returns (r: Deletion)
      modifies state
      ensures r == if ViewFind(old(state.store), ns, k).Some? then Deleted else NoSuchKey
      ensures state.store == Popped(old(state.store), Stored(ns, k))
    {
      var present := Find(state.store, Stored(ns, k));
      if present.None? {
        PopOfAbsent(state.store, Stored(ns, k));
        return NoSuchKey;
      }
      state.Pop(Stored(ns, k));
      r := Deleted;
    }

    method Iterate() returns (keys: seq<Key>)
      ensures keys == ViewKeys(state.store, ns)
    {
      keys := [];
      var st := state.store;
      for i := 0 to |st|
        invariant keys == ViewKeys(st[..i], ns)
      {
        assert st[..i + 1][..i] == st[..i];
        var k := st[i].key;
        if Prefix(ns) <= k.name { keys := keys + [Key(k.scope, k.name[|Prefix(ns)|..])]; }
      }
      assert st[..|st|] == st;
    }
  }

  /** The keys of a view come in store order. */
  lemma {:induction false} ViewKeysConcat(a: Store, b: Store, ns: string)
    ensures ViewKeys(a + b, ns) == ViewKeys(a, ns) + ViewKeys(b, ns)
  {
    if b == [] {
      assert a + b == a;
    } else {
      ViewKeysConcat(a, b[..|b| - 1], ns);
      assert (a + b)[..|a + b| - 1] == a + b[..|b| - 1];
    }
  }

  lemma {:induction false} PopOfAbsent(st: Store, k: Key)
    requires Find(st, k).None?
    ensures Popped(st, k) == st
  {
    if st != [] {
      PopOfAbsent(st[..|st| - 1], k);
      assert st == st[..|st| - 1] + [st[|st| - 1]];
    }
  }

  /** Two namespaces never reach the same stored name exactly when neither, with its separator, extends the
      other: distinct namespaces without separator always qualify. */
  lemma NamespacesDisjointIff(a: string, b: string)
    ensures (forall m, n :: Prefix(a) + m != Prefix(b) + n) <==> !(Prefix(a) <= Prefix(b)) && !(Prefix(b) <= Prefix(a))
  {
    if Prefix(a) <= Prefix(b) {
      assert Prefix(a) + Prefix(b)[|Prefix(a)|..] == Prefix(b) + "";
    }
    if Prefix(b) <= Prefix(a) {
      assert Prefix(a) + "" == Prefix(b) + Prefix(a)[|Prefix(b)|..];
    }
    if !(Prefix(a) <= Prefix(b)) && !(Prefix(b) <= Prefix(a)) {
      forall m, n
        ensures Prefix(a) + m != Prefix(b) + n
      {
        CommonExtension(Prefix(a), Prefix(b), m, n);
      }
    }
  }

  lemma CommonExtension(p: string, q: string, m: string, n: string)
    ensures p + m == q + n ==> p <= q || q <= p
  {
    if p + m == q + n {
      var s := p + m;
      assert s[..|p|] == p && s[..|q|] == q;
    }
  }

  lemma PlainNamespacesAreDisjoint(a: string, b: string)
    requires a != b && SEPARATOR[0] !in a && SEPARATOR[0] !in b
    ensures !(Prefix(a) <= Prefix(b))
  {
    assert Prefix(a)[|a|] == SEPARATOR[0];
    if |a| < |b| {
      assert Prefix(b)[|a|] == b[|a|];
    } else if |a| == |b| {
      assert Prefix(a)[..|a|] == a && Prefix(b)[..|a|] == b;
    }
  }

  lemma StoredDiffer(a: string, b: string, k: Key, q: Key)
    requires a != b && SEPARATOR[0] !in a && SEPARATOR[0] !in b
    ensures Stored(a, k) != Stored(b, q)
  {
    PlainNamespacesAreDisjoint(a, b);
    PlainNamespacesAreDisjoint(b, a);
    NamespacesDisjointIff(a, b);
  }

  lemma StoredInjective(ns: string, k: Key, q: Key)
    ensures Stored(ns, k) == Stored(ns, q) <==> k == q
  {
    assert Stored(ns, k).name[|Prefix(ns)|..] == k.name;
    assert Stored(ns, q).name[|Prefix(ns)|..] == q.name;
  }

  /** Setting through a view is a map update on that view and invisible through every other. */
  lemma ViewSet(st: Store, ns: string, other: string, k: Key, v: int, max: nat, q: Key)
    requires ns != other && SEPARATOR[0] !in ns && SEPARATOR[0] !in other
    requires |Scopes(st) + {k.scope}| <= max
    ensures var out := SetScoped(st, Stored(ns, k), v, max);
            && ViewFind(out, ns, q) == (if q == k then Some(v) else ViewFind(st, ns, q))
            && ViewFind(out, other, q) == ViewFind(st, other, q)
  {
    SetWithoutEviction(st, Stored(ns, k), v, max);
    FindPut(st, Stored(ns, k), v, Stored(ns, q));
    FindPut(st, Stored(ns, k), v, Stored(other, q));
    StoredInjective(ns, k, q);
    StoredDiffer(ns, other, k, q);
  }

  /** Deleting through a view likewise. */
  lemma ViewDelete(st: Store, ns: string, other: string, k: Key, q: Key)
    requires ns != other && SEPARATOR[0] !in ns && SEPARATOR[0] !in other
    ensures var out := Popped(st, Stored(ns, k));
            && ViewFind(out, ns, q) == (if q == k then None else ViewFind(st, ns, q))
            && ViewFind(out, other, q) == ViewFind(st, other, q)
  {
    FindPopped(st, Stored(ns, k), Stored(ns, q));
    FindPopped(st, Stored(ns, k), Stored(other, q));
    StoredInjective(ns, k, q);
    StoredDiffer(ns, other, k, q);
  }

  /** Each key occurs once. */
  ghost predicate Unique(st: Store) {
    forall i, j :: 0 <= i < j < |st| ==> st[i].key != st[j].key
  }

  /** Iteration yields exactly the keys that can be got, each once; so the length is the number of them. */
  lemma {:induction false} ViewIteratesItsKeys(st: Store, ns: string)
    requires Unique(st)
    ensures forall k :: k in ViewKeys(st, ns) <==> ViewFind(st, ns, k).Some?
    ensures forall i, j :: 0 <= i < j < |ViewKeys(st, ns)| ==> ViewKeys(st, ns)[i] != ViewKeys(st, ns)[j]
  {
    if st != [] {
      var init, last := st[..|st| - 1], st[|st| - 1].key;
      assert Unique(init);
      ViewIteratesItsKeys(init, ns);
      if Prefix(ns) <= last.name {
        var own := Key(last.scope, last.name[|Prefix(ns)|..]);
        assert Stored(ns, own) == last;
        FoundIsEntry(init, last);
        assert ViewFind(init, ns, own) == None;
        forall k ensures Stored(ns, k) == last <==> k == own { StoredInjective(ns, k, own); }
      } else {
        forall k ensures Stored(ns, k) != last { assert Prefix(ns) <= Stored(ns, k).name; }
      }
    }
  }

  lemma {:induction false} ReplacedKeys(st: Store, k: Key, v: int)
    ensures |Replaced(st, k, v)| == |st|
    ensures forall i :: 0 <= i < |st| ==> Replaced(st, k, v)[i].key == st[i].key
  {
    if st != [] { ReplacedKeys(st[..|st| - 1], k, v); }
  }

  lemma UniqueAppend(st: Store, e: Entry)
    requires Unique(st) && Find(st, e.key).None?
    ensures Unique(st + [e])
  {
    FoundIsEntry(st, e.key);
  }

  lemma {:induction false} UniquePopped(st: Store, k: Key)
    requires Unique(st)
    ensures Unique(Popped(st, k))
  {
    if st != [] {
      var init, last := st[..|st| - 1], st[|st| - 1];
      UniquePopped(init, k);
      FoundIsEntry(init, last.key);
      FindPopped(init, k, last.key);
      UniqueAppend(Popped(init, k), last);
      assert Popped(init, k) + [] == Popped(init, k);
    }
  }

  lemma {:induction false} UniqueWithoutScope(st: Store, scope: string)
    requires Unique(st)
    ensures Unique(WithoutScope(st, scope))
  {
    if st != [] {
      var init, last := st[..|st| - 1], st[|st| - 1];
      UniqueWithoutScope(init, scope);
      FoundIsEntry(init, last.key);
      FindWithoutScope(init, scope, last.key);
      UniqueAppend(WithoutScope(init, scope), last);
      assert WithoutScope(init, scope) + [] == WithoutScope(init, scope);
    }
  }

  lemma {:induction false} UniqueBounded(st: Store, max: nat)
    requires Unique(st)
    ensures Unique(Bounded(st, max))
    ensures Bounded(st, max) == [] || |Scopes(Bounded(st, max))| <= max
    decreases |st|
  {
    if st != [] && |Scopes(st)| > max {
      UniqueWithoutScope(st, st[0].key.scope);
      UniqueBounded(WithoutScope(st, st[0].key.scope), max);
    }
  }

  /** Every write keeps the keys unique and the number of invocations within the bound. */
  lemma SetKeepsStoreSound(st: Store, k: Key, v: int, max: nat)
    requires Unique(st)
    ensures Unique(SetScoped(st, k, v, max))
    ensures SetScoped(st, k, v, max) == [] || |Scopes(SetScoped(st, k, v, max))| <= max
  {
    ReplacedKeys(st, k, v);
    if Find(st, k).None? { UniqueAppend(st, Entry(k, v)); }
    assert Unique(Put(st, k, v));
    UniqueBounded(Put(st, k, v), max);
  }
}
