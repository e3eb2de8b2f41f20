/** What several modules need: an optional value, and a few facts about numbers and sets. */
module Basics {

  datatype Option<+T> = None | Some(value: T)

  function Min(a: nat, b: nat): nat { if a < b then a else b }

  function Max(a: nat, b: nat): nat { if a < b then b else a }

  lemma SubsetSize<T>(a: set<T>, b: set<T>)
    requires a <= b
    ensures |a| <= |b|
  {
    assert b == a + (b - a);
  }

  lemma CancelFactor(x: real, y: real, s: real)
    requires s > 0.0 && x * s <= y * s
    ensures x <= y
  {
  }

  lemma TakeAndDrop<T>(s: seq<T>, b: nat)
    requires b <= |s|
    ensures s == s[..b] + s[b..]
  {
  }
}
