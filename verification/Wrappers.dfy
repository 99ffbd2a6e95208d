/** What several modules share. */
module Wrappers {

  datatype Option<+T> = None | Some(value: T)

  /** No element occurs twice. */
  ghost predicate Distinct<T>(s: seq<T>) {
    forall i, j :: 0 <= i < j < |s| ==> s[i] != s[j]
  }

  lemma SameMap<T>(a: map<int, T>, b: map<int, T>)
    requires forall k :: k in a <==> k in b
    requires forall k :: k in a ==> a[k] == b[k]
    ensures a == b
  {
    forall k ensures k in a <==> k in b {}
    forall k | k in a ensures a[k] == b[k] {}
    assert a.Keys == b.Keys;
  }

  lemma NoKeys<T>(a: map<int, T>)
    requires forall k :: k !in a
    ensures a == map[]
  {
    var none: map<int, T> := map[];
    SameMap(a, none);
  }

  /** A set that is not empty has an element. */
  lemma ElementOf<T>(s: set<T>) returns (x: T)
    requires |s| > 0
    ensures x in s
  {
    x :| x in s;
  }
}
