/** Shared wrappers and the "keep the first of each key" de-duplication that
    the widgets use on their collections (a collection's unique(key), PHP's
    array_unique, and the multi-dimensional unique-by-column helper). */
module Common {

  datatype Option<+T> = None | Some(value: T)

  function Last<T>(s: seq<T>): T
    requires |s| > 0
  {
    s[|s| - 1]
  }

  function DropLast<T>(s: seq<T>): seq<T>
    requires |s| > 0
  {
    s[..|s| - 1]
  }

  /** The identity, as the key of a de-duplication by value. */
  function Self<T>(x: T): T
  {
    x
  }

  /** The keys that the elements of s carry. */
  function KeySet<T(==), K(==)>(s: seq<T>, key: T -> K): set<K>
  {
    set x | x in s :: key(x)
  }

  lemma KeySetAppend<T, K>(s: seq<T>, x: T, key: T -> K)
    ensures KeySet(s + [x], key) == KeySet(s, key) + {key(x)}
  {
    assert forall y :: y in s + [x] <==> y in s || y == x;
  }

  /** Keeps, for every key, the first element of s that carries it, in the
      order of s. */
  function UniqueBy<T(==), K(==)>(s: seq<T>, key: T -> K): seq<T>
    decreases |s|
  {
    if s == [] then []
    else
      var u := UniqueBy(DropLast(s), key);
      if key(Last(s)) in KeySet(u, key) then u else u + [Last(s)]
  }

  /** The indices of the elements of s that keep holds for, in increasing
      order: the positions a filter that keeps the order of s takes its
      elements from. */
  function Positions<T>(s: seq<T>, keep: T -> bool): (r: seq<nat>)
    ensures forall k :: 0 <= k < |r| ==> r[k] < |s| && keep(s[r[k]])
    ensures forall i :: 0 <= i < |s| && keep(s[i]) ==> i in r
    ensures forall k, m :: 0 <= k < m < |r| ==> r[k] < r[m]
    decreases |s|
  {
    if s == [] then []
    else
      var init := DropLast(s);
      assert forall i :: 0 <= i < |init| ==> init[i] == s[i];
      Positions(init, keep) + if keep(Last(s)) then [|s| - 1] else []
  }

  /** Positions of a non-empty sequence: those of all but the last
      element, then the last index when its element is kept. */
  lemma PositionsSnoc<T>(s: seq<T>, keep: T -> bool)
    requires s != []
    ensures Positions(s, keep) == Positions(DropLast(s), keep) + if keep(Last(s)) then [|s| - 1] else []
  {
  }

  /** Pairwise-distinct keys. */
  ghost predicate DistinctKeys<T, K>(s: seq<T>, key: T -> K)
  {
    forall i, j :: 0 <= i < j < |s| ==> key(s[i]) != key(s[j])
  }

  /** The result of UniqueBy carries each key at most once, holds only
      elements of the input, and carries exactly the keys of the input. */
  lemma {:induction false} UniqueByFacts<T, K>(s: seq<T>, key: T -> K)
    ensures DistinctKeys(UniqueBy(s, key), key)
    ensures forall x :: x in UniqueBy(s, key) ==> x in s
    ensures KeySet(UniqueBy(s, key), key) == KeySet(s, key)
    decreases |s|
  {
    if s != [] {
      var init, x := DropLast(s), Last(s);
      assert s == init + [x];
      UniqueByFacts(init, key);
      var u := UniqueBy(init, key);
      KeySetAppend(init, x, key);
      if key(x) !in KeySet(u, key) {
        KeySetAppend(u, x, key);
        var v := u + [x];
        forall i, j | 0 <= i < j < |v| ensures key(v[i]) != key(v[j]) {
          if j == |u| {
            assert v[i] in u;
          }
        }
      }
    }
  }

  /** An element that is the first of its key in s is kept. */
  lemma {:induction false} UniqueByKeepsFirst<T, K>(s: seq<T>, key: T -> K, i: nat)
    requires i < |s|
    requires forall j :: 0 <= j < i ==> key(s[j]) != key(s[i])
    ensures s[i] in UniqueBy(s, key)
    decreases |s|
  {
    var init, x := DropLast(s), Last(s);
    if i < |s| - 1 {
      UniqueByKeepsFirst(init, key, i);
    } else {
      UniqueByFacts(init, key);
      assert s == init + [x];
      forall y | y in init ensures key(y) != key(x) {
        var j :| 0 <= j < |init| && init[j] == y;
        assert s[j] == y;
      }
      assert key(x) !in KeySet(init, key);
    }
  }
}
