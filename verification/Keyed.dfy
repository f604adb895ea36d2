/** Lists kept sorted by a numeric key, and the maps they list. */
module Keyed {
  import opened Lists

  ghost predicate AscendingBy<T>(s: seq<T>, key: T -> nat) {
    forall i, j :: 0 <= i < j < |s| ==> key(s[i]) < key(s[j])
  }

  ghost predicate KeysApart<T>(s: seq<T>, key: T -> nat) {
    forall i, j :: 0 <= i < j < |s| ==> key(s[i]) != key(s[j])
  }

  /** The list is the listing of the map in key order. */
  ghost predicate ListingOf<T(!new)>(s: seq<T>, key: T -> nat, m: map<nat, T>) {
    && AscendingBy(s, key)
    && (forall x :: x in s ==> key(x) in m && m[key(x)] == x)
    && (forall k :: k in m ==> key(m[k]) == k && m[k] in s)
  }

  lemma {:induction false} ListingUnique<T(!new)>(a: seq<T>, b: seq<T>, key: T -> nat)
    requires AscendingBy(a, key) && AscendingBy(b, key) && forall x :: x in a <==> x in b
    ensures a == b
  {
    assert a != [] ==> a[0] in a;
    assert b != [] ==> b[0] in b;
    if a != [] && b != [] {
      var i :| 0 <= i < |b| && b[i] == a[0];
      var j :| 0 <= j < |a| && a[j] == b[0];
      assert a[0] == b[0] by { HeadLeast(a, key, j); HeadLeast(b, key, i); }
      forall x ensures x in a[1..] <==> x in b[1..] {
        TailApart(a, key, x);
        TailApart(b, key, x);
      }
      ListingUnique(a[1..], b[1..], key);
    }
  }

  lemma HeadLeast<T>(a: seq<T>, key: T -> nat, j: nat)
    requires AscendingBy(a, key) && j < |a|
    ensures key(a[0]) <= key(a[j]) && (key(a[0]) == key(a[j]) ==> j == 0)
  {
  }

  lemma TailApart<T(!new)>(a: seq<T>, key: T -> nat, x: T)
    requires AscendingBy(a, key) && a != []
    ensures x in a[1..] <==> x in a && x != a[0]
  {
    assert a == [a[0]] + a[1..];
  }

  /** A map has one listing. */
  lemma OneListing<T(!new)>(a: seq<T>, b: seq<T>, key: T -> nat, m: map<nat, T>)
    requires ListingOf(a, key, m) && ListingOf(b, key, m)
    ensures a == b
  {
    ListingUnique(a, b, key);
  }

  // ---- stable sorting by the key ----

  function InsertBy<T>(x: T, s: seq<T>, key: T -> nat): seq<T> {
    if s == [] then [x]
    else if key(x) < key(s[0]) then [x] + s
    else [s[0]] + InsertBy(x, s[1..], key)
  }

  function SortBy<T>(s: seq<T>, key: T -> nat): seq<T> {
    if s == [] then [] else InsertBy(s[|s| - 1], SortBy(s[..|s| - 1], key), key)
  }

  lemma {:induction false} InsertByMember<T(!new)>(x: T, s: seq<T>, key: T -> nat, y: T)
    ensures y in InsertBy(x, s, key) <==> y == x || y in s
  {
    if s != [] && key(x) >= key(s[0]) {
      InsertByMember(x, s[1..], key, y);
      assert s == [s[0]] + s[1..];
    }
  }

  lemma {:induction false} InsertByAscending<T(!new)>(x: T, s: seq<T>, key: T -> nat)
    requires AscendingBy(s, key) && forall y :: y in s ==> key(y) != key(x)
    ensures AscendingBy(InsertBy(x, s, key), key)
  {
    if s != [] {
      assert s[0] in s;
      if key(x) > key(s[0]) {
        var rest := InsertBy(x, s[1..], key);
        InsertByAscending(x, s[1..], key);
        forall j | 0 <= j < |rest| ensures key(s[0]) < key(rest[j]) {
          InsertByMember(x, s[1..], key, rest[j]);
          if rest[j] != x {
            var k :| 0 <= k < |s[1..]| && s[1..][k] == rest[j];
            assert s[k + 1] == rest[j];
          }
        }
      }
    }
  }

  lemma {:induction false} SortByListing<T(!new)>(s: seq<T>, key: T -> nat)
    requires KeysApart(s, key)
    ensures AscendingBy(SortBy(s, key), key)
    ensures forall y :: y in SortBy(s, key) <==> y in s
  {
    if s != [] {
      var rest, x := s[..|s| - 1], s[|s| - 1];
      SortByListing(rest, key);
      var sorted := SortBy(rest, key);
      assert s == rest + [x];
      forall y | y in sorted ensures key(y) != key(x) {
        var k :| 0 <= k < |rest| && rest[k] == y;
        assert s[k] == y;
      }
      InsertByAscending(x, sorted, key);
      forall y ensures y in SortBy(s, key) <==> y in s {
        InsertByMember(x, sorted, key, y);
      }
    }
  }

  // ---- the edits the documents make ----

  /** Drop what has the new element's key, add it at the end, sort. */
  function Replaced<T>(s: seq<T>, x: T, key: T -> nat): seq<T> {
    SortBy(Filter(y => key(y) != key(x), s) + [x], key)
  }

  lemma {:induction false} FilterAscending<T(!new)>(keep: T -> bool, s: seq<T>, key: T -> nat)
    requires AscendingBy(s, key)
    ensures AscendingBy(Filter(keep, s), key)
  {
    if s != [] {
      var rest := s[..|s| - 1];
      FilterAscending(keep, rest, key);
      var kept := Filter(keep, rest);
      forall i | 0 <= i < |kept| ensures key(kept[i]) < key(s[|s| - 1]) {
        FilterMember(keep, rest, kept[i]);
        var k :| 0 <= k < |rest| && rest[k] == kept[i];
        assert s[k] == kept[i];
      }
    }
  }

  lemma ReplacedListing<T(!new)>(s: seq<T>, x: T, key: T -> nat, m: map<nat, T>)
    requires ListingOf(s, key, m)
    ensures ListingOf(Replaced(s, x, key), key, m[key(x) := x])
  {
    var kept := Others(s, x, key);
    assert Replaced(s, x, key) == SortBy(kept + [x], key);
    hide Replaced, SortBy;
    KeptApart(kept, x, key);
    SortByListing(kept + [x], key);
    hide AscendingBy, KeysApart;
    OneReplaced(s, x, key, m, SortBy(kept + [x], key));
  }

  lemma Others<T(!new)>(s: seq<T>, x: T, key: T -> nat) returns (kept: seq<T>)
    requires AscendingBy(s, key)
    ensures kept == Filter(y => key(y) != key(x), s)
    ensures AscendingBy(kept, key) && forall y :: y in kept <==> y in s && key(y) != key(x)
  {
    kept := Filter(y => key(y) != key(x), s);
    FilterAscending(y => key(y) != key(x), s, key);
    forall y ensures y in kept <==> y in s && key(y) != key(x) { FilterMember(y => key(y) != key(x), s, y); }
  }

  lemma OneReplaced<T(!new)>(s: seq<T>, x: T, key: T -> nat, m: map<nat, T>, sorted: seq<T>)
    requires ListingOf(s, key, m) && AscendingBy(sorted, key)
    requires forall y :: y in sorted <==> (y in s && key(y) != key(x)) || y == x
    ensures ListingOf(sorted, key, m[key(x) := x])
  {
    hide AscendingBy;
  }

  lemma KeptApart<T(!new)>(kept: seq<T>, x: T, key: T -> nat)
    requires AscendingBy(kept, key) && forall y :: y in kept ==> key(y) != key(x)
    ensures KeysApart(kept + [x], key)
  {
    assert forall i :: 0 <= i < |kept| ==> kept[i] in kept;
  }
}
