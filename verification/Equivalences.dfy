/** Declared groups of interchangeable features, resolved to their classes: the merge loop
    finds the connected components of the groups, and every member maps to its whole class.
  */
module Equivalences {
  import opened Orders

  // ---- connection through declared groups ----

  ghost predicate Linked<T>(groups: seq<seq<T>>, a: T, b: T) {
    exists i :: 0 <= i < |groups| && a in groups[i] && b in groups[i]
  }

  ghost predicate IsChain<T>(groups: seq<seq<T>>, path: seq<T>) {
    path != [] && forall i :: 0 <= i < |path| - 1 ==> Linked(groups, path[i], path[i + 1])
  }

  /** Some chain of shared groups leads from `a` to `b`. */
  ghost predicate Connected<T(!new)>(groups: seq<seq<T>>, a: T, b: T) {
    exists path: seq<T> :: IsChain(groups, path) && path[0] == a && path[|path| - 1] == b
  }

  lemma LinkConnects<T(!new)>(groups: seq<seq<T>>, a: T, b: T)
    requires Linked(groups, a, b)
    ensures Connected(groups, a, b)
  {
    var path := [a, b];
    assert IsChain(groups, path) && path[0] == a && path[|path| - 1] == b;
  }

  lemma ConnectionsJoin<T(!new)>(groups: seq<seq<T>>, a: T, b: T, c: T)
    requires Connected(groups, a, b) && Connected(groups, b, c)
    ensures Connected(groups, a, c)
  {
    var p: seq<T> :| IsChain(groups, p) && p[0] == a && p[|p| - 1] == b;
    var q: seq<T> :| IsChain(groups, q) && q[0] == b && q[|q| - 1] == c;
    var path := p + q[1..];
    forall i | 0 <= i < |path| - 1
      ensures Linked(groups, path[i], path[i + 1])
    {
      if i >= |p| - 1 {
        assert path[i] == q[i - |p| + 1] && path[i + 1] == q[i - |p| + 2];
      }
    }
    assert path[0] == a && path[|path| - 1] == c;
  }

  lemma ConnectionsGrow<T(!new)>(groups: seq<seq<T>>, n: nat, a: T, b: T)
    requires n < |groups| && Connected(groups[..n], a, b)
    ensures Connected(groups[..n + 1], a, b)
  {
    var path: seq<T> :| IsChain(groups[..n], path) && path[0] == a && path[|path| - 1] == b;
    forall i | 0 <= i < |path| - 1
      ensures Linked(groups[..n + 1], path[i], path[i + 1])
    {
      assert Linked(groups[..n], path[i], path[i + 1]);
      var k :| 0 <= k < |groups[..n]| && path[i] in groups[..n][k] && path[i + 1] in groups[..n][k];
      assert groups[..n + 1][k] == groups[..n][k];
    }
    assert IsChain(groups[..n + 1], path);
  }

  /** A class that swallows every group it meets keeps a chain that starts inside it. */
  lemma {:induction false} ChainStays<T(!new)>(groups: seq<seq<T>>, class_: seq<T>, path: seq<T>)
    requires forall i :: 0 <= i < |groups| && Meets(groups[i], class_) ==> Within(groups[i], class_)
    requires IsChain(groups, path) && path[0] in class_
    ensures path[|path| - 1] in class_
    decreases |path|
  {
    if |path| > 1 {
      assert Linked(groups, path[0], path[0 + 1]);
      var k :| 0 <= k < |groups| && path[0] in groups[k] && path[1] in groups[k];
      assert Meets(groups[k], class_);
      var rest := path[1..];
      forall i | 0 <= i < |rest| - 1
        ensures Linked(groups, rest[i], rest[i + 1])
      {
        assert Linked(groups, path[i + 1], path[i + 1 + 1]);
      }
      ChainStays(groups, class_, rest);
    }
  }

  // ---- classes ----

  predicate Meets<T(==)>(a: seq<T>, b: seq<T>) {
    exists x :: x in a && x in b
  }

  ghost predicate Within<T(!new)>(a: seq<T>, b: seq<T>) {
    forall x :: x in a ==> x in b
  }

  ghost predicate Apart<T(!new)>(classes: seq<seq<T>>) {
    forall i, j :: 0 <= i < j < |classes| ==> !Meets(classes[i], classes[j])
  }

  /** Any two members are connected. */
  ghost predicate Joined<T(!new)>(groups: seq<seq<T>>, class_: seq<T>) {
    forall a, b :: a in class_ && b in class_ ==> Connected(groups, a, b)
  }

  ghost predicate AllJoined<T(!new)>(groups: seq<seq<T>>, classes: seq<seq<T>>) {
    forall k :: 0 <= k < |classes| ==> Joined(groups, classes[k])
  }

  ghost predicate Inside<T(!new)>(group: seq<T>, classes: seq<seq<T>>) {
    exists k :: 0 <= k < |classes| && Within(group, classes[k])
  }

  ghost predicate Covers<T(!new)>(groups: seq<seq<T>>, classes: seq<seq<T>>) {
    forall i :: 0 <= i < |groups| ==> Inside(groups[i], classes)
  }

  /** Nothing but declared features is in a class. */
  ghost predicate Declared<T(!new)>(groups: seq<seq<T>>, classes: seq<seq<T>>) {
    forall k, x :: 0 <= k < |classes| && x in classes[k] ==> exists i :: 0 <= i < |groups| && x in groups[i]
  }

  ghost predicate Listed<T(!new)>(classes: seq<seq<T>>, less: (T, T) -> bool) {
    forall k :: 0 <= k < |classes| ==> Ascending(classes[k], less)
  }

  /** The classes are the connected components of the groups. */
  ghost predicate Components<T(!new)>(groups: seq<seq<T>>, classes: seq<seq<T>>) {
    Apart(classes) && Covers(groups, classes) && AllJoined(groups, classes) && Declared(groups, classes)
  }

  lemma ComponentSwallows<T(!new)>(groups: seq<seq<T>>, classes: seq<seq<T>>, k: nat, i: nat)
    requires Apart(classes) && Covers(groups, classes) && k < |classes| && i < |groups|
    requires Meets(groups[i], classes[k])
    ensures Within(groups[i], classes[k])
  {
    assert Inside(groups[i], classes);
    var x :| x in groups[i] && x in classes[k];
    var j :| 0 <= j < |classes| && Within(groups[i], classes[j]);
    assert x in classes[j];
    assert Meets(classes[j], classes[k]) && Meets(classes[k], classes[j]);
  }

  /** A component holds exactly what its members are connected to. */
  lemma ComponentIsReach<T(!new)>(groups: seq<seq<T>>, classes: seq<seq<T>>, k: nat, a: T, b: T)
    requires Components(groups, classes) && k < |classes| && a in classes[k]
    ensures b in classes[k] <==> Connected(groups, a, b)
  {
    if b in classes[k] {
      assert Joined(groups, classes[k]);
    }
    if Connected(groups, a, b) {
      var path: seq<T> :| IsChain(groups, path) && path[0] == a && path[|path| - 1] == b;
      forall i | 0 <= i < |groups| && Meets(groups[i], classes[k])
        ensures Within(groups[i], classes[k])
      {
        ComponentSwallows(groups, classes, k, i);
      }
      ChainStays(groups, classes[k], path);
    }
  }

  // ---- the merge loop ----

  /** `Vec::swap_remove`: the last element takes the place of the removed one. */
  function SwapRemove<T>(s: seq<T>, i: nat): seq<T>
    requires i < |s|
  {
    if i == |s| - 1 then s[..i] else s[..|s| - 1][i := s[|s| - 1]]
  }

  /** Where the elements of `s` other than the removed one are found afterwards. */
  lemma SwapRemoveIndex<T>(s: seq<T>, i: nat)
    requires i < |s|
    ensures |SwapRemove(s, i)| == |s| - 1
    ensures forall j :: 0 <= j < |s| - 1 ==> SwapRemove(s, i)[j] == s[if j == i then |s| - 1 else j]
  {
  }

  lemma RemovedApart<T(!new)>(classes: seq<seq<T>>, i: nat)
    requires i < |classes| && Apart(classes)
    ensures Apart(SwapRemove(classes, i))
    ensures forall j :: 0 <= j < |classes| && j != i ==> !Meets(classes[j], classes[i])
  {
    SwapRemoveIndex(classes, i);
    forall j | 0 <= j < |classes| && j != i
      ensures !Meets(classes[j], classes[i]) && !Meets(classes[i], classes[j])
    {
      var low, high := if j < i then j else i, if j < i then i else j;
      assert !Meets(classes[low], classes[high]);
    }
  }

  lemma UnionJoined<T(!new)>(groups: seq<seq<T>>, a: seq<T>, b: seq<T>, union: seq<T>)
    requires Joined(groups, a) && Joined(groups, b) && Meets(a, b)
    requires forall x :: x in union ==> x in a || x in b
    ensures Joined(groups, union)
  {
    var w :| w in a && w in b;
    forall x, y | x in union && y in union
      ensures Connected(groups, x, y)
    {
      assert Connected(groups, x, w) && Connected(groups, w, y);
      ConnectionsJoin(groups, x, w, y);
    }
  }

  /** Every class of `before` is inside `class_` or one of `classes`. */
  ghost predicate Kept<T(!new)>(before: seq<seq<T>>, classes: seq<seq<T>>, class_: seq<T>) {
    forall k :: 0 <= k < |before| ==> Within(before[k], class_) || Inside(before[k], classes)
  }

  lemma RemovedKept<T(!new)>(before: seq<seq<T>>, classes: seq<seq<T>>, i: nat, class_: seq<T>, union: seq<T>)
    requires i < |classes| && Kept(before, classes, class_)
    requires Within(class_, union) && Within(classes[i], union)
    ensures Kept(before, SwapRemove(classes, i), union)
  {
    SwapRemoveIndex(classes, i);
    var rest := SwapRemove(classes, i);
    forall k | 0 <= k < |before|
      ensures Within(before[k], union) || Inside(before[k], rest)
    {
      if !Within(before[k], class_) {
        var j :| 0 <= j < |classes| && Within(before[k], classes[j]);
        if j != i {
          var at := if j == |classes| - 1 then i else j;
          assert rest[at] == classes[j];
        }
      }
    }
  }

  /** Only features of `before` and `group` are left in `classes` and `class_`. */
  ghost predicate From<T(!new)>(before: seq<seq<T>>, group: seq<T>, classes: seq<seq<T>>, class_: seq<T>) {
    && (forall x :: x in class_ ==> x in group || Somewhere(x, before))
    && (forall k, x :: 0 <= k < |classes| && x in classes[k] ==> Somewhere(x, before))
  }

  ghost predicate Somewhere<T>(x: T, classes: seq<seq<T>>) {
    exists k :: 0 <= k < |classes| && x in classes[k]
  }

  /** One turn of the inner loop that takes a class in. */
  lemma TakenIn<T(!new)>(groups: seq<seq<T>>, before: seq<seq<T>>, group: seq<T>, classes: seq<seq<T>>,
                         i: nat, class_: seq<T>, union: seq<T>)
    requires i < |classes| && Meets(classes[i], class_)
    requires Apart(classes) && AllJoined(groups, classes) && Joined(groups, class_)
    requires forall j :: 0 <= j < i ==> !Meets(classes[j], class_)
    requires Kept(before, classes, class_) && From(before, group, classes, class_)
    requires forall x :: x in union <==> x in class_ || x in classes[i]
    ensures var rest := SwapRemove(classes, i);
            && Apart(rest) && AllJoined(groups, rest) && Joined(groups, union)
            && (forall j :: 0 <= j < i ==> !Meets(rest[j], union))
            && Kept(before, rest, union) && From(before, group, rest, union)
  {
    SwapRemoveIndex(classes, i);
    RemovedApart(classes, i);
    assert Joined(groups, classes[i]);
    UnionJoined(groups, classes[i], class_, union);
    RemovedKept(before, classes, i, class_, union);
    var rest := SwapRemove(classes, i);
    forall j | 0 <= j < i
      ensures !Meets(rest[j], union)
    {
      assert rest[j] == classes[j];
      assert !Meets(classes[j], class_) && !Meets(classes[j], classes[i]);
    }
  }

  /** The inner loop: `group` takes in every class it meets, and what it has become is added. */
  method Absorb<T(==,!new)>(merged: seq<seq<T>>, group: seq<T>, less: (T, T) -> bool, ghost groups: seq<seq<T>>)
    returns (result: seq<seq<T>>)
    requires StrictTotal(less) && Ascending(group, less) && Listed(merged, less)
    requires Apart(merged) && AllJoined(groups, merged) && Joined(groups, group)
    ensures Listed(result, less) && Apart(result) && AllJoined(groups, result)
    ensures Covers(merged + [group], result) && Declared(merged + [group], result)
  {
    var class_, classes, index := group, merged, 0;
    assert forall k :: 0 <= k < |merged| ==> Within(merged[k], classes[k]);
    while index < |classes|
      invariant index <= |classes|
      invariant Listed(classes, less) && Ascending(class_, less)
      invariant Within(group, class_)
      invariant Apart(classes) && AllJoined(groups, classes) && Joined(groups, class_)
      invariant forall j :: 0 <= j < index ==> !Meets(classes[j], class_)
      invariant Kept(merged, classes, class_) && From(merged, group, classes, class_)
      decreases |classes| - index
    {
      if Meets(classes[index], class_) {
        var union := SortDedup(class_ + classes[index], less);
        forall x ensures x in union <==> x in class_ || x in classes[index] {
          SortDedupMember(class_ + classes[index], less, x);
        }
        SortDedupListing(class_ + classes[index], less);
        TakenIn(groups, merged, group, classes, index, class_, union);
        SwapRemoveIndex(classes, index);
        class_, classes := union, SwapRemove(classes, index);
      } else {
        index := index + 1;
      }
    }
    result := classes + [class_];
    Added(groups, merged, group, classes, class_);
  }

  lemma Added<T(!new)>(groups: seq<seq<T>>, before: seq<seq<T>>, group: seq<T>, classes: seq<seq<T>>, class_: seq<T>)
    requires Apart(classes) && AllJoined(groups, classes) && Joined(groups, class_) && Within(group, class_)
    requires forall j :: 0 <= j < |classes| ==> !Meets(classes[j], class_)
    requires Kept(before, classes, class_) && From(before, group, classes, class_)
    ensures var all := classes + [class_];
            && Apart(all) && AllJoined(groups, all) && Covers(before + [group], all) && Declared(before + [group], all)
  {
    var all, given := classes + [class_], before + [group];
    assert all[|classes|] == class_;
    assert forall k :: 0 <= k < |classes| ==> all[k] == classes[k];
    forall i | 0 <= i < |given|
      ensures Inside(given[i], all)
    {
      if i < |before| && !Within(before[i], class_) {
        var k :| 0 <= k < |classes| && Within(before[i], classes[k]);
        assert Within(given[i], all[k]);
      } else {
        assert Within(given[i], all[|classes|]);
      }
    }
    forall k, x | 0 <= k < |all| && x in all[k]
      ensures exists i :: 0 <= i < |given| && x in given[i]
    {
      if Somewhere(x, before) {
        var i :| 0 <= i < |before| && x in before[i];
        assert x in given[i];
      } else {
        assert x in given[|before|];
      }
    }
  }

  lemma NextComponents<T(!new)>(groups: seq<seq<T>>, n: nat, merged: seq<seq<T>>, result: seq<seq<T>>)
    requires n < |groups| && Components(groups[..n], merged)
    requires Covers(merged + [groups[n]], result) && Declared(merged + [groups[n]], result)
    ensures Covers(groups[..n + 1], result) && Declared(groups[..n + 1], result)
  {
    var given, next := merged + [groups[n]], groups[..n + 1];
    forall i | 0 <= i < |next|
      ensures Inside(next[i], result)
    {
      var j := |merged|;
      if i < n {
        assert groups[..n][i] == next[i];
        assert Inside(groups[..n][i], merged);
        j :| 0 <= j < |merged| && Within(next[i], merged[j]);
      }
      assert Within(next[i], given[j]) && Inside(given[j], result);
      var k :| 0 <= k < |result| && Within(given[j], result[k]);
      assert Within(next[i], result[k]);
    }
    forall k, x | 0 <= k < |result| && x in result[k]
      ensures exists i :: 0 <= i < |next| && x in next[i]
    {
      var j :| 0 <= j < |given| && x in given[j];
      if j < |merged| {
        var i :| 0 <= i < |groups[..n]| && x in groups[..n][i];
        assert x in next[i];
      } else {
        assert x in next[n];
      }
    }
  }

  lemma JoinedGrows<T(!new)>(groups: seq<seq<T>>, n: nat, merged: seq<seq<T>>)
    requires n < |groups| && AllJoined(groups[..n], merged)
    ensures AllJoined(groups[..n + 1], merged) && Joined(groups[..n + 1], groups[n])
  {
    forall k, a, b | 0 <= k < |merged| && a in merged[k] && b in merged[k]
      ensures Connected(groups[..n + 1], a, b)
    {
      assert Joined(groups[..n], merged[k]);
      ConnectionsGrow(groups, n, a, b);
    }
    forall a, b | a in groups[n] && b in groups[n]
      ensures Connected(groups[..n + 1], a, b)
    {
      assert groups[..n + 1][n] == groups[n];
      LinkConnects(groups[..n + 1], a, b);
    }
  }

  /** The merge loop finds the connected components of the groups. */
  method MergeGroups<T(==,!new)>(groups: seq<seq<T>>, less: (T, T) -> bool) returns (merged: seq<seq<T>>)
    requires StrictTotal(less) && Listed(groups, less)
    ensures Components(groups, merged) && Listed(merged, less)
  {
    merged := [];
    for n := 0 to |groups|
      invariant Components(groups[..n], merged) && Listed(merged, less)
    {
      JoinedGrows(groups, n, merged);
      var result := Absorb(merged, groups[n], less, groups[..n + 1]);
      NextComponents(groups, n, merged, result);
      merged := result;
    }
    assert groups[..|groups|] == groups;
  }

  // ---- declared forms and the resulting map ----

  /** The features of the forms that analyze to exactly one feature. */
  function Participants<F, T(==)>(group: seq<F>, analyze: F -> seq<T>, less: (T, T) -> bool): seq<T> {
    if group == [] then []
    else
      var resolved := SortDedup(analyze(group[|group| - 1]), less);
      Participants(group[..|group| - 1], analyze, less) + (if |resolved| == 1 then resolved else [])
  }

  /** The groups that take part: those left with at least two features. */
  function Groups<F, T(==)>(declared: seq<seq<F>>, analyze: F -> seq<T>, less: (T, T) -> bool): seq<seq<T>> {
    if declared == [] then []
    else
      var features := SortDedup(Participants(declared[|declared| - 1], analyze, less), less);
      Groups(declared[..|declared| - 1], analyze, less) + (if |features| >= 2 then [features] else [])
  }

  method ParticipantSet<F, T(==,!new)>(group: seq<F>, analyze: F -> seq<T>, less: (T, T) -> bool)
    returns (features: seq<T>)
    requires StrictTotal(less)
    ensures features == SortDedup(Participants(group, analyze, less), less)
  {
    features := [];
    for n := 0 to |group|
      invariant Ascending(features, less)
      invariant Elements(features) == Elements(Participants(group[..n], analyze, less))
    {
      var resolved := SortDedup(analyze(group[n]), less);
      ghost var before := Participants(group[..n], analyze, less);
      assert group[..n + 1][..n] == group[..n] && group[..n + 1][n] == group[n];
      if |resolved| == 1 {
        InsertNewAscending(resolved[0], features, less);
        forall x ensures x in InsertNew(resolved[0], features, less) <==> x in before + resolved {
          InsertNewMember(resolved[0], features, less, x);
          assert x in Elements(features) <==> x in Elements(before);
        }
        features := InsertNew(resolved[0], features, less);
      } else {
        assert before + [] == before;
      }
    }
    assert group[..|group|] == group;
    SortDedupFixed(features, less);
    SortDedupByElements(features, Participants(group, analyze, less), less);
  }

  lemma {:induction false} GroupsListed<F, T(!new)>(declared: seq<seq<F>>, analyze: F -> seq<T>, less: (T, T) -> bool)
    requires StrictTotal(less)
    ensures Listed(Groups(declared, analyze, less), less)
  {
    if declared != [] {
      GroupsListed(declared[..|declared| - 1], analyze, less);
      SortDedupListing(Participants(declared[|declared| - 1], analyze, less), less);
    }
  }

  /** Every member maps to its whole class, so the members of a class share one entry. */
  ghost predicate ClassClosed<T(!new)>(equiv: map<T, seq<T>>) {
    forall f :: f in equiv ==> f in equiv[f] && forall g :: g in equiv[f] ==> g in equiv && equiv[g] == equiv[f]
  }

  /** The map that sends each member of each class to the class. */
  ghost predicate MapsTo<T(!new)>(equiv: map<T, seq<T>>, classes: seq<seq<T>>) {
    && (forall k, f :: 0 <= k < |classes| && f in classes[k] ==> f in equiv && equiv[f] == classes[k])
    && (forall f :: f in equiv ==> Somewhere(f, classes))
  }

  method SpreadClass<T(==,!new)>(equiv: map<T, seq<T>>, class_: seq<T>) returns (result: map<T, seq<T>>)
    ensures forall f :: f in class_ ==> f in result && result[f] == class_
    ensures forall f :: f !in class_ ==> (f in result <==> f in equiv) && (f in equiv ==> result[f] == equiv[f])
  {
    result := equiv;
    for n := 0 to |class_|
      invariant forall f :: f in class_[..n] ==> f in result && result[f] == class_
      invariant forall f :: f !in class_[..n] ==>
                  (f in result <==> f in equiv) && (f in equiv ==> result[f] == equiv[f])
    {
      result := result[class_[n] := class_];
    }
    assert class_[..|class_|] == class_;
  }

  lemma SpreadMaps<T(!new)>(classes: seq<seq<T>>, n: nat, equiv: map<T, seq<T>>, result: map<T, seq<T>>)
    requires n < |classes| && Apart(classes) && MapsTo(equiv, classes[..n])
    requires forall f :: f in classes[n] ==> f in result && result[f] == classes[n]
    requires forall f :: f !in classes[n] ==> (f in result <==> f in equiv) && (f in equiv ==> result[f] == equiv[f])
    ensures MapsTo(result, classes[..n + 1])
  {
    var next := classes[..n + 1];
    forall k, f | 0 <= k < |next| && f in next[k]
      ensures f in result && result[f] == next[k]
    {
      if k < n {
        assert classes[..n][k] == next[k];
        assert !Meets(classes[k], classes[n]);
        assert f !in classes[n];
      }
    }
    forall f | f in result
      ensures Somewhere(f, next)
    {
      if f in classes[n] {
        assert f in next[n];
      } else {
        var k :| 0 <= k < |classes[..n]| && f in classes[..n][k];
        assert f in next[k];
      }
    }
  }

  method MapClasses<T(==,!new)>(classes: seq<seq<T>>) returns (equiv: map<T, seq<T>>)
    requires Apart(classes)
    ensures MapsTo(equiv, classes)
  {
    equiv := map[];
    for n := 0 to |classes|
      invariant MapsTo(equiv, classes[..n])
    {
      var result := SpreadClass(equiv, classes[n]);
      SpreadMaps(classes, n, equiv, result);
      equiv := result;
    }
    assert classes[..|classes|] == classes;
  }

  /** What the map means: the keys are the features of the groups, and each entry lists, in order,
      exactly what its key is connected to. */
  ghost predicate Resolves<T(!new)>(equiv: map<T, seq<T>>, groups: seq<seq<T>>, less: (T, T) -> bool) {
    && (forall f :: f in equiv <==> Somewhere(f, groups))
    && (forall f :: f in equiv ==> Ascending(equiv[f], less))
    && (forall f, g :: f in equiv ==> (g in equiv[f] <==> Connected(groups, f, g)))
  }

  lemma EntrySomewhere<T(!new)>(groups: seq<seq<T>>, classes: seq<seq<T>>, k: nat, f: T)
    requires Components(groups, classes) && k < |classes| && f in classes[k]
    ensures Somewhere(f, groups)
  {
    hide Connected;
  }

  lemma EntryIsClass<T(!new)>(groups: seq<seq<T>>, classes: seq<seq<T>>, equiv: map<T, seq<T>>, f: T) returns (k: nat)
    requires Components(groups, classes) && MapsTo(equiv, classes) && f in equiv
    ensures k < |classes| && f in classes[k] && equiv[f] == classes[k]
    ensures Somewhere(f, groups)
    ensures forall g :: g in equiv[f] ==> g in equiv && equiv[g] == equiv[f]
    ensures forall g :: g in equiv[f] <==> Connected(groups, f, g)
  {
    assert Somewhere(f, classes);
    k :| 0 <= k < |classes| && f in classes[k];
    EntrySomewhere(groups, classes, k, f);
    hide Components, Connected, Somewhere;
    forall g ensures g in classes[k] <==> Connected(groups, f, g) {
      ComponentIsReach(groups, classes, k, f, g);
    }
  }

  lemma DeclaredIsKey<T(!new)>(groups: seq<seq<T>>, classes: seq<seq<T>>, equiv: map<T, seq<T>>, f: T)
    requires Covers(groups, classes) && MapsTo(equiv, classes) && Somewhere(f, groups)
    ensures f in equiv
  {
    var i :| 0 <= i < |groups| && f in groups[i];
    assert Inside(groups[i], classes);
    var k :| 0 <= k < |classes| && Within(groups[i], classes[k]);
    assert f in classes[k];
  }

  lemma MapResolves<T(!new)>(groups: seq<seq<T>>, classes: seq<seq<T>>, equiv: map<T, seq<T>>, less: (T, T) -> bool)
    requires Components(groups, classes) && Listed(classes, less) && MapsTo(equiv, classes)
    ensures Resolves(equiv, groups, less) && ClassClosed(equiv)
  {
    assert Covers(groups, classes);
    hide Components, MapsTo, Covers, Connected, Somewhere, Ascending;
    forall f | f in equiv
      ensures Somewhere(f, groups) && Ascending(equiv[f], less)
      ensures f in equiv[f] && forall g :: g in equiv[f] ==> g in equiv && equiv[g] == equiv[f]
      ensures forall g :: g in equiv[f] <==> Connected(groups, f, g)
    {
      var k := EntryIsClass(groups, classes, equiv, f);
    }
    forall f | Somewhere(f, groups)
      ensures f in equiv
    {
      DeclaredIsKey(groups, classes, equiv, f);
    }
  }

  /** Declared equivalences, resolved to transitive classes. */
  method ResolveEquivalences<F, T(==,!new)>(declared: seq<seq<F>>, analyze: F -> seq<T>, less: (T, T) -> bool)
    returns (equiv: map<T, seq<T>>)
    requires StrictTotal(less)
    ensures Resolves(equiv, Groups(declared, analyze, less), less) && ClassClosed(equiv)
  {
    var groups: seq<seq<T>> := [];
    for n := 0 to |declared|
      invariant groups == Groups(declared[..n], analyze, less)
    {
      var features := ParticipantSet(declared[n], analyze, less);
      assert declared[..n + 1][..n] == declared[..n] && declared[..n + 1][n] == declared[n];
      if |features| >= 2 {
        groups := groups + [features];
      } else {
        assert groups + [] == groups;
      }
    }
    assert declared[..|declared|] == declared;
    GroupsListed(declared, analyze, less);
    var merged := MergeGroups(groups, less);
    equiv := MapClasses(merged);
    MapResolves(groups, merged, equiv, less);
  }
}
