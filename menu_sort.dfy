/**
 * The fallback load path of menu-management.component.ts sorts the flat
 * list in place with `(a, b) => (a.sequent || 0) - (b.sequent || 0)`
 * before building the tree. Array sorting is stable, so the result is the
 * unique stable sort by that key; the model is an in-place insertion sort
 * on an array, specified by the functional `SortBySequent`.
 */
module MenuSort {
  import opened Wrappers
  import opened Seqs
  import opened MenuTree
  import opened MenuBuild
  import opened MenuHierarchy

  /** Ascending by `sequent`, a missing value counting as 0. */
  predicate SortedBySequent(s: seq<MainMenu>) {
    forall i, j :: 0 <= i < j < |s| ==> SequentKey(s[i]) <= SequentKey(s[j])
  }

  /** The records whose sort key is `k`. */
  function HasKey(k: int): MainMenu -> bool {
    m => SequentKey(m) == k
  }

  /** `x` placed after the last element of `s` whose key is not greater than its own. */
  function Insert(s: seq<MainMenu>, x: MainMenu): (r: seq<MainMenu>)
    ensures |r| == |s| + 1
    decreases |s|
  {
    if s == [] then [x]
    else if SequentKey(s[|s| - 1]) > SequentKey(x) then Insert(s[..|s| - 1], x) + [s[|s| - 1]]
    else s + [x]
  }

  /** The list the comparator sort leaves behind: each record inserted in turn. */
  function SortBySequent(s: seq<MainMenu>): (r: seq<MainMenu>)
    ensures |r| == |s|
    decreases |s|
  {
    if s == [] then [] else Insert(SortBySequent(s[..|s| - 1]), s[|s| - 1])
  }

  /** Where `Insert` puts `x`: after the prefix `s[..j]`, before the larger keys `s[j..]`. */
  lemma {:induction false} InsertSplit(s: seq<MainMenu>, x: MainMenu, j: nat)
    requires j <= |s| && (j == 0 || SequentKey(s[j - 1]) <= SequentKey(x))
    requires forall m :: j <= m < |s| ==> SequentKey(s[m]) > SequentKey(x)
    ensures Insert(s, x) == s[..j] + [x] + s[j..]
    decreases |s|
  {
    if |s| == j {
      assert s[..j] == s && s[j..] == [];
    } else {
      var init := s[..|s| - 1];
      InsertSplit(init, x, j);
      assert init[..j] == s[..j];
      assert s[j..] == init[j..] + [s[|s| - 1]];
    }
  }

  lemma {:induction false} InsertSorted(s: seq<MainMenu>, x: MainMenu)
    requires SortedBySequent(s)
    ensures SortedBySequent(Insert(s, x))
    decreases |s|
  {
    if s == [] {
    } else if SequentKey(s[|s| - 1]) > SequentKey(x) {
      var init, last := s[..|s| - 1], s[|s| - 1];
      assert forall m :: 0 <= m < |init| ==> init[m] == s[m];
      InsertSorted(init, x);
      InsertMembers(init, x);
      var r := Insert(init, x);
      forall m | 0 <= m < |r| ensures SequentKey(r[m]) <= SequentKey(last) {
        var y := r[m];
        if y != x {
          assert y in multiset(r);
          assert y in multiset(init);
          var i :| 0 <= i < |init| && init[i] == y;
        }
      }
      SortedAppend(r, last);
    } else {
      SortedAppend(s, x);
    }
  }

  lemma SortedAppend(s: seq<MainMenu>, x: MainMenu)
    requires SortedBySequent(s) && forall m :: 0 <= m < |s| ==> SequentKey(s[m]) <= SequentKey(x)
    ensures SortedBySequent(s + [x])
  {
    var r := s + [x];
    forall i, j | 0 <= i < j < |r| ensures SequentKey(r[i]) <= SequentKey(r[j]) {
      assert r[i] == s[i];
    }
  }

  lemma {:induction false} InsertMembers(s: seq<MainMenu>, x: MainMenu)
    ensures multiset(Insert(s, x)) == multiset(s) + multiset{x}
    ensures |Insert(s, x)| == |s| + 1
    decreases |s|
  {
    if s != [] {
      var init := s[..|s| - 1];
      assert s == init + [s[|s| - 1]];
      InsertMembers(init, x);
    }
  }

  lemma FilterSingle<T>(y: T, p: T -> bool)
    ensures Filter([y], p) == if p(y) then [y] else []
  {
    assert [y][1..] == [];
  }

  /** `Insert` adds `x` behind every record of its key and moves no other record of any key. */
  lemma {:induction false} InsertStable(s: seq<MainMenu>, x: MainMenu, k: int)
    ensures Filter(Insert(s, x), HasKey(k)) == Filter(s, HasKey(k)) + (if SequentKey(x) == k then [x] else [])
    decreases |s|
  {
    var p := HasKey(k);
    FilterSingle(x, p);
    if s == [] {
    } else if SequentKey(s[|s| - 1]) > SequentKey(x) {
      var init, last := s[..|s| - 1], s[|s| - 1];
      InitLast(s);
      InsertStable(init, x, k);
      assert Insert(s, x) == Insert(init, x) + [last];
      ShiftStable(Insert(init, x), init, last, x, k);
    } else {
      FilterAppend(s, [x], p);
    }
  }

  lemma ShiftStable(r: seq<MainMenu>, init: seq<MainMenu>, last: MainMenu, x: MainMenu, k: int)
    requires SequentKey(last) > SequentKey(x)
    requires Filter(r, HasKey(k)) == Filter(init, HasKey(k)) + (if SequentKey(x) == k then [x] else [])
    ensures Filter(r + [last], HasKey(k)) == Filter(init + [last], HasKey(k)) + (if SequentKey(x) == k then [x] else [])
  {
    var p := HasKey(k);
    FilterAppend(r, [last], p);
    FilterAppend(init, [last], p);
    FilterSingle(last, p);
  }

  /** The sorted list is ascending by key. */
  lemma {:induction false} SortSorted(s: seq<MainMenu>)
    ensures SortedBySequent(SortBySequent(s))
    decreases |s|
  {
    if s != [] {
      SortSorted(s[..|s| - 1]);
      InsertSorted(SortBySequent(s[..|s| - 1]), s[|s| - 1]);
    }
  }

  /** Stability: the records of each key keep their input order. */
  lemma {:induction false} SortStable(s: seq<MainMenu>, k: int)
    ensures Filter(SortBySequent(s), HasKey(k)) == Filter(s, HasKey(k))
    decreases |s|
  {
    if s != [] {
      var init, last := s[..|s| - 1], s[|s| - 1];
      SortStable(init, k);
      assert SortBySequent(s) == Insert(SortBySequent(init), last);
      InsertStable(SortBySequent(init), last, k);
      InitLast(s);
      FilterAppend(init, [last], HasKey(k));
      FilterSingle(last, HasKey(k));
    }
  }

  /** The sorted list is a permutation of the input. */
  lemma {:induction false} SortPermutation(s: seq<MainMenu>)
    ensures multiset(SortBySequent(s)) == multiset(s)
    ensures |SortBySequent(s)| == |s|
    decreases |s|
  {
    if s != [] {
      var init := s[..|s| - 1];
      SortPermutation(init);
      InsertMembers(SortBySequent(init), s[|s| - 1]);
      assert s == init + [s[|s| - 1]];
    }
  }

  /**
   * `flatMenus.sort(...)`: insertion sort in place, each record shifted
   * left past the records with a greater key.
   */
  method SortMenus(a: array<MainMenu>)
    modifies a
    ensures a[..] == SortBySequent(old(a[..]))
  {
    ghost var o := a[..];
    for i := 0 to a.Length
      invariant a[..i] == SortBySequent(o[..i])
      invariant a[i..] == o[i..]
    {
      assert a[i] == o[i];
      InsertInPlace(a, i);
      assert o[..i + 1][..i] == o[..i];
    }
    assert a[..] == a[..a.Length] && o == o[..a.Length];
  }

  /** One step of the sort: `a[i]` moved left into the prefix `a[..i]`. */
  method InsertInPlace(a: array<MainMenu>, i: int)
    requires 0 <= i < a.Length
    modifies a
    ensures a[..i + 1] == Insert(old(a[..i]), old(a[i]))
    ensures a[i + 1..] == old(a[i + 1..])
  {
    ghost var p := a[..i];
    var x := a[i];
    var j := ShiftLarger(a, i, p, x);
    a[j] := x;
    InsertSplit(p, x, j);
    Shifted(a[..i + 1], p, x, j);
  }

  /**
   * The inner loop of the insertion: every record of `a[..i]` with a key
   * greater than `x`'s, from the right, moves one place up; `j` is the
   * gap left behind.
   */
  method ShiftLarger(a: array<MainMenu>, i: int, ghost p: seq<MainMenu>, x: MainMenu) returns (j: int)
    requires 0 <= i < a.Length && |p| == i && forall m :: 0 <= m < i ==> a[m] == p[m]
    modifies a
    ensures 0 <= j <= i && (j == 0 || SequentKey(p[j - 1]) <= SequentKey(x))
    ensures forall m :: 0 <= m < j ==> a[m] == p[m]
    ensures forall m :: j < m <= i ==> a[m] == p[m - 1]
    ensures forall m :: j <= m < i ==> SequentKey(p[m]) > SequentKey(x)
    ensures a[i + 1..] == old(a[i + 1..])
  {
    j := i;
    while j > 0 && SequentKey(a[j - 1]) > SequentKey(x)
      invariant 0 <= j <= i
      invariant forall m :: 0 <= m < j ==> a[m] == p[m]
      invariant forall m :: j < m <= i ==> a[m] == p[m - 1]
      invariant forall m :: j <= m < i ==> SequentKey(p[m]) > SequentKey(x)
      invariant a[i + 1..] == old(a[i + 1..])
      decreases j
    {
      a[j] := a[j - 1];
      j := j - 1;
    }
  }

  /** A list that agrees with `p` before `j`, holds `x` at `j` and `p` shifted by one after it. */
  lemma Shifted(r: seq<MainMenu>, p: seq<MainMenu>, x: MainMenu, j: nat)
    requires j <= |p| && |r| == |p| + 1 && r[j] == x
    requires forall m :: 0 <= m < j ==> r[m] == p[m]
    requires forall m :: j < m < |r| ==> r[m] == p[m - 1]
    ensures r == p[..j] + [x] + p[j..]
  {
  }

  /** A filter of an ascending list is ascending. */
  lemma {:induction false} SortedFilter(s: seq<MainMenu>, p: MainMenu -> bool)
    requires SortedBySequent(s)
    ensures SortedBySequent(Filter(s, p))
  {
    if s != [] {
      var rest := s[1..];
      assert SortedBySequent(rest) by {
        forall i, j | 0 <= i < j < |rest| ensures SequentKey(rest[i]) <= SequentKey(rest[j]) {
          assert rest[i] == s[i + 1] && rest[j] == s[j + 1];
        }
      }
      SortedFilter(rest, p);
      if p(s[0]) {
        var f := Filter(rest, p);
        var r := [s[0]] + f;
        forall i, j | 0 <= i < j < |r| ensures SequentKey(r[i]) <= SequentKey(r[j]) {
          assert r[j] == f[j - 1] && r[j] in rest;
          var m :| 0 <= m < |rest| && rest[m] == r[j];
          assert s[m + 1] == r[j];
          if i > 0 {
            assert r[i] == f[i - 1];
          }
        }
      }
    }
  }

  lemma SortedStrip(ts: seq<MainMenu>)
    ensures SortedBySequent(StripAll(ts)) <==> SortedBySequent(ts)
  {
    assert forall i :: 0 <= i < |ts| ==> SequentKey(StripAll(ts)[i]) == SequentKey(ts[i]);
  }

  /** The list and every node's children are ascending by `sequent`. */
  predicate SiblingsOrdered(ts: seq<MainMenu>) {
    SortedBySequent(ts) && forall n :: n in Flatten(ts) ==> SortedBySequent(n.childMenus)
  }

  /** Built from an ascending list, the tree's roots and every node's children are ascending. */
  lemma BuiltSiblingsOrdered(ys: seq<MainMenu>, rank: map<int, nat>)
    requires SortedBySequent(ys) && UniqueIds(ys) && Acyclic(ys, rank)
    ensures SiblingsOrdered(BuildForest(ys, rank))
  {
    var f := BuildForest(ys, rank);
    BuiltRoots(ys, rank);
    SortedFilter(ys, IsRoot);
    SortedStrip(RootRecords(ys));
    SortedStrip(f);
    BuiltNodes(ys, rank);
    forall n | n in Flatten(f) ensures SortedBySequent(n.childMenus) {
      assert BuiltNode(ys, n);
      SortedFilter(ys, ChildOf(n.id));
      SortedStrip(ChildRecords(ys, n.id));
      SortedStrip(n.childMenus);
    }
  }

  lemma UniqueAppend(r: seq<MainMenu>, y: MainMenu)
    requires UniqueIds(r) && y.id !in Ids(r)
    ensures UniqueIds(r + [y])
  {
    var t := r + [y];
    forall i, j | 0 <= i < j < |t| ensures t[i].id != t[j].id {
      assert t[i] == r[i] && t[i] in r;
    }
  }

  lemma UniqueInit(s: seq<MainMenu>)
    requires UniqueIds(s) && s != []
    ensures UniqueIds(s[..|s| - 1]) && s[|s| - 1].id !in Ids(s[..|s| - 1])
  {
  }

  lemma {:induction false} InsertUnique(s: seq<MainMenu>, x: MainMenu)
    requires UniqueIds(s) && x.id !in Ids(s)
    ensures UniqueIds(Insert(s, x))
    decreases |s|
  {
    if s == [] {
    } else if SequentKey(s[|s| - 1]) > SequentKey(x) {
      var init, last := s[..|s| - 1], s[|s| - 1];
      UniqueInit(s);
      assert Ids(init) <= Ids(s);
      InsertUnique(init, x);
      InsertMembers(init, x);
      var r := Insert(init, x);
      forall y | y in r ensures y.id != last.id {
        assert y in multiset(r);
      }
      UniqueAppend(r, last);
    } else {
      UniqueAppend(s, x);
    }
  }

  lemma SameMembers(a: seq<MainMenu>, b: seq<MainMenu>)
    requires multiset(a) == multiset(b)
    ensures forall y :: y in a <==> y in b
    ensures Ids(a) == Ids(b)
  {
    assert forall y :: y in a <==> y in multiset(a);
    assert forall y :: y in b <==> y in multiset(b);
  }

  /** Sorting keeps ids unique. */
  lemma {:induction false} SortUnique(s: seq<MainMenu>)
    requires UniqueIds(s)
    ensures UniqueIds(SortBySequent(s))
    decreases |s|
  {
    if s != [] {
      var init := s[..|s| - 1];
      UniqueInit(s);
      SortUnique(init);
      SortPermutation(init);
      SameMembers(SortBySequent(init), init);
      InsertUnique(SortBySequent(init), s[|s| - 1]);
    }
  }

  /**
   * The fallback path: the list sorted in place is built into a tree whose
   * roots and sibling lists are ascending by `sequent`, each key's records
   * in input order.
   */
  lemma FallbackSiblingsOrdered(xs: seq<MainMenu>, rank: map<int, nat>)
    requires UniqueIds(xs) && Acyclic(xs, rank)
    ensures Acyclic(SortBySequent(xs), rank) && SiblingsOrdered(BuildForest(SortBySequent(xs), rank))
  {
    var ys := SortBySequent(xs);
    SortPermutation(xs);
    SameMembers(ys, xs);
    SortUnique(xs);
    SortSorted(xs);
    BuiltSiblingsOrdered(ys, rank);
  }

  /** Sorting keeps the rank valid: from the roots down, and over every record. */
  lemma SortAcyclic(xs: seq<MainMenu>, rank: map<int, nat>)
    requires RankedFromRoots(xs, rank)
    ensures RankedFromRoots(SortBySequent(xs), rank)
    ensures Acyclic(xs, rank) ==> Acyclic(SortBySequent(xs), rank)
  {
    SortPermutation(xs);
    SameMembers(SortBySequent(xs), xs);
  }
}
