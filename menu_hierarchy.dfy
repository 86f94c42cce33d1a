/**
 * What `buildHierarchyFromFlat` in menu-management.component.ts promises
 * about the tree it returns, and the round trip with `flattenHierarchy`:
 * roots in input order, every other record once under its parent in input
 * order, records whose parent is missing dropped together with their
 * subtrees, and every parent emitted before its children.
 */
module MenuHierarchy {
  import opened Wrappers
  import opened Seqs
  import opened MenuTree
  import opened MenuBuild

  /** No id occurs twice. */
  predicate Distinct(s: seq<int>) {
    forall i, j :: 0 <= i < j < |s| ==> s[i] != s[j]
  }

  /** Every record that is not a root names a parent that is among the input. */
  predicate ParentsPresent(xs: seq<MainMenu>) {
    forall x :: x in xs && !IsRoot(x) ==> x.parent.value in Ids(xs)
  }

  /** Following parent links upward from the record with id `k` leads to `a`. */
  predicate Reaches(xs: seq<MainMenu>, rank: map<int, nat>, k: int, a: int)
    requires Acyclic(xs, rank) && a in rank
    decreases if k in rank && rank[k] < rank[a] then rank[a] - rank[k] else 0
  {
    && k in Ids(xs)
    && (|| k == a
        || var x := LastWithId(xs, k);
           && !IsRoot(x) && x.parent.value in Ids(xs) && rank[k] < rank[a]
           && Reaches(xs, rank, x.parent.value, a))
  }

  /** The parent chain of `k` ends at a root record. */
  predicate Rooted(xs: seq<MainMenu>, rank: map<int, nat>, k: int)
    requires Acyclic(xs, rank)
  {
    exists r :: r in Ids(xs) && IsRoot(LastWithId(xs, r)) && Reaches(xs, rank, k, r)
  }

  /** The facts every lemma below works under. */
  predicate Setting(xs: seq<MainMenu>, rank: map<int, nat>) {
    && UniqueIds(xs) && Acyclic(xs, rank)
    && WellFormed(HierarchyGraph(xs)) && Ranked(HierarchyGraph(xs), rank)
  }

  lemma SettingHolds(xs: seq<MainMenu>, rank: map<int, nat>)
    requires UniqueIds(xs) && Acyclic(xs, rank)
    ensures Setting(xs, rank)
  {
    GraphWellFormed(xs);
    AcyclicRanked(xs, rank);
  }

  /** The ids emitted by walking the trees of the copies `ids`. */
  function Walk(g: MenuGraph, ids: seq<int>, rank: map<int, nat>): seq<int>
    requires WellFormed(g) && Ranked(g, rank) && forall id :: id in ids ==> id in g.nodes && id in rank
  {
    IdsOf(Flatten(Forest(g, ids, rank)))
  }

  lemma UniqueRecord(xs: seq<MainMenu>, y: MainMenu)
    requires UniqueIds(xs) && y in xs
    ensures y.id in Ids(xs) && LastWithId(xs, y.id) == y
  {
  }

  /** `c` is linked under `a` exactly when the record with id `c` names `a` as its parent. */
  lemma ChildMember(xs: seq<MainMenu>, a: int, c: int)
    requires UniqueIds(xs) && a in Ids(xs)
    ensures c in HierarchyGraph(xs).children[a] <==> c in Ids(xs) && IsChildOf(LastWithId(xs, c), a)
  {
    if c in HierarchyGraph(xs).children[a] {
      LinkedChild(xs, a, c);
    }
    if c in Ids(xs) && IsChildOf(LastWithId(xs, c), a) {
      ChildLinked(xs, a, c);
    }
  }

  lemma LinkedChild(xs: seq<MainMenu>, a: int, c: int)
    requires UniqueIds(xs) && a in Ids(xs) && c in HierarchyGraph(xs).children[a]
    ensures c in Ids(xs) && IsChildOf(LastWithId(xs, c), a)
  {
    var kids := ChildRecords(xs, a);
    var i :| 0 <= i < |kids| && IdsOf(kids)[i] == c;
    var y := kids[i];
    assert y in kids;
    assert y in xs && ChildOf(a)(y);
    UniqueRecord(xs, y);
  }

  lemma ChildLinked(xs: seq<MainMenu>, a: int, c: int)
    requires UniqueIds(xs) && a in Ids(xs) && c in Ids(xs) && IsChildOf(LastWithId(xs, c), a)
    ensures c in HierarchyGraph(xs).children[a]
  {
    var kids := ChildRecords(xs, a);
    var y := LastWithId(xs, c);
    FilterKeeps(xs, ChildOf(a), y);
    var i :| 0 <= i < |kids| && kids[i] == y;
    assert IdsOf(kids)[i] == c;
  }

  /** `r` is a root of the built list exactly when the record with id `r` is a root record. */
  lemma RootMember(xs: seq<MainMenu>, r: int)
    requires UniqueIds(xs)
    ensures r in HierarchyGraph(xs).roots <==> r in Ids(xs) && IsRoot(LastWithId(xs, r))
  {
    var roots := RootRecords(xs);
    if r in HierarchyGraph(xs).roots {
      var i :| 0 <= i < |roots| && roots[i].id == r;
      assert roots[i] in xs && IsRoot(roots[i]);
      UniqueRecord(xs, roots[i]);
    }
    if r in Ids(xs) && IsRoot(LastWithId(xs, r)) {
      var y := LastWithId(xs, r);
      FilterKeeps(xs, IsRoot, y);
      var i :| 0 <= i < |roots| && roots[i] == y;
      assert IdsOf(roots)[i] == r;
    }
  }

  lemma {:induction false} FilterUniqueIds(xs: seq<MainMenu>, p: MainMenu -> bool)
    requires UniqueIds(xs)
    ensures Distinct(IdsOf(Filter(xs, p)))
  {
    if xs != [] {
      var rest := xs[1..];
      assert UniqueIds(rest) by {
        forall i, j | 0 <= i < j < |rest| ensures rest[i].id != rest[j].id {
          assert rest[i] == xs[i + 1] && rest[j] == xs[j + 1];
        }
      }
      FilterUniqueIds(rest, p);
      if p(xs[0]) {
        var f := Filter(rest, p);
        forall y | y in f ensures y.id != xs[0].id {
          var i :| 0 <= i < |rest| && rest[i] == y;
          assert xs[i + 1] == y;
        }
        assert Filter(xs, p) == [xs[0]] + f;
        assert forall i :: 0 < i < |IdsOf([xs[0]] + f)| ==> IdsOf([xs[0]] + f)[i] == f[i - 1].id;
      }
    }
  }

  lemma IdsOfConcat(a: seq<MainMenu>, b: seq<MainMenu>)
    ensures IdsOf(a + b) == IdsOf(a) + IdsOf(b)
  {
  }

  /** Walking the trees of `ids`: the first copy, its subtree, then the rest. */
  lemma WalkCons(g: MenuGraph, ids: seq<int>, rank: map<int, nat>)
    requires WellFormed(g) && Ranked(g, rank) && forall id :: id in ids ==> id in g.nodes && id in rank
    requires ids != []
    ensures ids[0] in ids && ids[0] in g.children && forall c :: c in g.children[ids[0]] ==> c in g.nodes && c in rank
    ensures Walk(g, ids, rank) == [g.nodes[ids[0]].id] + Walk(g, g.children[ids[0]], rank) + Walk(g, ids[1..], rank)
  {
    assert ids[0] in ids;
    var f := Forest(g, ids, rank);
    var t := f[0];
    assert f == [t] + f[1..];
    assert f[1..] == Forest(g, ids[1..], rank);
    TreeChildren(g, ids[0], rank);
    assert t.id == g.nodes[ids[0]].id by {
      assert Strip(t) == Strip(g.nodes[ids[0]]);
    }
    IdsOfConcat([t] + Flatten(t.childMenus), Flatten(f[1..]));
    IdsOfConcat([t], Flatten(t.childMenus));
  }

  lemma WalkSplit(g: MenuGraph, ids: seq<int>, rank: map<int, nat>)
    requires WellFormed(g) && Ranked(g, rank) && forall id :: id in ids ==> id in g.nodes && id in rank
    requires ids != []
    ensures Walk(g, ids, rank) == Walk(g, [ids[0]], rank) + Walk(g, ids[1..], rank)
  {
    WalkCons(g, ids, rank);
    WalkCons(g, [ids[0]], rank);
    assert [ids[0]][1..] == [];
    assert Walk(g, [], rank) == [];
  }

  lemma NodeId(xs: seq<MainMenu>, a: int)
    requires a in Ids(xs)
    ensures a in HierarchyGraph(xs).nodes && HierarchyGraph(xs).nodes[a].id == a
  {
  }

  /** A chain that reaches `a` starts at `a` or strictly below it. */
  lemma ReachesBelow(xs: seq<MainMenu>, rank: map<int, nat>, k: int, a: int)
    requires Acyclic(xs, rank) && a in rank && Reaches(xs, rank, k, a)
    ensures k in rank && (k == a || rank[k] < rank[a])
  {
  }

  /** A chain from `k` to `a` other than the trivial one passes through a child of `a`. */
  lemma {:induction false} ReachesDown(xs: seq<MainMenu>, rank: map<int, nat>, k: int, a: int) returns (c: int)
    requires Setting(xs, rank) && a in Ids(xs) && Reaches(xs, rank, k, a) && k != a
    ensures c in HierarchyGraph(xs).children[a] && c in Ids(xs) && Reaches(xs, rank, k, c)
    decreases rank[a] - rank[k]
  {
    var x := LastWithId(xs, k);
    var p := x.parent.value;
    ChildMember(xs, a, k);
    if p == a {
      c := k;
    } else {
      c := ReachesDown(xs, rank, p, a);
      ReachesBelow(xs, rank, p, c);
    }
  }

  /** A chain reaching a child of `a` goes on to `a`. */
  lemma {:induction false} ReachesUp(xs: seq<MainMenu>, rank: map<int, nat>, k: int, c: int, a: int)
    requires Setting(xs, rank) && a in Ids(xs) && c in Ids(xs)
    requires c in HierarchyGraph(xs).children[a] && Reaches(xs, rank, k, c)
    ensures Reaches(xs, rank, k, a)
    decreases if k in rank then rank[c] - rank[k] else 0
  {
    ReachesBelow(xs, rank, k, c);
    var x := LastWithId(xs, k);
    if k == c {
      ChildMember(xs, a, c);
      assert Reaches(xs, rank, a, a);
    } else {
      var p := x.parent.value;
      ReachesBelow(xs, rank, p, c);
      ReachesUp(xs, rank, p, c, a);
      ReachesBelow(xs, rank, p, a);
    }
  }

  /** Two ancestors of the same record lie on one chain. */
  lemma {:induction false} ReachesComparable(xs: seq<MainMenu>, rank: map<int, nat>, k: int, a: int, b: int)
    requires Acyclic(xs, rank) && a in rank && b in rank
    requires Reaches(xs, rank, k, a) && Reaches(xs, rank, k, b)
    ensures Reaches(xs, rank, a, b) || Reaches(xs, rank, b, a)
    decreases if k in rank then rank[a] - rank[k] else 0
  {
    ReachesBelow(xs, rank, k, a);
    if k != a && k != b {
      var p := LastWithId(xs, k).parent.value;
      ReachesBelow(xs, rank, p, a);
      ReachesComparable(xs, rank, p, a, b);
    }
  }

  /** At most one child of a copy leads up from a given record. */
  lemma SiblingsExclusive(xs: seq<MainMenu>, rank: map<int, nat>, k: int, a: int, c1: int, c2: int)
    requires Setting(xs, rank) && a in Ids(xs)
    requires c1 in HierarchyGraph(xs).children[a] && c2 in HierarchyGraph(xs).children[a]
    requires c1 in Ids(xs) && c2 in Ids(xs)
    requires Reaches(xs, rank, k, c1) && Reaches(xs, rank, k, c2)
    ensures c1 == c2
  {
    ChildMember(xs, a, c1);
    ChildMember(xs, a, c2);
    ReachesComparable(xs, rank, k, c1, c2);
    if c1 != c2 {
      if Reaches(xs, rank, c1, c2) {
        ReachesBelow(xs, rank, a, c2);
      } else {
        ReachesBelow(xs, rank, a, c1);
      }
    }
  }

  /** At most one root leads up from a given record. */
  lemma RootsExclusive(xs: seq<MainMenu>, rank: map<int, nat>, k: int, r1: int, r2: int)
    requires Setting(xs, rank)
    requires r1 in HierarchyGraph(xs).roots && r2 in HierarchyGraph(xs).roots
    requires r1 in Ids(xs) && r2 in Ids(xs)
    requires Reaches(xs, rank, k, r1) && Reaches(xs, rank, k, r2)
    ensures r1 == r2
  {
    RootMember(xs, r1);
    RootMember(xs, r2);
    ReachesComparable(xs, rank, k, r1, r2);
  }

  /** A number above the rank of every id in `ids`. */
  ghost function RankBound(ids: seq<int>, rank: map<int, nat>): (b: nat)
    requires forall id :: id in ids ==> id in rank
    ensures forall id :: id in ids ==> rank[id] < b
  {
    if ids == [] then 0
    else
      var x := ids[0];
      assert x in ids;
      assert forall id :: id in ids[1..] ==> id in ids;
      var m := RankBound(ids[1..], rank);
      if rank[x] < m then m else rank[x] + 1
  }

  /** The subtree of copy `a` holds the id `k` once if `k`'s chain reaches `a`, and not at all otherwise. */
  lemma {:induction false} TreeCount(xs: seq<MainMenu>, rank: map<int, nat>, a: int, k: int)
    requires Setting(xs, rank) && a in Ids(xs)
    ensures multiset(Walk(HierarchyGraph(xs), [a], rank))[k] == if Reaches(xs, rank, k, a) then 1 else 0
    decreases rank[a], 1, 0
  {
    var g := HierarchyGraph(xs);
    var kids := g.children[a];
    WalkCons(g, [a], rank);
    assert [a][1..] == [];
    assert Walk(g, [], rank) == [];
    NodeId(xs, a);
    KidsDistinct(xs, a);
    KidsExclusive(xs, rank, k, a);
    ForestCount(xs, rank, kids, rank[a], k);
    KidsReach(xs, rank, k, a);
  }

  lemma KidsExclusive(xs: seq<MainMenu>, rank: map<int, nat>, k: int, a: int)
    requires Setting(xs, rank) && a in Ids(xs)
    ensures var kids := HierarchyGraph(xs).children[a];
      && (forall c :: c in kids ==> c in Ids(xs) && c in rank && rank[c] < rank[a])
      && AtMostOneReaches(xs, rank, k, kids)
  {
    var kids := HierarchyGraph(xs).children[a];
    forall c | c in kids ensures c in Ids(xs) {
      LinkedChild(xs, a, c);
    }
    forall c1, c2 | c1 in kids && c2 in kids && Reaches(xs, rank, k, c1) && Reaches(xs, rank, k, c2)
      ensures c1 == c2
    {
      SiblingsExclusive(xs, rank, k, a, c1, c2);
    }
  }

  /** Some child of `a` leads up from `k` exactly when `k` lies strictly below `a`. */
  lemma KidsReach(xs: seq<MainMenu>, rank: map<int, nat>, k: int, a: int)
    requires Setting(xs, rank) && a in Ids(xs)
    requires forall c :: c in HierarchyGraph(xs).children[a] ==> c in Ids(xs) && c in rank
    ensures SomeReaches(xs, rank, k, HierarchyGraph(xs).children[a]) <==> k != a && Reaches(xs, rank, k, a)
  {
    var kids := HierarchyGraph(xs).children[a];
    if k == a {
      forall c | c in kids ensures !Reaches(xs, rank, k, c) {
        if Reaches(xs, rank, k, c) {
          ReachesBelow(xs, rank, k, c);
        }
      }
    } else if Reaches(xs, rank, k, a) {
      var c := ReachesDown(xs, rank, k, a);
    } else {
      forall c | c in kids ensures !Reaches(xs, rank, k, c) {
        if Reaches(xs, rank, k, c) {
          ReachesUp(xs, rank, k, c, a);
        }
      }
    }
  }

  /** Some copy of `cs` leads up from `k`. */
  predicate SomeReaches(xs: seq<MainMenu>, rank: map<int, nat>, k: int, cs: seq<int>)
    requires Acyclic(xs, rank) && forall c :: c in cs ==> c in rank
  {
    exists c :: c in cs && Reaches(xs, rank, k, c)
  }

  /** At most one copy of `cs` leads up from `k`. */
  predicate AtMostOneReaches(xs: seq<MainMenu>, rank: map<int, nat>, k: int, cs: seq<int>)
    requires Acyclic(xs, rank) && forall c :: c in cs ==> c in rank
  {
    forall c1, c2 :: c1 in cs && c2 in cs && Reaches(xs, rank, k, c1) && Reaches(xs, rank, k, c2) ==> c1 == c2
  }

  lemma SomeReachesCons(xs: seq<MainMenu>, rank: map<int, nat>, k: int, cs: seq<int>)
    requires Acyclic(xs, rank) && cs != [] && forall c :: c in cs ==> c in rank
    requires Distinct(cs) && AtMostOneReaches(xs, rank, k, cs)
    ensures Distinct(cs[1..]) && AtMostOneReaches(xs, rank, k, cs[1..])
    ensures SomeReaches(xs, rank, k, cs) <==> Reaches(xs, rank, k, cs[0]) || SomeReaches(xs, rank, k, cs[1..])
    ensures !(Reaches(xs, rank, k, cs[0]) && SomeReaches(xs, rank, k, cs[1..]))
  {
    var rest := cs[1..];
    assert cs[0] in cs;
    assert forall c :: c in rest ==> c in cs;
    assert forall i :: 0 <= i < |rest| ==> rest[i] == cs[i + 1];
    if SomeReaches(xs, rank, k, cs) && !Reaches(xs, rank, k, cs[0]) {
      var c :| c in cs && Reaches(xs, rank, k, c);
      var i :| 0 <= i < |cs| && cs[i] == c;
      assert c == rest[i - 1];
    }
  }

  /** A list of distinct copies, at most one of which leads up from `k`, holds `k` at most once. */
  lemma {:induction false} ForestCount(xs: seq<MainMenu>, rank: map<int, nat>, cs: seq<int>, bound: nat, k: int)
    requires Setting(xs, rank) && forall c :: c in cs ==> c in Ids(xs) && c in rank && rank[c] < bound
    requires Distinct(cs) && AtMostOneReaches(xs, rank, k, cs)
    ensures multiset(Walk(HierarchyGraph(xs), cs, rank))[k] == if SomeReaches(xs, rank, k, cs) then 1 else 0
    decreases bound, 0, |cs|
  {
    var g := HierarchyGraph(xs);
    if cs == [] {
      assert Walk(g, cs, rank) == [];
    } else {
      var rest := cs[1..];
      assert cs[0] in cs && forall c :: c in rest ==> c in cs;
      WalkSplit(g, cs, rank);
      TreeCount(xs, rank, cs[0], k);
      SomeReachesCons(xs, rank, k, cs);
      ForestCount(xs, rank, rest, bound, k);
    }
  }

  lemma KidsDistinct(xs: seq<MainMenu>, a: int)
    requires UniqueIds(xs) && a in Ids(xs)
    ensures Distinct(HierarchyGraph(xs).children[a])
  {
    FilterUniqueIds(xs, ChildOf(a));
  }

  lemma RootsDistinct(xs: seq<MainMenu>)
    requires UniqueIds(xs)
    ensures Distinct(HierarchyGraph(xs).roots)
  {
    FilterUniqueIds(xs, IsRoot);
  }

  /**
   * Every record's id occurs in the walk of the built list once when its
   * parent chain ends at a root record, and not at all otherwise.
   */
  lemma BuiltCount(xs: seq<MainMenu>, rank: map<int, nat>, k: int)
    requires UniqueIds(xs) && Acyclic(xs, rank)
    ensures multiset(IdsOf(Flatten(BuildForest(xs, rank))))[k] == if Rooted(xs, rank, k) then 1 else 0
  {
    SettingHolds(xs, rank);
    var g := HierarchyGraph(xs);
    var roots := g.roots;
    assert forall r :: r in roots ==> r in Ids(xs) && r in rank;
    RootsDistinct(xs);
    forall r1, r2 | r1 in roots && r2 in roots && Reaches(xs, rank, k, r1) && Reaches(xs, rank, k, r2)
      ensures r1 == r2
    {
      RootsExclusive(xs, rank, k, r1, r2);
    }
    assert AtMostOneReaches(xs, rank, k, roots);
    ForestCount(xs, rank, roots, RankBound(roots, rank), k);
    assert SomeReaches(xs, rank, k, roots) <==> Rooted(xs, rank, k) by {
      if SomeReaches(xs, rank, k, roots) {
        var r :| r in roots && Reaches(xs, rank, k, r);
        RootMember(xs, r);
      }
      if Rooted(xs, rank, k) {
        var r :| r in Ids(xs) && IsRoot(LastWithId(xs, r)) && Reaches(xs, rank, k, r);
        RootMember(xs, r);
      }
    }
  }

  /** When every parent is present, every record's chain ends at a root. */
  lemma {:induction false} AllRooted(xs: seq<MainMenu>, rank: map<int, nat>, k: int, bound: nat)
    requires UniqueIds(xs) && Acyclic(xs, rank) && ParentsPresent(xs)
    requires k in Ids(xs) && forall id :: id in Ids(xs) ==> rank[id] < bound
    ensures Rooted(xs, rank, k)
    decreases bound - rank[k]
  {
    var x := LastWithId(xs, k);
    if IsRoot(x) {
      assert Reaches(xs, rank, k, k);
    } else {
      var p := x.parent.value;
      AllRooted(xs, rank, p, bound);
      var r :| r in Ids(xs) && IsRoot(LastWithId(xs, r)) && Reaches(xs, rank, p, r);
      ReachesBelow(xs, rank, p, r);
      assert Reaches(xs, rank, k, r);
    }
  }

  /** With unique ids, each id of the input occurs once among its ids. */
  lemma {:induction false} UniqueCount(xs: seq<MainMenu>, k: int)
    requires UniqueIds(xs)
    ensures multiset(IdsOf(xs))[k] == if k in Ids(xs) then 1 else 0
  {
    if xs != [] {
      var rest := xs[1..];
      UniqueTail(xs);
      UniqueCount(rest, k);
      IdsOfCons(xs);
    }
  }

  lemma IdsOfCons(xs: seq<MainMenu>)
    requires xs != []
    ensures IdsOf(xs) == [xs[0].id] + IdsOf(xs[1..])
  {
  }

  /** The tail of a list with unique ids has unique ids, none of them the head's. */
  lemma UniqueTail(xs: seq<MainMenu>)
    requires UniqueIds(xs) && xs != []
    ensures UniqueIds(xs[1..]) && xs[0].id !in Ids(xs[1..])
    ensures Ids(xs) == {xs[0].id} + Ids(xs[1..])
  {
    var rest := xs[1..];
    assert xs == [xs[0]] + rest;
    forall i, j | 0 <= i < j < |rest| ensures rest[i].id != rest[j].id {
      assert rest[i] == xs[i + 1] && rest[j] == xs[j + 1];
    }
    forall y | y in rest ensures y.id != xs[0].id {
      var i :| 0 <= i < |rest| && rest[i] == y;
      assert xs[i + 1] == y;
    }
  }

  /** The largest rank among the input's ids, plus one. */
  ghost function IdRankBound(xs: seq<MainMenu>, rank: map<int, nat>): (b: nat)
    requires Acyclic(xs, rank)
    ensures forall id :: id in Ids(xs) ==> rank[id] < b
  {
    var ids := IdsOf(xs);
    assert forall id :: id in Ids(xs) ==> id in ids by {
      forall id | id in Ids(xs) ensures id in ids {
        var x :| x in xs && x.id == id;
        var i :| 0 <= i < |xs| && xs[i] == x;
        assert ids[i] == id;
      }
    }
    RankBound(ids, rank)
  }

  /**
   * The round trip: for input with unique ids, no cycles and every parent
   * present, walking the built list emits every input id exactly once.
   */
  lemma RoundTripIds(xs: seq<MainMenu>, rank: map<int, nat>)
    requires UniqueIds(xs) && Acyclic(xs, rank) && ParentsPresent(xs)
    ensures multiset(IdsOf(Flatten(BuildForest(xs, rank)))) == multiset(IdsOf(xs))
  {
    var a, b := multiset(IdsOf(Flatten(BuildForest(xs, rank)))), multiset(IdsOf(xs));
    forall k ensures a[k] == b[k] {
      BuiltCount(xs, rank, k);
      UniqueCount(xs, k);
      if k in Ids(xs) {
        AllRooted(xs, rank, k, IdRankBound(xs, rank));
      }
    }
  }

  /**
   * A record whose parent is set but absent from the input is dropped:
   * it is neither promoted to a root nor emitted anywhere in the tree.
   */
  lemma OrphanDropped(xs: seq<MainMenu>, rank: map<int, nat>, x: MainMenu)
    requires UniqueIds(xs) && Acyclic(xs, rank)
    requires x in xs && !IsRoot(x) && x.parent.value !in Ids(xs)
    ensures x.id !in HierarchyGraph(xs).roots
    ensures x.id !in IdsOf(Flatten(BuildForest(xs, rank)))
  {
    UniqueRecord(xs, x);
    RootMember(xs, x.id);
    BuiltCount(xs, rank, x.id);
  }

  /**
   * A node as the built tree holds it: a copy of an input record whose
   * children are, in input order, the copies of the records naming it as
   * their parent.
   */
  predicate BuiltNode(xs: seq<MainMenu>, n: MainMenu) {
    Strip(n) in StripAll(xs) && StripAll(n.childMenus) == StripAll(ChildRecords(xs, n.id))
  }

  function BuiltNodeOf(xs: seq<MainMenu>): MainMenu -> bool {
    n => BuiltNode(xs, n)
  }

  /** The child copy at position `j` under `a` is the copy of the `j`-th record naming `a` as parent. */
  lemma KidAt(xs: seq<MainMenu>, rank: map<int, nat>, a: int, j: nat)
    requires Setting(xs, rank) && a in Ids(xs) && j < |HierarchyGraph(xs).children[a]|
    ensures var g := HierarchyGraph(xs); var z := ChildRecords(xs, a)[j];
      && z in xs && IsChildOf(z, a) && g.children[a][j] == z.id && z.id in Ids(xs)
      && Strip(Tree(g, z.id, rank)) == Strip(z)
  {
    var g := HierarchyGraph(xs);
    var z := ChildRecords(xs, a)[j];
    assert z in ChildRecords(xs, a);
    UniqueRecord(xs, z);
    assert g.children[a][j] in g.children[a];
  }

  /** The tree of a copy is built of input records linked under their parents. */
  lemma {:induction false} TreeShape(xs: seq<MainMenu>, rank: map<int, nat>, a: int)
    requires Setting(xs, rank) && a in Ids(xs)
    ensures AllNodes(Tree(HierarchyGraph(xs), a, rank), BuiltNodeOf(xs))
    ensures LinkedTree(Tree(HierarchyGraph(xs), a, rank))
    decreases rank[a], 1
  {
    var g := HierarchyGraph(xs);
    var t := Tree(g, a, rank);
    var recs := ChildRecords(xs, a);
    TreeTop(xs, rank, a);
    forall j | 0 <= j < |t.childMenus|
      ensures Strip(t.childMenus[j]) == Strip(recs[j])
      ensures !IsRootParent(t.childMenus[j].parent) && t.childMenus[j].parent.value == t.id
      ensures AllNodes(t.childMenus[j], BuiltNodeOf(xs)) && LinkedTree(t.childMenus[j])
    {
      KidShape(xs, rank, a, j);
    }
    ShapeFromKids(xs, t);
  }

  /** The copy's own fields come from an input record, and its children are the trees of its child ids. */
  lemma TreeTop(xs: seq<MainMenu>, rank: map<int, nat>, a: int)
    requires Setting(xs, rank) && a in Ids(xs)
    ensures var g := HierarchyGraph(xs); var t := Tree(g, a, rank);
      && t.id == a && Strip(t) in StripAll(xs)
      && t.childMenus == Forest(g, g.children[a], rank)
      && |t.childMenus| == |ChildRecords(xs, a)|
  {
    var g := HierarchyGraph(xs);
    var t := Tree(g, a, rank);
    NodeId(xs, a);
    assert Strip(t) == Strip(g.nodes[a]);
    var y := LastWithId(xs, a);
    var i :| 0 <= i < |xs| && xs[i] == y;
    assert StripAll(xs)[i] == Strip(t);
    TreeChildren(g, a, rank);
  }

  lemma {:induction false} KidShape(xs: seq<MainMenu>, rank: map<int, nat>, a: int, j: nat)
    requires Setting(xs, rank) && a in Ids(xs) && j < |ChildRecords(xs, a)|
    ensures var t := Tree(HierarchyGraph(xs), a, rank);
      && j < |t.childMenus| && Strip(t.childMenus[j]) == Strip(ChildRecords(xs, a)[j])
      && !IsRootParent(t.childMenus[j].parent) && t.childMenus[j].parent.value == t.id
      && AllNodes(t.childMenus[j], BuiltNodeOf(xs)) && LinkedTree(t.childMenus[j])
    decreases rank[a], 0
  {
    var g := HierarchyGraph(xs);
    TreeTop(xs, rank, a);
    KidAt(xs, rank, a, j);
    var kid := g.children[a][j];
    assert kid in g.children[a];
    TreeShape(xs, rank, kid);
  }

  /** A node that is a built node, over linked children that are built trees, is a built tree. */
  lemma ShapeFromKids(xs: seq<MainMenu>, t: MainMenu)
    requires Strip(t) in StripAll(xs) && |t.childMenus| == |ChildRecords(xs, t.id)|
    requires forall j :: 0 <= j < |t.childMenus| ==>
      && Strip(t.childMenus[j]) == Strip(ChildRecords(xs, t.id)[j])
      && !IsRootParent(t.childMenus[j].parent) && t.childMenus[j].parent.value == t.id
      && AllNodes(t.childMenus[j], BuiltNodeOf(xs)) && LinkedTree(t.childMenus[j])
    ensures AllNodes(t, BuiltNodeOf(xs)) && LinkedTree(t)
  {
    assert StripAll(t.childMenus) == StripAll(ChildRecords(xs, t.id));
    assert BuiltNode(xs, t);
    forall c | c in t.childMenus
      ensures AllNodes(c, BuiltNodeOf(xs))
      ensures !IsRootParent(c.parent) && c.parent.value == t.id && LinkedTree(c)
    {
      var j :| 0 <= j < |t.childMenus| && t.childMenus[j] == c;
    }
  }

  /** The built list holds, in input order, the copies of the root records. */
  lemma BuiltRoots(xs: seq<MainMenu>, rank: map<int, nat>)
    requires UniqueIds(xs) && Acyclic(xs, rank)
    ensures StripAll(BuildForest(xs, rank)) == StripAll(RootRecords(xs))
  {
    SettingHolds(xs, rank);
    var f := BuildForest(xs, rank);
    var recs := RootRecords(xs);
    forall j | 0 <= j < |f| ensures Strip(f[j]) == Strip(recs[j]) {
      RootAt(xs, rank, j);
    }
  }

  /** Each tree of the built list is a root built of input records linked under their parents. */
  lemma BuiltRootTrees(xs: seq<MainMenu>, rank: map<int, nat>)
    requires UniqueIds(xs) && Acyclic(xs, rank)
    ensures forall t :: t in BuildForest(xs, rank) ==>
      IsRootParent(t.parent) && AllNodes(t, BuiltNodeOf(xs)) && LinkedTree(t)
  {
    SettingHolds(xs, rank);
    var f := BuildForest(xs, rank);
    forall t | t in f
      ensures IsRootParent(t.parent) && AllNodes(t, BuiltNodeOf(xs)) && LinkedTree(t)
    {
      var j :| 0 <= j < |f| && f[j] == t;
      RootAt(xs, rank, j);
    }
  }

  lemma RootAt(xs: seq<MainMenu>, rank: map<int, nat>, j: nat)
    requires Setting(xs, rank) && j < |RootRecords(xs)|
    ensures var f := BuildForest(xs, rank); var z := RootRecords(xs)[j];
      && j < |f| && Strip(f[j]) == Strip(z) && IsRootParent(f[j].parent)
      && AllNodes(f[j], BuiltNodeOf(xs)) && LinkedTree(f[j])
  {
    var g := HierarchyGraph(xs);
    var z := RootRecords(xs)[j];
    assert z in RootRecords(xs);
    UniqueRecord(xs, z);
    assert g.roots[j] == z.id;
    TreeShape(xs, rank, z.id);
  }

  /**
   * Every node the walk of the built list emits is a copy of an input record
   * whose children are the copies of that record's child records, in input
   * order; and each non-root node is emitted after its parent.
   */
  lemma BuiltNodes(xs: seq<MainMenu>, rank: map<int, nat>)
    requires UniqueIds(xs) && Acyclic(xs, rank)
    ensures var w := Flatten(BuildForest(xs, rank));
      && (forall n :: n in w ==> BuiltNode(xs, n))
      && (forall j :: 0 <= j < |w| && !IsRootParent(w[j].parent) ==>
            exists i :: 0 <= i < j && w[i].id == w[j].parent.value)
  {
    BuiltRootTrees(xs, rank);
    var f := BuildForest(xs, rank);
    FlattenAllNodes(f, BuiltNodeOf(xs));
    ParentsFirst(f);
  }
}
