/**
 * `buildHierarchyFromFlat` in menu-management.component.ts. The source fills
 * a `Map` from id to a fresh copy of each record, then pushes every record's
 * copy onto the `childMenus` array of its parent's copy, or onto the root
 * list. The result is a graph of shared objects. Here that graph is a value
 * (`MenuGraph`): the copy stored for each id, the ids pushed onto each copy's
 * `childMenus`, and the root ids. The nested `MainMenu` tree a caller sees is
 * the unfolding of that graph (`Tree`, `BuildForest`).
 */
module MenuBuild {
  import opened Wrappers
  import opened Seqs
  import opened MenuTree

  /** `y` is pushed under the copy with id `p`: its parent is set, non-zero and equal to `p`. */
  predicate IsChildOf(y: MainMenu, p: int) {
    !IsRootParent(y.parent) && y.parent.value == p
  }

  predicate IsRoot(x: MainMenu) {
    IsRootParent(x.parent)
  }

  function ChildOf(p: int): MainMenu -> bool {
    y => IsChildOf(y, p)
  }

  /** The root records, in input order. */
  function RootRecords(xs: seq<MainMenu>): seq<MainMenu> {
    Filter(xs, IsRoot)
  }

  /** The records naming `p` as their parent, in input order. */
  function ChildRecords(xs: seq<MainMenu>, p: int): seq<MainMenu> {
    Filter(xs, ChildOf(p))
  }

  function Ids(xs: seq<MainMenu>): set<int> {
    set x | x in xs :: x.id
  }

  predicate UniqueIds(xs: seq<MainMenu>) {
    forall i, j :: 0 <= i < j < |xs| ==> xs[i].id != xs[j].id
  }

  /** The record `menuMap.get(id)` was copied from: `Map.set` keeps the last one. */
  function LastWithId(xs: seq<MainMenu>, id: int): (r: MainMenu)
    requires id in Ids(xs)
    ensures r in xs && r.id == id
    ensures forall x :: x in xs && x.id == id && UniqueIds(xs) ==> x == r
  {
    var last := xs[|xs| - 1];
    assert xs == xs[..|xs| - 1] + [last];
    if last.id == id then
      UniqueLast(xs, id);
      last
    else
      assert id in Ids(xs[..|xs| - 1]);
      var r := LastWithId(xs[..|xs| - 1], id);
      assert UniqueIds(xs) ==> UniqueIds(xs[..|xs| - 1]);
      r
  }

  lemma UniqueLast(xs: seq<MainMenu>, id: int)
    requires xs != [] && xs[|xs| - 1].id == id
    ensures forall x :: x in xs && x.id == id && UniqueIds(xs) ==> x == xs[|xs| - 1]
  {
    forall x | x in xs && x.id == id && UniqueIds(xs) ensures x == xs[|xs| - 1] {
      var i :| 0 <= i < |xs| && xs[i] == x;
    }
  }

  /**
   * The object graph `buildHierarchyFromFlat` leaves behind: `nodes[id]` is
   * the copy made for `id` (with its own fields), `children[id]` the ids
   * pushed onto that copy's `childMenus`, and `roots` the ids pushed onto
   * the returned list.
   */
  datatype MenuGraph = MenuGraph(nodes: map<int, MainMenu>, children: map<int, seq<int>>, roots: seq<int>)

  /** The graph described declaratively, record by record. */
  function HierarchyGraph(xs: seq<MainMenu>): (g: MenuGraph)
    ensures g.nodes.Keys == Ids(xs) && g.children.Keys == Ids(xs)
    ensures |g.roots| == |RootRecords(xs)| && forall i :: 0 <= i < |g.roots| ==> g.roots[i] == RootRecords(xs)[i].id
  {
    MenuGraph(CopiesOf(xs), ChildLists(xs), IdsOf(RootRecords(xs)))
  }

  /** The copy made for each id. */
  function CopiesOf(xs: seq<MainMenu>): (m: map<int, MainMenu>)
    ensures m.Keys == Ids(xs)
    ensures forall id :: id in m ==> m[id] == Strip(LastWithId(xs, id))
  {
    map id | id in Ids(xs) :: Strip(LastWithId(xs, id))
  }

  /** The ids pushed onto each copy's `childMenus`. */
  function ChildLists(xs: seq<MainMenu>): (m: map<int, seq<int>>)
    ensures m.Keys == Ids(xs)
    ensures forall id :: id in m ==> m[id] == IdsOf(ChildRecords(xs, id))
  {
    map id | id in Ids(xs) :: IdsOf(ChildRecords(xs, id))
  }

  lemma IdsPrefix(xs: seq<MainMenu>, i: nat)
    requires i < |xs|
    ensures Ids(xs[..i + 1]) == Ids(xs[..i]) + {xs[i].id}
  {
    assert xs[..i + 1] == xs[..i] + [xs[i]];
  }

  lemma LastStep(xs: seq<MainMenu>, i: nat, id: int)
    requires i < |xs| && id in Ids(xs[..i + 1])
    ensures LastWithId(xs[..i + 1], id) == if xs[i].id == id then xs[i] else LastWithId(xs[..i], id)
  {
    assert xs[..i + 1][..i] == xs[..i];
    if xs[i].id != id {
      IdsPrefix(xs, i);
    }
  }

  lemma FilterIdsStep(xs: seq<MainMenu>, i: nat, p: MainMenu -> bool)
    requires i < |xs|
    ensures IdsOf(Filter(xs[..i + 1], p)) == IdsOf(Filter(xs[..i], p)) + (if p(xs[i]) then [xs[i].id] else [])
  {
    assert xs[..i + 1] == xs[..i] + [xs[i]];
    FilterAppend(xs[..i], [xs[i]], p);
    assert [xs[i]][1..] == [];
    var a, b := Filter(xs[..i], p), Filter([xs[i]], p);
    assert IdsOf(a + b) == IdsOf(a) + IdsOf(b);
  }

  /** The first pass after `i` records: one copy per id seen, the last record's fields. */
  predicate CopiesMade(xs: seq<MainMenu>, i: nat, menuMap: map<int, MainMenu>)
    requires i <= |xs|
  {
    && menuMap.Keys == Ids(xs[..i])
    && forall id :: id in menuMap ==> menuMap[id] == Strip(LastWithId(xs[..i], id))
  }

  lemma CopyStep(xs: seq<MainMenu>, i: nat, menuMap: map<int, MainMenu>)
    requires i < |xs| && CopiesMade(xs, i, menuMap)
    ensures CopiesMade(xs, i + 1, menuMap[xs[i].id := Strip(xs[i])])
  {
    IdsPrefix(xs, i);
    forall id | id in Ids(xs[..i + 1])
      ensures LastWithId(xs[..i + 1], id) == if xs[i].id == id then xs[i] else LastWithId(xs[..i], id)
    {
      LastStep(xs, i, id);
    }
  }

  /** The second pass after `i` records: linked roots and children so far. */
  predicate Linked(xs: seq<MainMenu>, i: nat, childMenus: map<int, seq<int>>, rootMenus: seq<int>)
    requires i <= |xs|
  {
    && childMenus.Keys == Ids(xs)
    && rootMenus == IdsOf(RootRecords(xs[..i]))
    && forall id :: id in childMenus ==> childMenus[id] == IdsOf(ChildRecords(xs[..i], id))
  }

  lemma LinkStep(xs: seq<MainMenu>, i: nat, childMenus: map<int, seq<int>>, rootMenus: seq<int>)
    requires i < |xs| && Linked(xs, i, childMenus, rootMenus)
    ensures var menu := xs[i];
      Linked(xs, i + 1,
        if !IsRootParent(menu.parent) && menu.parent.value in childMenus
        then childMenus[menu.parent.value := childMenus[menu.parent.value] + [menu.id]]
        else childMenus,
        if IsRootParent(menu.parent) then rootMenus + [menu.id] else rootMenus)
  {
    FilterIdsStep(xs, i, IsRoot);
    ChildListsStep(xs, i, childMenus);
  }

  lemma ChildListsStep(xs: seq<MainMenu>, i: nat, childMenus: map<int, seq<int>>)
    requires i < |xs|
    requires forall id :: id in childMenus ==> childMenus[id] == IdsOf(ChildRecords(xs[..i], id))
    ensures forall id :: id in childMenus ==>
      IdsOf(ChildRecords(xs[..i + 1], id)) == childMenus[id] + (if IsChildOf(xs[i], id) then [xs[i].id] else [])
  {
    forall id | id in childMenus
      ensures IdsOf(ChildRecords(xs[..i + 1], id))
           == IdsOf(ChildRecords(xs[..i], id)) + (if IsChildOf(xs[i], id) then [xs[i].id] else [])
    {
      FilterIdsStep(xs, i, ChildOf(id));
    }
  }

  /**
   * `buildHierarchyFromFlat(flatMenus)`: two passes over the input, the
   * first filling the `Map`, the second linking every record to its parent
   * or to the root list. Records whose parent id is not in the `Map` are
   * linked nowhere.
   */
  method BuildHierarchyFromFlat(flatMenus: seq<MainMenu>) returns (g: MenuGraph)
    ensures g == HierarchyGraph(flatMenus)
  {
    var menuMap: map<int, MainMenu> := map[];
    var childMenus: map<int, seq<int>> := map[];
    for i := 0 to |flatMenus|
      invariant CopiesMade(flatMenus, i, menuMap) && childMenus.Keys == menuMap.Keys
      invariant forall id :: id in childMenus ==> childMenus[id] == []
    {
      var menu := flatMenus[i];
      CopyStep(flatMenus, i, menuMap);
      menuMap := menuMap[menu.id := Strip(menu)];
      childMenus := childMenus[menu.id := []];
    }
    assert flatMenus[..|flatMenus|] == flatMenus;
    var rootMenus: seq<int> := [];
    for i := 0 to |flatMenus|
      invariant Linked(flatMenus, i, childMenus, rootMenus)
    {
      var menu := flatMenus[i];
      LinkStep(flatMenus, i, childMenus, rootMenus);
      if IsRootParent(menu.parent) {
        rootMenus := rootMenus + [menu.id];
      } else if menu.parent.value in childMenus {
        var p := menu.parent.value;
        childMenus := childMenus[p := childMenus[p] + [menu.id]];
      }
    }
    assert flatMenus[..|flatMenus|] == flatMenus;
    g := MenuGraph(menuMap, childMenus, rootMenus);
    GraphFromParts(flatMenus, g);
  }

  lemma GraphFromParts(xs: seq<MainMenu>, g: MenuGraph)
    requires g.nodes.Keys == Ids(xs) && g.children.Keys == Ids(xs)
    requires forall id :: id in g.nodes ==> g.nodes[id] == Strip(LastWithId(xs, id))
    requires forall id :: id in g.children ==> g.children[id] == IdsOf(ChildRecords(xs, id))
    requires g.roots == IdsOf(RootRecords(xs))
    ensures g == HierarchyGraph(xs)
  {
    MapsEqual(g.nodes, CopiesOf(xs));
    MapsEqual(g.children, ChildLists(xs));
  }

  lemma MapsEqual<K, V>(a: map<K, V>, b: map<K, V>)
    requires a.Keys == b.Keys && forall k :: k in a ==> a[k] == b[k]
    ensures a == b
  {
  }

  /** Every id the graph mentions has a copy. */
  predicate WellFormed(g: MenuGraph) {
    && g.children.Keys == g.nodes.Keys
    && (forall r :: r in g.roots ==> r in g.nodes)
    && (forall p :: p in g.children ==> forall c :: c in g.children[p] ==> c in g.nodes)
  }

  /**
   * A rank that strictly decreases from every ranked copy to the copies
   * linked under it, and ranks the roots: the part of the graph reachable
   * from the roots is acyclic, so its unfolding is a finite tree.
   */
  predicate Ranked(g: MenuGraph, rank: map<int, nat>) {
    && (forall r :: r in g.roots ==> r in rank)
    && (forall p :: p in g.children && p in rank ==>
          forall c :: c in g.children[p] ==> c in rank && rank[c] < rank[p])
  }

  /** The nested value of the copy with id `id`, as a tree walk sees it. */
  function Tree(g: MenuGraph, id: int, ghost rank: map<int, nat>): (t: MainMenu)
    requires WellFormed(g) && Ranked(g, rank) && id in g.nodes && id in rank
    ensures Strip(t) == Strip(g.nodes[id]) && |t.childMenus| == |g.children[id]|
    decreases rank[id]
  {
    var kids := g.children[id];
    g.nodes[id].(childMenus := seq(|kids|, i requires 0 <= i < |kids| => Tree(g, kids[i], rank)))
  }

  /** The trees of the copies `ids`, in order. */
  function Forest(g: MenuGraph, ids: seq<int>, ghost rank: map<int, nat>): (ts: seq<MainMenu>)
    requires WellFormed(g) && Ranked(g, rank)
    requires forall id :: id in ids ==> id in g.nodes && id in rank
    ensures |ts| == |ids| && forall i :: 0 <= i < |ids| ==> ts[i] == Tree(g, ids[i], rank)
  {
    seq(|ids|, i requires 0 <= i < |ids| => Tree(g, ids[i], rank))
  }

  lemma TreeChildren(g: MenuGraph, id: int, rank: map<int, nat>)
    requires WellFormed(g) && Ranked(g, rank) && id in g.nodes && id in rank
    ensures Tree(g, id, rank).childMenus == Forest(g, g.children[id], rank)
  {
  }

  /**
   * Following child links down from the roots never comes back: every root
   * is ranked, and a record whose parent id is ranked is ranked strictly
   * below that parent. Records that hang under no root, such as a parent
   * cycle cut off from the roots or a record that is its own parent, are
   * left unconstrained; the source never walks them.
   */
  predicate RankedFromRoots(xs: seq<MainMenu>, rank: map<int, nat>) {
    && (forall x :: x in xs && IsRoot(x) ==> x.id in rank)
    && forall x :: x in xs && !IsRoot(x) && x.parent.value in rank ==> x.id in rank && rank[x.id] < rank[x.parent.value]
  }

  /** No record is its own ancestor: every record is ranked, below its parent. */
  predicate Acyclic(xs: seq<MainMenu>, rank: map<int, nat>) {
    Ids(xs) <= rank.Keys && RankedFromRoots(xs, rank)
  }

  /** The rank of the records ranks the built graph from its roots down. */
  lemma AcyclicRanked(xs: seq<MainMenu>, rank: map<int, nat>)
    requires RankedFromRoots(xs, rank)
    ensures Ranked(HierarchyGraph(xs), rank)
  {
    var g := HierarchyGraph(xs);
    forall r | r in g.roots ensures r in rank {
      var i :| 0 <= i < |g.roots| && g.roots[i] == r;
      RecordRanked(xs, rank, RootRecords(xs)[i]);
    }
    forall p, c | p in g.children && p in rank && c in g.children[p] ensures c in rank && rank[c] < rank[p] {
      ChildRanked(xs, rank, p, c);
    }
  }

  lemma RecordRanked(xs: seq<MainMenu>, rank: map<int, nat>, x: MainMenu)
    requires RankedFromRoots(xs, rank) && x in xs && IsRoot(x)
    ensures x.id in rank
  {
  }

  lemma ChildRanked(xs: seq<MainMenu>, rank: map<int, nat>, p: int, c: int)
    requires RankedFromRoots(xs, rank) && p in rank && c in IdsOf(ChildRecords(xs, p))
    ensures c in rank && rank[c] < rank[p]
  {
    var ys := ChildRecords(xs, p);
    var i :| 0 <= i < |ys| && IdsOf(ys)[i] == c;
    var y := ys[i];
    assert y in xs && IsChildOf(y, p);
  }

  /** The list `buildHierarchyFromFlat` returns, as nested values, when no cycle hangs under a root. */
  function BuildForest(xs: seq<MainMenu>, ghost rank: map<int, nat>): (r: seq<MainMenu>)
    requires RankedFromRoots(xs, rank)
    ensures |r| == |RootRecords(xs)|
    ensures forall i :: 0 <= i < |r| ==> r[i].id == RootRecords(xs)[i].id
  {
    GraphWellFormed(xs);
    AcyclicRanked(xs, rank);
    Forest(HierarchyGraph(xs), HierarchyGraph(xs).roots, rank)
  }

  /** A bare flat record with the given id and parent, for the examples below. */
  function FlatRecord(id: int, parent: int): MainMenu {
    MainMenu(id, Some(parent), "", None, true, None, None, None, None, [])
  }

  /** Root record 1, a parent cycle 2-3 cut off from the roots, and record 5, its own parent. */
  function CutOffInput(): seq<MainMenu> {
    [FlatRecord(1, 0), FlatRecord(2, 3), FlatRecord(3, 2), FlatRecord(5, 5)]
  }

  /** No rank makes the cut-off input `Acyclic`, while ranking the root alone satisfies `RankedFromRoots`. */
  lemma CutOffInputRanked()
    ensures RankedFromRoots(CutOffInput(), map[1 := 0])
    ensures forall r :: !Acyclic(CutOffInput(), r)
  {
    var xs := CutOffInput();
    forall r ensures !Acyclic(xs, r) {
      assert xs[1] in xs && xs[2] in xs;
      assert 2 in Ids(xs) && 3 in Ids(xs);
    }
  }

  lemma CutOffRecords()
    ensures RootRecords(CutOffInput()) == [FlatRecord(1, 0)] && ChildRecords(CutOffInput(), 1) == []
  {
    var xs := CutOffInput();
    assert Filter(xs[3..], IsRoot) == [] && Filter(xs[3..], ChildOf(1)) == [];
    assert Filter(xs[2..], IsRoot) == [] && Filter(xs[2..], ChildOf(1)) == [];
    assert Filter(xs[1..], IsRoot) == [] && Filter(xs[1..], ChildOf(1)) == [];
  }

  lemma CutOffGraph()
    ensures var g := HierarchyGraph(CutOffInput());
      g.roots == [1] && 1 in g.nodes && g.children[1] == [] && g.nodes[1] == FlatRecord(1, 0)
  {
    var xs := CutOffInput();
    CutOffRecords();
    assert xs[0] in xs;
    assert 1 in Ids(xs);
    CutOffUnique();
    var r := LastWithId(xs, 1);
    assert r == xs[0];
  }

  lemma CutOffUnique()
    ensures UniqueIds(CutOffInput())
  {
  }

  /** The cut-off cycle and the self-parented record are never walked: the built list is root record 1 alone. */
  lemma CutOffCycleBuilt()
    ensures RankedFromRoots(CutOffInput(), map[1 := 0])
    ensures BuildForest(CutOffInput(), map[1 := 0]) == [FlatRecord(1, 0)]
  {
    CutOffInputRanked();
    CutOffGraph();
    SingleLeafBuilt(CutOffInput(), map[1 := 0], 1);
  }

  /** A built graph whose only root has no children unfolds to that root's copy alone. */
  lemma SingleLeafBuilt(xs: seq<MainMenu>, rank: map<int, nat>, r: int)
    requires RankedFromRoots(xs, rank)
    requires var g := HierarchyGraph(xs); g.roots == [r] && r in g.nodes && g.children[r] == []
    ensures BuildForest(xs, rank) == [HierarchyGraph(xs).nodes[r]]
  {
    var g := HierarchyGraph(xs);
    GraphWellFormed(xs);
    AcyclicRanked(xs, rank);
    var t := Tree(g, r, rank);
    assert g.nodes[r] == Strip(LastWithId(xs, r));
    assert |BuildForest(xs, rank)| == 1 && BuildForest(xs, rank)[0] == t;
  }

  /** The built graph is always well formed. */
  lemma GraphWellFormed(xs: seq<MainMenu>)
    ensures WellFormed(HierarchyGraph(xs))
  {
    var g := HierarchyGraph(xs);
    forall r | r in g.roots ensures r in g.nodes {
      var i :| 0 <= i < |g.roots| && g.roots[i] == r;
      assert RootRecords(xs)[i] in xs;
    }
    forall p, c | p in g.children && c in g.children[p] ensures c in g.nodes {
      var i :| 0 <= i < |g.children[p]| && g.children[p][i] == c;
      assert ChildRecords(xs, p)[i] in xs;
    }
  }
}
