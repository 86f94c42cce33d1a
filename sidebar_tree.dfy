/**
 * The sidebar's menu record (`MenuItem` / `TreeNode`), the recursive tree
 * builder `findMenu` and the pre-order walk inside `updateCurrentMenuName`
 * (main-layout.component.ts).
 */
module SidebarTree {
  import opened Wrappers
  import opened Seqs
  import opened Text

  /** A sidebar record; `children` is `Children`, absent counting as empty. */
  datatype MenuItem = MenuItem(
    id: int,
    parent: int,
    name: string,
    description: Option<string>,
    isActive: int,
    link: Option<string>,
    sequent: int,
    image: Option<string>,
    doMain: string,
    children: seq<MenuItem>)

  /** The record's own fields, children left out. */
  function Bare(m: MenuItem): MenuItem {
    m.(children := [])
  }

  function BareAll(ms: seq<MenuItem>): (r: seq<MenuItem>)
    ensures |r| == |ms| && forall i :: 0 <= i < |ms| ==> r[i] == Bare(ms[i])
  {
    seq(|ms|, i requires 0 <= i < |ms| => Bare(ms[i]))
  }

  /** `a => a.Parent === parent`. */
  function ParentIs(parent: int): MenuItem -> bool {
    (m: MenuItem) => m.parent == parent
  }

  /**
   * `rank` strictly grows from every record whose parent is ranked to that
   * parent id. Ranking the start id then ranks everything `findMenu`
   * descends to, so the descent never comes back: the condition under which
   * `findMenu` stops. Records outside the ranked part, such as a cycle not
   * hanging under the start id, are not constrained.
   */
  predicate Layered(menu: seq<MenuItem>, rank: map<int, nat>) {
    forall x :: x in menu && x.parent in rank ==> x.id in rank && rank[x.id] < rank[x.parent]
  }

  /**
   * `findMenu(parent)`: the records whose `Parent` is `parent`, in input
   * order, each carrying `findMenu(Id)` as its children.
   */
  function FindMenu(menu: seq<MenuItem>, parent: int, ghost rank: map<int, nat>): (r: seq<MenuItem>)
    requires Layered(menu, rank) && parent in rank
    ensures BareAll(r) == BareAll(Filter(menu, ParentIs(parent)))
    decreases rank[parent]
  {
    var tmp := Filter(menu, ParentIs(parent));
    assert forall x :: x in tmp ==> x.id in rank && rank[x.id] < rank[parent];
    seq(|tmp|, i requires 0 <= i < |tmp| => tmp[i].(children := FindMenu(menu, tmp[i].id, rank)))
  }

  /** A bare record with the given id and parent, for the examples below. */
  function Record(id: int, parent: int): MenuItem {
    MenuItem(id, parent, "", None, 1, None, 0, None, "", [])
  }

  /**
   * A parent cycle that hangs under no ranked id, and a record that is its
   * own parent, leave `findMenu(0)` alone: it still returns just record 1.
   */
  lemma CutOffCycleIgnored()
    ensures var menu := [Record(1, 0), Record(2, 3), Record(3, 2), Record(5, 5)];
      var rank := map[0 := 1, 1 := 0];
      && Layered(menu, rank)
      && FindMenu(menu, 0, rank) == [Record(1, 0)]
  {
    var menu := [Record(1, 0), Record(2, 3), Record(3, 2), Record(5, 5)];
    var rank := map[0 := 1, 1 := 0];
    assert Filter(menu[3..], ParentIs(1)) == [] && Filter(menu[3..], ParentIs(0)) == [];
    assert Filter(menu[2..], ParentIs(1)) == [] && Filter(menu[2..], ParentIs(0)) == [];
    assert Filter(menu[1..], ParentIs(1)) == [] && Filter(menu[1..], ParentIs(0)) == [];
    assert Filter(menu, ParentIs(1)) == [] && Filter(menu, ParentIs(0)) == [Record(1, 0)];
    assert FindMenu(menu, 1, rank) == [];
  }

  /** The pre-order walk: each node, then its subtree, then the next sibling. */
  function FlattenItems(ts: seq<MenuItem>): (r: seq<MenuItem>)
    ensures |ts| <= |r|
    ensures ts != [] ==> r[0] == ts[0]
    decreases ts
  {
    if ts == [] then [] else [ts[0]] + FlattenItems(ts[0].children) + FlattenItems(ts[1..])
  }

  lemma {:induction false} FlattenItemsConcat(a: seq<MenuItem>, b: seq<MenuItem>)
    ensures FlattenItems(a + b) == FlattenItems(a) + FlattenItems(b)
    decreases a
  {
    if a == [] {
      assert a + b == b;
    } else {
      assert (a + b)[0] == a[0] && (a + b)[1..] == a[1..] + b;
      FlattenItemsConcat(a[1..], b);
    }
  }

  /** Appending one node to a forest appends it and then its subtree's walk. */
  lemma FlattenItemsSnoc(ts: seq<MenuItem>, t: MenuItem)
    ensures FlattenItems(ts + [t]) == FlattenItems(ts) + [t] + FlattenItems(t.children)
  {
    FlattenItemsConcat(ts, [t]);
    assert FlattenItems([t]) == [t] + FlattenItems(t.children) + FlattenItems([]);
  }

  /** A node of the walk is a top-level node or a node of one top-level node's walk. */
  lemma {:induction false} FlattenItemsMember(ts: seq<MenuItem>, n: MenuItem)
    ensures n in FlattenItems(ts) <==> exists i :: 0 <= i < |ts| && (ts[i] == n || n in FlattenItems(ts[i].children))
    decreases ts
  {
    if ts != [] {
      FlattenItemsMember(ts[1..], n);
      if n in FlattenItems(ts[1..]) {
        var i :| 0 <= i < |ts[1..]| && (ts[1..][i] == n || n in FlattenItems(ts[1..][i].children));
        assert ts[i + 1] == ts[1..][i];
      }
      if exists i :: 0 <= i < |ts| && (ts[i] == n || n in FlattenItems(ts[i].children)) {
        var i :| 0 <= i < |ts| && (ts[i] == n || n in FlattenItems(ts[i].children));
        if i > 0 {
          assert ts[1..][i - 1] == ts[i];
        }
      }
    }
  }

  /** The top-level node under which a node of the walk sits. */
  lemma TopOf(ts: seq<MenuItem>, n: MenuItem) returns (i: nat)
    requires n in FlattenItems(ts)
    ensures i < |ts| && (ts[i] == n || n in FlattenItems(ts[i].children))
  {
    FlattenItemsMember(ts, n);
    i :| 0 <= i < |ts| && (ts[i] == n || n in FlattenItems(ts[i].children));
  }

  /**
   * `c` is a chain of records from `menu` hanging under `p`: the first has
   * parent `p` and each next one has the previous one as parent.
   */
  predicate IsChain(menu: seq<MenuItem>, p: int, c: seq<MenuItem>) {
    && c != []
    && (forall i :: 0 <= i < |c| ==> c[i] in menu)
    && c[0].parent == p
    && forall i :: 0 < i < |c| ==> c[i].parent == c[i - 1].id
  }

  /** The `i`-th node of `findMenu(p)` is the `i`-th record with parent `p`, given its own subtree. */
  lemma FindMenuAt(menu: seq<MenuItem>, rank: map<int, nat>, p: int, i: nat)
    requires Layered(menu, rank) && p in rank && i < |FindMenu(menu, p, rank)|
    ensures var e := Filter(menu, ParentIs(p))[i];
      && i < |Filter(menu, ParentIs(p))| && e in menu && e.parent == p && e.id in rank && rank[e.id] < rank[p]
      && FindMenu(menu, p, rank)[i] == e.(children := FindMenu(menu, e.id, rank))
  {
    var tmp := Filter(menu, ParentIs(p));
    assert tmp[i] in tmp;
  }

  /** A chain under `e.id` extended by `e`, which hangs under `p`, is a chain under `p`. */
  lemma ChainCons(menu: seq<MenuItem>, p: int, e: MenuItem, c: seq<MenuItem>)
    requires e in menu && e.parent == p && IsChain(menu, e.id, c)
    ensures IsChain(menu, p, [e] + c) && ([e] + c)[|c|] == c[|c| - 1]
  {
    var d := [e] + c;
    assert forall i :: 0 < i < |d| ==> d[i] == c[i - 1];
  }

  /** Every node of `findMenu(p)`, at any depth, ends a chain of records under `p`. */
  lemma {:induction false} FindMenuSound(menu: seq<MenuItem>, rank: map<int, nat>, p: int, n: MenuItem) returns (c: seq<MenuItem>)
    requires Layered(menu, rank) && p in rank
    requires n in FlattenItems(FindMenu(menu, p, rank))
    ensures IsChain(menu, p, c) && Bare(c[|c| - 1]) == Bare(n)
    decreases rank[p]
  {
    var ts := FindMenu(menu, p, rank);
    var i := TopOf(ts, n);
    FindMenuAt(menu, rank, p, i);
    var e := Filter(menu, ParentIs(p))[i];
    if ts[i] == n {
      c := [e];
    } else {
      var c' := FindMenuSound(menu, rank, e.id, n);
      ChainCons(menu, p, e, c');
      c := [e] + c';
    }
  }

  /** Every node of `findMenu(p)`, at any depth, has `findMenu` of its own id as its children. */
  lemma {:induction false} FindMenuChildren(menu: seq<MenuItem>, rank: map<int, nat>, p: int, n: MenuItem)
    requires Layered(menu, rank) && p in rank
    requires n in FlattenItems(FindMenu(menu, p, rank))
    ensures n.id in rank && n.children == FindMenu(menu, n.id, rank)
    decreases rank[p]
  {
    var ts := FindMenu(menu, p, rank);
    var i := TopOf(ts, n);
    FindMenuAt(menu, rank, p, i);
    if ts[i] != n {
      FindMenuChildren(menu, rank, Filter(menu, ParentIs(p))[i].id, n);
    }
  }

  /** The last record of every chain under `p` is in the walk of `findMenu(p)`, with its subtree. */
  lemma {:induction false} FindMenuComplete(menu: seq<MenuItem>, rank: map<int, nat>, p: int, c: seq<MenuItem>)
    requires Layered(menu, rank) && p in rank && IsChain(menu, p, c)
    ensures c[|c| - 1].id in rank
    ensures c[|c| - 1].(children := FindMenu(menu, c[|c| - 1].id, rank)) in FlattenItems(FindMenu(menu, p, rank))
    decreases |c|
  {
    var ts := FindMenu(menu, p, rank);
    var e := c[0];
    assert e in menu;
    var t := e.(children := FindMenu(menu, e.id, rank));
    FindMenuHas(menu, rank, p, e);
    if |c| == 1 {
      FlattenItemsTop(ts, t);
    } else {
      var c' := c[1..];
      ChainTail(menu, p, c);
      FindMenuComplete(menu, rank, e.id, c');
      assert c'[|c'| - 1] == c[|c| - 1];
      FlattenItemsDeep(ts, t, c[|c| - 1].(children := FindMenu(menu, c[|c| - 1].id, rank)));
    }
  }

  /** A chain under `p` longer than one record is, without its first, a chain under that first's id. */
  lemma ChainTail(menu: seq<MenuItem>, p: int, c: seq<MenuItem>)
    requires IsChain(menu, p, c) && |c| > 1
    ensures IsChain(menu, c[0].id, c[1..])
  {
    var c' := c[1..];
    assert forall i :: 0 <= i < |c'| ==> c'[i] == c[i + 1];
  }

  /** Every record with parent `p` occurs in `findMenu(p)`, given its own subtree. */
  lemma FindMenuHas(menu: seq<MenuItem>, rank: map<int, nat>, p: int, e: MenuItem)
    requires Layered(menu, rank) && p in rank && e in menu && e.parent == p
    ensures e.id in rank && e.(children := FindMenu(menu, e.id, rank)) in FindMenu(menu, p, rank)
  {
    var tmp := Filter(menu, ParentIs(p));
    FilterKeeps(menu, ParentIs(p), e);
    var i :| 0 <= i < |tmp| && tmp[i] == e;
    assert FindMenu(menu, p, rank)[i] == e.(children := FindMenu(menu, e.id, rank));
  }

  lemma FlattenItemsTop(ts: seq<MenuItem>, t: MenuItem)
    requires t in ts
    ensures t in FlattenItems(ts)
  {
    var i :| 0 <= i < |ts| && ts[i] == t;
    FlattenItemsMember(ts, t);
  }

  lemma FlattenItemsDeep(ts: seq<MenuItem>, t: MenuItem, n: MenuItem)
    requires t in ts && n in FlattenItems(t.children)
    ensures n in FlattenItems(ts)
  {
    var i :| 0 <= i < |ts| && ts[i] == t;
    FlattenItemsMember(ts, n);
  }

  /**
   * A record whose parent is neither `p` nor the id of any record never
   * appears under `findMenu(p)`: orphans are dropped.
   */
  lemma FindMenuDropsOrphans(menu: seq<MenuItem>, rank: map<int, nat>, p: int, x: MenuItem)
    requires Layered(menu, rank) && p in rank
    requires x.parent != p && forall y :: y in menu ==> y.id != x.parent
    ensures forall n :: n in FlattenItems(FindMenu(menu, p, rank)) ==> Bare(n) != Bare(x)
  {
    forall n | n in FlattenItems(FindMenu(menu, p, rank)) ensures Bare(n) != Bare(x) {
      var c := FindMenuSound(menu, rank, p, n);
      if |c| > 1 {
        assert c[|c| - 2] in menu;
      }
    }
  }

  /**
   * The inner `flatten(nodes)`: a loop that pushes each node and then
   * concatenates the walk of its children.
   */
  method FlattenTree(nodes: seq<MenuItem>) returns (arr: seq<MenuItem>)
    ensures arr == FlattenItems(nodes)
    decreases nodes
  {
    arr := [];
    for i := 0 to |nodes|
      invariant arr == FlattenItems(nodes[..i])
    {
      var node := nodes[i];
      arr := arr + [node];
      if |node.children| > 0 {
        var sub := FlattenTree(node.children);
        arr := arr + sub;
      } else {
        assert FlattenItems(node.children) == [];
      }
      assert nodes[..i + 1] == nodes[..i] + [node];
      FlattenItemsSnoc(nodes[..i], node);
    }
    assert nodes[..|nodes|] == nodes;
  }

  /** `m => m.Link && currentUrl.startsWith(m.Link)`. */
  function LinkMatches(url: string): MenuItem -> bool {
    (m: MenuItem) => m.link.Some? && m.link.value != "" && StartsWith(url, m.link.value)
  }

  /**
   * The `currentMenuName` picked from a walk: the name of the first node
   * whose non-empty link is a prefix of `url`, or `null` when none is.
   */
  function MenuNameFor(nodes: seq<MenuItem>, url: string): (r: Option<string>)
    ensures r.None? <==> forall i :: 0 <= i < |nodes| ==> !LinkMatches(url)(nodes[i])
    ensures r.Some? ==> exists i :: (0 <= i < |nodes| && LinkMatches(url)(nodes[i]) && nodes[i].name == r.value
      && forall j :: 0 <= j < i ==> !LinkMatches(url)(nodes[j]))
  {
    match Find(nodes, LinkMatches(url))
    case None => None
    case Some(m) => Some(m.name)
  }
}
