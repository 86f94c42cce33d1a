/**
 * The admin screen's menu record (`MainMenuDto`) and the depth-first
 * pre-order walk `flattenHierarchy` in menu-management.component.ts.
 */
module MenuTree {
  import opened Wrappers
  import opened Seqs

  /**
   * A menu record. Flat records carry no children; tree-shaped ones carry
   * them in `childMenus`. An absent `childMenus` is the empty sequence.
   */
  datatype MainMenu = MainMenu(
    id: int,
    parent: Option<int>,
    name: string,
    description: Option<string>,
    isActive: bool,
    link: Option<string>,
    sequent: Option<int>,
    image: Option<string>,
    doMain: Option<string>,
    childMenus: seq<MainMenu>)

  /** `!menu.parent || menu.parent === 0`: a null, absent or zero parent makes a root. */
  predicate IsRootParent(parent: Option<int>) {
    parent.None? || parent.value == 0
  }

  /** `menu.sequent || 0`: the sort key, a missing sequence number counting as 0. */
  function SequentKey(m: MainMenu): int {
    m.sequent.GetOr(0)
  }

  /** The record without its children. */
  function Strip(m: MainMenu): MainMenu {
    m.(childMenus := [])
  }

  function StripAll(ms: seq<MainMenu>): (r: seq<MainMenu>)
    ensures |r| == |ms| && forall i :: 0 <= i < |ms| ==> r[i] == Strip(ms[i])
  {
    seq(|ms|, i requires 0 <= i < |ms| => Strip(ms[i]))
  }

  function IdsOf(ms: seq<MainMenu>): (r: seq<int>)
    ensures |r| == |ms| && forall i :: 0 <= i < |ms| ==> r[i] == ms[i].id
  {
    seq(|ms|, i requires 0 <= i < |ms| => ms[i].id)
  }

  /** Depth-first pre-order: each node, then its subtree, then the next sibling. */
  function Flatten(ts: seq<MainMenu>): (r: seq<MainMenu>)
    ensures |ts| <= |r|
    ensures ts != [] ==> r[0] == ts[0]
    decreases ts
  {
    if ts == [] then [] else [ts[0]] + Flatten(ts[0].childMenus) + Flatten(ts[1..])
  }

  /** The number of nodes in a forest. */
  function NodeCount(ts: seq<MainMenu>): nat
    decreases ts
  {
    if ts == [] then 0 else 1 + NodeCount(ts[0].childMenus) + NodeCount(ts[1..])
  }

  /** `n` is a node somewhere in the forest `ts`. */
  predicate InForest(n: MainMenu, ts: seq<MainMenu>)
    decreases ts
  {
    exists i :: 0 <= i < |ts| && (ts[i] == n || InForest(n, ts[i].childMenus))
  }

  lemma {:induction false} FlattenConcat(a: seq<MainMenu>, b: seq<MainMenu>)
    ensures Flatten(a + b) == Flatten(a) + Flatten(b)
    decreases a
  {
    if a == [] {
      assert a + b == b;
    } else {
      assert (a + b)[0] == a[0] && (a + b)[1..] == a[1..] + b;
      FlattenConcat(a[1..], b);
    }
  }

  /** Appending one tree to a forest appends its root and then its subtree's walk. */
  lemma FlattenSnoc(ts: seq<MainMenu>, t: MainMenu)
    ensures Flatten(ts + [t]) == Flatten(ts) + [t] + Flatten(t.childMenus)
  {
    FlattenConcat(ts, [t]);
    assert Flatten([t]) == [t] + Flatten(t.childMenus) + Flatten([]);
  }

  /**
   * Pre-order: the node at position `i` of a forest is emitted after the
   * subtrees of its earlier siblings, followed at once by its own subtree,
   * and then by the subtrees of its later siblings.
   */
  lemma FlattenAt(ts: seq<MainMenu>, i: nat)
    requires i < |ts|
    ensures Flatten(ts) == Flatten(ts[..i]) + [ts[i]] + Flatten(ts[i].childMenus) + Flatten(ts[i + 1..])
  {
    var back := ts[i..];
    assert ts == ts[..i] + back;
    FlattenConcat(ts[..i], back);
    assert back[0] == ts[i] && back[1..] == ts[i + 1..];
    assert Flatten(back) == [ts[i]] + Flatten(ts[i].childMenus) + Flatten(ts[i + 1..]);
    RegroupFront(Flatten(ts[..i]), ts[i], Flatten(ts[i].childMenus), Flatten(ts[i + 1..]));
  }

  /** Every node is emitted exactly once: the walk is as long as the forest is large. */
  lemma {:induction false} FlattenLength(ts: seq<MainMenu>)
    ensures |Flatten(ts)| == NodeCount(ts)
    decreases ts
  {
    if ts != [] {
      FlattenLength(ts[0].childMenus);
      FlattenLength(ts[1..]);
    }
  }

  /** The walk emits the nodes of the forest and nothing else. */
  lemma {:induction false} FlattenNodes(ts: seq<MainMenu>, n: MainMenu)
    ensures n in Flatten(ts) <==> InForest(n, ts)
    decreases ts
  {
    if ts != [] {
      FlattenNodes(ts[0].childMenus, n);
      FlattenNodes(ts[1..], n);
      if InForest(n, ts[1..]) {
        var i :| 0 <= i < |ts[1..]| && (ts[1..][i] == n || InForest(n, ts[1..][i].childMenus));
        assert ts[i + 1] == ts[1..][i];
      }
      if InForest(n, ts) {
        var i :| 0 <= i < |ts| && (ts[i] == n || InForest(n, ts[i].childMenus));
        if i > 0 {
          assert ts[1..][i - 1] == ts[i];
        }
      }
    }
  }

  /**
   * Every emitted node is followed at once by its own subtree: its
   * descendants come after it, and before anything outside its subtree.
   */
  lemma FlattenSubtreeFollows(ts: seq<MainMenu>, j: nat)
    requires j < |Flatten(ts)|
    ensures var n := Flatten(ts)[j]; var sub := Flatten(n.childMenus);
      j + 1 + |sub| <= |Flatten(ts)| && Flatten(ts)[j + 1..j + 1 + |sub|] == sub
  {
    var n := Flatten(ts)[j];
    var pre, post := FlattenSplit(ts, j);
    var sub := Flatten(n.childMenus);
    SliceLeft(pre + [n] + sub, post, j + 1, j + 1 + |sub|);
    SliceRight(pre + [n], sub, 0, |sub|);
  }

  /** The walk around its `j`-th node: what comes before, the node, its subtree's walk, what comes after. */
  lemma {:induction false} FlattenSplit(ts: seq<MainMenu>, j: nat) returns (pre: seq<MainMenu>, post: seq<MainMenu>)
    requires j < |Flatten(ts)|
    ensures |pre| == j
    ensures Flatten(ts) == pre + [Flatten(ts)[j]] + Flatten(Flatten(ts)[j].childMenus) + post
    decreases ts
  {
    var t := ts[0];
    var a, b := Flatten(t.childMenus), Flatten(ts[1..]);
    var f := Flatten(ts);
    assert f == [t] + a + b;
    if j == 0 {
      pre, post := [], b;
    } else if j <= |a| {
      var p, q := FlattenSplit(t.childMenus, j - 1);
      var n := a[j - 1];
      assert f[j] == n;
      pre, post := [t] + p, q + b;
      Regroup([t], p, n, Flatten(n.childMenus), q, b);
    } else {
      var k := j - 1 - |a|;
      var p, q := FlattenSplit(ts[1..], k);
      var n := b[k];
      assert f[j] == n;
      pre, post := [t] + a + p, q + [];
      Regroup([t] + a, p, n, Flatten(n.childMenus), q, []);
    }
  }

  /** Every emitted node is a top-level node or a child of a node emitted earlier. */
  lemma {:induction false} FlattenChildAfterParent(ts: seq<MainMenu>, j: nat)
    requires j < |Flatten(ts)|
    ensures Flatten(ts)[j] in ts || exists i :: 0 <= i < j && Flatten(ts)[j] in Flatten(ts)[i].childMenus
    decreases ts
  {
    var a, b := Flatten(ts[0].childMenus), Flatten(ts[1..]);
    var f := Flatten(ts);
    assert f == [ts[0]] + a + b;
    if j == 0 {
    } else if j <= |a| {
      FlattenChildAfterParent(ts[0].childMenus, j - 1);
      assert f[j] == a[j - 1];
      if a[j - 1] !in ts[0].childMenus {
        var i :| 0 <= i < j - 1 && a[j - 1] in a[i].childMenus;
        assert f[i + 1] == a[i];
      } else {
        assert f[0] == ts[0];
      }
    } else {
      var k := j - 1 - |a|;
      FlattenChildAfterParent(ts[1..], k);
      assert f[j] == b[k];
      if b[k] !in ts[1..] {
        var i :| 0 <= i < k && b[k] in b[i].childMenus;
        assert f[i + 1 + |a|] == b[i];
      }
    }
  }

  /** Each child of every node in the tree names that node as its parent. */
  predicate LinkedTree(t: MainMenu)
    decreases t
  {
    forall c :: c in t.childMenus ==> !IsRootParent(c.parent) && c.parent.value == t.id && LinkedTree(c)
  }

  /** The nodes of a forest of linked trees are linked trees themselves. */
  lemma {:induction false} FlattenLinked(ts: seq<MainMenu>)
    requires forall t :: t in ts ==> LinkedTree(t)
    ensures forall n :: n in Flatten(ts) ==> LinkedTree(n)
    decreases ts
  {
    if ts != [] {
      assert ts[0] in ts;
      FlattenLinked(ts[0].childMenus);
      FlattenLinked(ts[1..]);
    }
  }

  /** `P` holds at every node of the tree `t`. */
  predicate AllNodes(t: MainMenu, P: MainMenu -> bool)
    decreases t
  {
    P(t) && forall c :: c in t.childMenus ==> AllNodes(c, P)
  }

  /** A property of every node of every tree holds of every node the walk emits. */
  lemma {:induction false} FlattenAllNodes(ts: seq<MainMenu>, P: MainMenu -> bool)
    requires forall t :: t in ts ==> AllNodes(t, P)
    ensures forall n :: n in Flatten(ts) ==> P(n)
    decreases ts
  {
    if ts != [] {
      assert ts[0] in ts;
      FlattenAllNodes(ts[0].childMenus, P);
      FlattenAllNodes(ts[1..], P);
    }
  }

  /**
   * In the walk of a forest of linked trees whose top-level nodes are roots,
   * every non-root node comes after a node carrying its parent's id.
   */
  lemma ParentsFirst(ts: seq<MainMenu>)
    requires forall t :: t in ts ==> IsRootParent(t.parent) && LinkedTree(t)
    ensures forall j :: 0 <= j < |Flatten(ts)| && !IsRootParent(Flatten(ts)[j].parent) ==>
      exists i :: 0 <= i < j && Flatten(ts)[i].id == Flatten(ts)[j].parent.value
  {
    FlattenLinked(ts);
    forall j | 0 <= j < |Flatten(ts)| && !IsRootParent(Flatten(ts)[j].parent)
      ensures exists i :: 0 <= i < j && Flatten(ts)[i].id == Flatten(ts)[j].parent.value
    {
      FlattenChildAfterParent(ts, j);
      var i :| 0 <= i < j && Flatten(ts)[j] in Flatten(ts)[i].childMenus;
      assert LinkedTree(Flatten(ts)[i]);
    }
  }

  /**
   * `flattenHierarchy`: a recursive walk that pushes every node onto one
   * accumulator, node first and then its children.
   */
  method FlattenHierarchy(hierarchicalMenus: seq<MainMenu>) returns (flattened: seq<MainMenu>)
    ensures flattened == Flatten(hierarchicalMenus)
  {
    flattened := FlattenInto([], hierarchicalMenus);
  }

  /** The inner `flatten(menus)`: appends the walk of `menus` to `acc`. */
  method FlattenInto(acc: seq<MainMenu>, menus: seq<MainMenu>) returns (flattened: seq<MainMenu>)
    ensures flattened == acc + Flatten(menus)
    decreases menus
  {
    flattened := acc;
    for i := 0 to |menus|
      invariant flattened == acc + Flatten(menus[..i])
    {
      var menu := menus[i];
      flattened := flattened + [menu];
      if |menu.childMenus| > 0 {
        flattened := FlattenInto(flattened, menu.childMenus);
      } else {
        assert Flatten(menu.childMenus) == [];
      }
      assert menus[..i + 1] == menus[..i] + [menu];
      FlattenSnoc(menus[..i], menu);
      RegroupBack(acc, Flatten(menus[..i]), menu, Flatten(menu.childMenus));
    }
    assert menus[..|menus|] == menus;
  }
}
