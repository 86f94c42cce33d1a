/**
 * The admin screen's queries in menu-management.component.ts: the tree
 * filter `filterHierarchical`, the flat filter of `applyFilters`, the
 * next-sequence suggestions and `getParentName`.
 */
module MenuFilter {
  import opened Wrappers
  import opened Text
  import opened Seqs
  import opened MenuTree

  /** The `statusFilter` field: `'all' | 'active' | 'inactive'`. */
  datatype StatusFilter = All | Active | Inactive

  /** The status test both filters share. */
  predicate MatchesStatus(m: MainMenu, status: StatusFilter) {
    || status == All
    || (status == Active && m.isActive)
    || (status == Inactive && !m.isActive)
  }

  /** The search test: the lower-cased term occurs in the lower-cased name or description. */
  predicate MatchesText(m: MainMenu, term: string) {
    || Includes(ToLower(m.name), ToLower(term))
    || Includes(ToLower(m.description.GetOr("")), ToLower(term))
  }

  /** `filterHierarchical`'s own test of a node: the empty term matches everything. */
  predicate DirectMatch(m: MainMenu, term: string, status: StatusFilter) {
    (term == "" || MatchesText(m, term)) && MatchesStatus(m, status)
  }

  /**
   * `filterHierarchical(menus)`: each node is kept, with its children
   * replaced by their filtered list, when it matches itself or some child
   * survives; nodes that are not kept are dropped with their subtrees.
   */
  function FilterHierarchical(menus: seq<MainMenu>, term: string, status: StatusFilter): (r: seq<MainMenu>)
    ensures |r| <= |menus|
    ensures forall t :: t in r ==> Strip(t) in StripAll(menus)
    decreases menus
  {
    if menus == [] then []
    else
      var m := menus[0];
      var kids := FilterHierarchical(m.childMenus, term, status);
      var rest := FilterHierarchical(menus[1..], term, status);
      assert forall t :: t in rest ==> Strip(t) in StripAll(menus) by {
        forall t | t in rest ensures Strip(t) in StripAll(menus) {
          var i :| 0 <= i < |menus[1..]| && StripAll(menus[1..])[i] == Strip(t);
          assert StripAll(menus)[i + 1] == Strip(t);
        }
      }
      assert StripAll(menus)[0] == Strip(m.(childMenus := kids));
      if DirectMatch(m, term, status) || |kids| > 0 then [m.(childMenus := kids)] + rest else rest
  }

  /** Some node of the tree `t` matches. */
  predicate SubtreeMatches(t: MainMenu, term: string, status: StatusFilter) {
    exists n :: n in Flatten([t]) && DirectMatch(n, term, status)
  }

  function SubtreeMatchesFor(term: string, status: StatusFilter): MainMenu -> bool {
    t => SubtreeMatches(t, term, status)
  }

  lemma FlattenOne(t: MainMenu)
    ensures Flatten([t]) == [t] + Flatten(t.childMenus)
  {
    assert [t][1..] == [];
  }

  lemma FlattenCons(ts: seq<MainMenu>)
    requires ts != []
    ensures Flatten(ts) == Flatten([ts[0]]) + Flatten(ts[1..])
  {
    FlattenOne(ts[0]);
  }

  /** The filter returns nothing exactly when no node of the forest matches. */
  lemma {:induction false} FilterEmptyIff(ts: seq<MainMenu>, term: string, status: StatusFilter)
    ensures FilterHierarchical(ts, term, status) == [] <==> forall n :: n in Flatten(ts) ==> !DirectMatch(n, term, status)
    decreases ts
  {
    if ts != [] {
      FilterEmptyIff(ts[0].childMenus, term, status);
      FilterEmptyIff(ts[1..], term, status);
      FlattenCons(ts);
      FlattenOne(ts[0]);
    }
  }

  /** The nodes of a non-empty forest's walk: the first tree's root, its subtree's walk, the rest's walk. */
  lemma FlattenParts(ts: seq<MainMenu>)
    requires ts != []
    ensures forall n :: n in Flatten(ts) <==> n == ts[0] || n in Flatten(ts[0].childMenus) || n in Flatten(ts[1..])
  {
  }

  /** Stripping keeps inclusion between walks. */
  lemma StripAllSub(a: seq<MainMenu>, b: seq<MainMenu>)
    requires forall m :: m in a ==> m in b
    ensures forall x :: x in StripAll(a) ==> x in StripAll(b)
  {
    forall x | x in StripAll(a) ensures x in StripAll(b) {
      var i :| 0 <= i < |a| && StripAll(a)[i] == x;
      StripIn(a[i], b);
    }
  }

  lemma StripIn(m: MainMenu, xs: seq<MainMenu>)
    requires m in xs
    ensures Strip(m) in StripAll(xs)
  {
    var i :| 0 <= i < |xs| && xs[i] == m;
    assert StripAll(xs)[i] == Strip(m);
  }

  /** A tree survives exactly when it matches itself or one of its filtered children survives. */
  lemma KeepIff(t: MainMenu, term: string, status: StatusFilter)
    ensures SubtreeMatches(t, term, status) <==>
      DirectMatch(t, term, status) || |FilterHierarchical(t.childMenus, term, status)| > 0
  {
    FilterEmptyIff(t.childMenus, term, status);
    FlattenOne(t);
    var kids := FilterHierarchical(t.childMenus, term, status);
    if SubtreeMatches(t, term, status) && !DirectMatch(t, term, status) {
      var n :| n in Flatten([t]) && DirectMatch(n, term, status);
      assert n in Flatten(t.childMenus);
    }
    if |kids| > 0 && !DirectMatch(t, term, status) {
      var n :| n in Flatten(t.childMenus) && DirectMatch(n, term, status);
      assert n in Flatten([t]);
    }
  }

  /**
   * The keep rule: the output is, in order, exactly the input trees in
   * which some node matches, each with its fields and its children
   * filtered the same way.
   */
  lemma FilterKeepRule(ts: seq<MainMenu>, term: string, status: StatusFilter)
    ensures var kept := Filter(ts, SubtreeMatchesFor(term, status));
      var r := FilterHierarchical(ts, term, status);
      && |r| == |kept|
      && forall i :: 0 <= i < |r| ==>
           r[i] == kept[i].(childMenus := FilterHierarchical(kept[i].childMenus, term, status))
  {
    KeptLength(ts, term, status);
    forall i | 0 <= i < |FilterHierarchical(ts, term, status)|
      ensures var kept := Filter(ts, SubtreeMatchesFor(term, status));
        FilterHierarchical(ts, term, status)[i] == kept[i].(childMenus := FilterHierarchical(kept[i].childMenus, term, status))
    {
      KeptAt(ts, term, status, i);
    }
  }

  lemma {:induction false} KeptLength(ts: seq<MainMenu>, term: string, status: StatusFilter)
    ensures |FilterHierarchical(ts, term, status)| == |Filter(ts, SubtreeMatchesFor(term, status))|
    decreases ts
  {
    if ts != [] {
      KeptLength(ts[1..], term, status);
      KeepIff(ts[0], term, status);
    }
  }

  lemma {:induction false} KeptAt(ts: seq<MainMenu>, term: string, status: StatusFilter, i: nat)
    requires i < |FilterHierarchical(ts, term, status)|
    ensures var kept := Filter(ts, SubtreeMatchesFor(term, status));
      i < |kept| && FilterHierarchical(ts, term, status)[i] == kept[i].(childMenus := FilterHierarchical(kept[i].childMenus, term, status))
    decreases ts
  {
    KeptLength(ts, term, status);
    var t := ts[0];
    KeepIff(t, term, status);
    var p := SubtreeMatchesFor(term, status);
    var r, rRest := FilterHierarchical(ts, term, status), FilterHierarchical(ts[1..], term, status);
    var kept, keptRest := Filter(ts, p), Filter(ts[1..], p);
    FilterHead(ts, p);
    if p(t) {
      if i > 0 {
        KeptAt(ts[1..], term, status, i - 1);
        assert r[i] == rRest[i - 1] && kept[i] == keptRest[i - 1];
      }
    } else {
      KeptAt(ts[1..], term, status, i);
      assert r == rRest && kept == keptRest;
    }
  }

  /** Every directly matching node survives, with its ancestors around it. */
  lemma {:induction false} MatchesKept(ts: seq<MainMenu>, term: string, status: StatusFilter, n: MainMenu)
    requires n in Flatten(ts) && DirectMatch(n, term, status)
    ensures Strip(n) in StripAll(Flatten(FilterHierarchical(ts, term, status)))
    decreases ts
  {
    var t := ts[0];
    var kids := FilterHierarchical(t.childMenus, term, status);
    var rest := FilterHierarchical(ts[1..], term, status);
    var head := t.(childMenus := kids);
    var out := FilterHierarchical(ts, term, status);
    FlattenParts(ts);
    if n == t {
      assert out == [head] + rest;
      FlattenParts(out);
      StripIn(head, Flatten(out));
    } else if n in Flatten(t.childMenus) {
      MatchesKept(t.childMenus, term, status, n);
      assert kids != [];
      assert out == [head] + rest;
      FlattenParts(out);
      StripAllSub(Flatten(kids), Flatten(out));
    } else {
      MatchesKept(ts[1..], term, status, n);
      if out != rest {
        assert out == [head] + rest;
        FlattenParts(out);
        StripAllSub(Flatten(rest), Flatten(out));
      }
    }
  }

  /** Every surviving node is a match or an ancestor of one. */
  lemma {:induction false} KeptJustified(ts: seq<MainMenu>, term: string, status: StatusFilter)
    ensures forall t :: t in FilterHierarchical(ts, term, status) ==>
      AllNodes(t, SubtreeMatchesFor(term, status))
    decreases ts
  {
    if ts != [] {
      var t := ts[0];
      KeptJustified(t.childMenus, term, status);
      KeptJustified(ts[1..], term, status);
      var kids := FilterHierarchical(t.childMenus, term, status);
      var head := t.(childMenus := kids);
      if DirectMatch(t, term, status) || |kids| > 0 {
        FlattenOne(head);
        if !DirectMatch(t, term, status) {
          var k0 := kids[0];
          assert k0 in kids && SubtreeMatchesFor(term, status)(k0);
          var n :| n in Flatten([k0]) && DirectMatch(n, term, status);
          FlattenCons(kids);
          assert n in Flatten(kids);
          assert n in Flatten([head]);
        } else {
          assert head in Flatten([head]);
        }
      }
    }
  }

  /** Every surviving node carries the fields of a node of the input. */
  lemma {:induction false} KeptFromInput(ts: seq<MainMenu>, term: string, status: StatusFilter)
    ensures forall n :: n in Flatten(FilterHierarchical(ts, term, status)) ==> Strip(n) in StripAll(Flatten(ts))
    decreases ts
  {
    if ts != [] {
      var t := ts[0];
      KeptFromInput(t.childMenus, term, status);
      KeptFromInput(ts[1..], term, status);
      var kids := FilterHierarchical(t.childMenus, term, status);
      var rest := FilterHierarchical(ts[1..], term, status);
      var out := FilterHierarchical(ts, term, status);
      FlattenParts(ts);
      StripAllSub(Flatten(t.childMenus), Flatten(ts));
      StripAllSub(Flatten(ts[1..]), Flatten(ts));
      StripIn(t, Flatten(ts));
      if out != rest {
        var head := t.(childMenus := kids);
        assert out == [head] + rest;
        FlattenParts(out);
        assert Strip(head) == Strip(t);
      }
    }
  }

  /** With the empty term and status `'all'`, the filter returns the forest unchanged. */
  lemma {:induction false} FilterEverything(ts: seq<MainMenu>)
    ensures FilterHierarchical(ts, "", All) == ts
    decreases ts
  {
    if ts != [] {
      FilterEverything(ts[0].childMenus);
      FilterEverything(ts[1..]);
      assert ts == [ts[0]] + ts[1..];
    }
  }

  /** Filtering keeps no more nodes than the forest has. */
  lemma {:induction false} FilterShrinks(ts: seq<MainMenu>, term: string, status: StatusFilter)
    ensures NodeCount(FilterHierarchical(ts, term, status)) <= NodeCount(ts)
    decreases ts
  {
    if ts != [] {
      FilterShrinks(ts[0].childMenus, term, status);
      FilterShrinks(ts[1..], term, status);
      var kids := FilterHierarchical(ts[0].childMenus, term, status);
      var rest := FilterHierarchical(ts[1..], term, status);
      var head := ts[0].(childMenus := kids);
      assert ([head] + rest)[1..] == rest;
    }
  }

  /** `applyFilters`' test of a flat record. */
  predicate FlatMatch(m: MainMenu, term: string, selectedParent: Option<int>, status: StatusFilter) {
    && MatchesText(m, term)
    && (selectedParent.None? || m.parent == selectedParent)
    && MatchesStatus(m, status)
  }

  function FlatMatchFor(term: string, selectedParent: Option<int>, status: StatusFilter): MainMenu -> bool {
    m => FlatMatch(m, term, selectedParent, status)
  }

  /** `this.menus.filter(...)` in `applyFilters`. */
  function FilterFlat(menus: seq<MainMenu>, term: string, selectedParent: Option<int>, status: StatusFilter): (r: seq<MainMenu>)
    ensures |r| <= |menus|
    ensures forall m :: m in r ==> m in menus && FlatMatch(m, term, selectedParent, status)
  {
    Filter(menus, FlatMatchFor(term, selectedParent, status))
  }

  /**
   * The flat filter returns, in order and with their multiplicity,
   * exactly the records passing all three tests.
   */
  lemma FilterFlatMeaning(menus: seq<MainMenu>, term: string, selectedParent: Option<int>, status: StatusFilter)
    ensures IsSubsequence(FilterFlat(menus, term, selectedParent, status), menus)
    ensures forall m :: m in FilterFlat(menus, term, selectedParent, status) <==>
      m in menus && FlatMatch(m, term, selectedParent, status)
    ensures forall m :: m in menus && FlatMatch(m, term, selectedParent, status) ==>
      multiset(FilterFlat(menus, term, selectedParent, status))[m] == multiset(menus)[m]
  {
    var p := FlatMatchFor(term, selectedParent, status);
    FilterMeaning(menus, p);
    forall m | m in menus && FlatMatch(m, term, selectedParent, status)
      ensures m in FilterFlat(menus, term, selectedParent, status)
    {
      FilterKeeps(menus, p, m);
    }
  }

  /** A chosen parent keeps only records whose `parent` is that very number. */
  lemma FilterFlatParent(menus: seq<MainMenu>, term: string, p: int, status: StatusFilter)
    ensures forall m :: m in FilterFlat(menus, term, Some(p), status) ==> m.parent == Some(p)
  {
  }

  /** With the empty term, no parent and status `'all'`, the flat filter returns every record. */
  lemma FilterFlatEverything(menus: seq<MainMenu>)
    ensures FilterFlat(menus, "", None, All) == menus
  {
    forall m | m in menus ensures FlatMatch(m, "", None, All) {
      IncludesEmpty(ToLower(m.name));
    }
    FilterAll(menus, FlatMatchFor("", None, All));
  }

  /** `Math.max(...menus.map(m => m.sequent || 0), 0)`. */
  function MaxSequent(menus: seq<MainMenu>): (r: int)
    ensures r >= 0
    ensures forall m :: m in menus ==> SequentKey(m) <= r
    ensures r == 0 || exists m :: m in menus && SequentKey(m) == r
  {
    if menus == [] then 0
    else
      var rest := MaxSequent(menus[1..]);
      assert forall m :: m in menus[1..] ==> m in menus;
      if SequentKey(menus[0]) > rest then SequentKey(menus[0]) else rest
  }

  /** `getNextSequence`: one more than the largest sequence number in use, and at least 1. */
  function NextSequence(menus: seq<MainMenu>): (r: int)
    ensures r >= 1
    ensures forall m :: m in menus ==> SequentKey(m) < r
    ensures r == 1 || exists m :: m in menus && SequentKey(m) == r - 1
  {
    MaxSequent(menus) + 1
  }

  function HasParent(p: int): MainMenu -> bool {
    (m: MainMenu) => m.parent == Some(p)
  }

  /** `getNextChildSequence(parentId)`: the same over the records whose `parent` is `parentId`. */
  function NextChildSequence(menus: seq<MainMenu>, parentId: int): (r: int)
    ensures r >= 1
    ensures forall m :: m in menus && m.parent == Some(parentId) ==> SequentKey(m) < r
    ensures r == 1 || exists m :: m in menus && m.parent == Some(parentId) && SequentKey(m) == r - 1
  {
    var siblings := Filter(menus, HasParent(parentId));
    forall m | m in menus && m.parent == Some(parentId) ensures m in siblings {
      FilterKeeps(menus, HasParent(parentId), m);
    }
    NextSequence(siblings)
  }

  /**
   * `getParentName(parentId)`: `'Root'` for a null or zero id, otherwise
   * the name of the first record with that id, or `'Unknown'`.
   */
  function ParentName(menus: seq<MainMenu>, parentId: Option<int>): (r: string)
    ensures IsRootParent(parentId) ==> r == "Root"
    ensures !IsRootParent(parentId) && (forall m :: m in menus ==> m.id != parentId.value) ==> r == "Unknown"
    ensures !IsRootParent(parentId) && (exists m :: m in menus && m.id == parentId.value) ==>
      exists i :: 0 <= i < |menus| && menus[i].id == parentId.value && r == menus[i].name
        && forall j :: 0 <= j < i ==> menus[j].id != parentId.value
  {
    if IsRootParent(parentId) then "Root"
    else
      match Find(menus, (m: MainMenu) => m.id == parentId.value)
      case None => "Unknown"
      case Some(m) => m.name
  }
}
