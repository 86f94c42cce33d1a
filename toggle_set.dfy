/**
 * The expansion sets both menu trees keep: `expandedNodes` on the admin
 * screen and `expandedItems` in the sidebar, each a `Set<number>` whose
 * toggle deletes a present id and adds an absent one.
 */
module ToggleSet {

  /** `has(id) ? delete(id) : add(id)`. */
  function Toggle(s: set<int>, id: int): (r: set<int>)
    ensures id in r <==> id !in s
    ensures forall x :: x != id ==> (x in r <==> x in s)
  {
    if id in s then s - {id} else s + {id}
  }

  /** Toggling twice restores the set. */
  lemma ToggleTwice(s: set<int>, id: int)
    ensures Toggle(Toggle(s, id), id) == s
  {
    var t := Toggle(Toggle(s, id), id);
    assert forall x :: x in t <==> x in s;
  }

  /** Toggles of different ids do not interfere. */
  lemma ToggleCommutes(s: set<int>, a: int, b: int)
    ensures Toggle(Toggle(s, a), b) == Toggle(Toggle(s, b), a)
  {
    var l, r := Toggle(Toggle(s, a), b), Toggle(Toggle(s, b), a);
    assert forall x :: x in l <==> x in r;
  }
}
