# WMS frontend menus, search panel and document screens in Dafny

This project models the logic of the Angular warehouse-management frontend. It covers six parts:

- **Admin menu screen** (`MenuManagementComponent`). It loads the menu records either as a tree from the hierarchical API or as a flat list from the fallback API. A flat list is sorted by `sequent` and rebuilt into a tree with `buildHierarchyFromFlat`. A tree is walked back into a flat list with `flattenHierarchy`. The screen filters the flat list for its table and the tree for its tree view. It suggests the next sequence number for a new record, names parents, and keeps a set of expanded nodes.
- **Sidebar layout** (`MainLayoutComponent`). It builds the sidebar tree with the recursive `findMenu(0)`. It derives the route flags and the section menu from the url, and finds the current menu name by walking the tree. It derives the user's display name and role from the token's claims, and keeps its own set of expanded items.
- **Search panel** (`SearchCenterComponent`). It holds the filter record. It turns filled-in filters into one criteria record, emits the filters and that record to the parent, passes on a selected record, and can clear or toggle the filters.
- **Mock search service** (`SearchService.getMockResults`). It is a conjunction of text, exact and date-range tests over four sample receiving documents.
- **Outbound list** (`OutboundListComponent`). It picks the list to display, selects an order into the header, edits the header's line items in a dialog, and sums quantities and values.
- **Inbound import** (`ImportComponent`). It covers choosing a file definition, the drop zone, the upload progress ticks, the uploaded-file list, the preview counts, and starting or cancelling an import.

Each module follows one source file, or one concern of a large source file:

| module | file | covers |
|---|---|---|
| `MenuTree` | `menu_tree.dfy` | the record `MainMenuDto` and the pre-order walk |
| `MenuBuild` | `menu_build.dfy` | the two passes of `buildHierarchyFromFlat`, as a graph of copies |
| `MenuHierarchy` | `menu_hierarchy.dfy` | what the built tree contains |
| `MenuSort` | `menu_sort.dfy` | the sort of the fallback list |
| `MenuFilter` | `menu_filter.dfy` | the two filters and the form helpers |
| `MenuManagement` | `menu_management.dfy` | the screen's state as a class |
| `SidebarTree` | `sidebar_tree.dfy` | `findMenu` and the name lookup |
| `UserInfo` | `user_info.dfy` | the token claims |
| `MainLayout` | `main_layout.dfy` | the layout state |
| `SearchCenter` | `search_center.dfy` | the search panel |
| `SearchService` | `search_service.dfy` | the mock search |
| `OutboundList` | `outbound_list.dfy` | the outbound list |
| `InboundImport` | `inbound_import.dfy` | the inbound import |

Shared pieces live in `Seqs` (JavaScript's `filter`, `find` and `splice`), `Text` (`toLowerCase`, `includes`, `trim`, `join`), `ToggleSet` (the expansion sets) and `Wrappers` (`Option`).

How the model stands in for the source:

- **Screen state.** Each component whose fields are updated in place is a class whose methods update those fields. Their `ensures` state the new state.
- **Pure computations.** Functions model them. Lemmas state what they mean: the pre-order walk visits every node once; the built tree holds every record whose parent chain ends at a root, exactly once; the sort is stable and a permutation; the tree filter keeps exactly the matching nodes and their ancestors.
- **The sort** works in place on an `array`, as `Array.prototype.sort` does. It is proved equal to the insertion order that `SortBySequent` defines.
- **`buildHierarchyFromFlat`** builds an object graph: a map from id to copy, with children pushed onto the copies. It is a method with two loops whose result is that graph. The nested value a tree walk sees is an unfolding of the graph, which terminates only when the parent links are acyclic.
- **Acyclicity.** The unfolding and `findMenu` both take a ghost `rank` map. It shows that no parent cycle is reachable from where the walk starts. The source itself would recurse forever on such a cycle. A cycle that hangs under no root is allowed.

## Model

| member | source | states |
|---|---|---|
| MenuTree.FlattenHierarchy | src/app/admin/menu-management/menu-management.component.ts:343-357 | The returned list is the depth-first pre-order walk `Flatten` of the tree. |
| MenuTree.Flatten | src/app/admin/menu-management/menu-management.component.ts:343-357 | The walk is at least as long as the forest, and starts with its first tree. |
| MenuTree.FlattenInto | src/app/admin/menu-management/menu-management.component.ts:346-353 | The inner `flatten` appends the walk of `menus` to what was pushed before. |
| MenuTree.FlattenLength | src/app/admin/menu-management/menu-management.component.ts:343-357 | The walk is exactly as long as the forest has nodes: each node is emitted once. |
| MenuTree.FlattenNodes | src/app/admin/menu-management/menu-management.component.ts:343-357 | A record is in the walk if and only if it is a node of the forest. |
| MenuTree.FlattenAt | src/app/admin/menu-management/menu-management.component.ts:347-352 | The walk of a forest is the walk of the trees before `i`, then tree `i`, its subtree's walk, and the walk of the rest. |
| MenuTree.FlattenSubtreeFollows | src/app/admin/menu-management/menu-management.component.ts:347-352 | Right after each emitted node comes the walk of its own subtree, contiguously. |
| MenuTree.FlattenChildAfterParent | src/app/admin/menu-management/menu-management.component.ts:347-352 | Every emitted node is a top-level node or a child of a node emitted earlier. |
| MenuTree.ParentsFirst | src/app/admin/menu-management/menu-management.component.ts:343-357 | In a walk of linked root trees, the parent of every non-root node is emitted before it. |
| MenuTree.FlattenLinked | src/app/admin/menu-management/menu-management.component.ts:347-352 | Nodes of a walk over linked trees are themselves linked trees. |
| MenuTree.FlattenAllNodes | src/app/admin/menu-management/menu-management.component.ts:347-352 | A property of every node of every tree holds of every node of the walk. |
| MenuTree.FlattenConcat | src/app/admin/menu-management/menu-management.component.ts:347-352 | The walk of two forests side by side is the two walks one after the other. |
| MenuBuild.BuildHierarchyFromFlat | src/app/admin/menu-management/menu-management.component.ts:359-383 | The two passes produce one copy per id without children (the last record with that id wins, as with `Map.set`), each copy's children are the ids of the records naming it as parent in input order, and the roots are the root records' ids in input order. |
| MenuBuild.HierarchyGraph | src/app/admin/menu-management/menu-management.component.ts:359-383 | The graph has one copy and one child list per input id, and its roots are the root records' ids in input order. |
| MenuBuild.LastWithId | src/app/admin/menu-management/menu-management.component.ts:364-366 | The record `menuMap.get(id)` was copied from has that id and is from the input; with unique ids it is the only such record. |
| MenuBuild.CopiesOf | src/app/admin/menu-management/menu-management.component.ts:364-366 | The first pass makes a copy for exactly the ids of the input, each the childless copy of the last record with that id. |
| MenuBuild.ChildLists | src/app/admin/menu-management/menu-management.component.ts:369-380 | The second pass gives every copy the ids of the records naming it as parent, in input order. |
| MenuBuild.GraphWellFormed | src/app/admin/menu-management/menu-management.component.ts:369-380 | Every root and every child id the graph holds has a copy. |
| MenuBuild.AcyclicRanked | src/app/admin/menu-management/menu-management.component.ts:369-380 | When the roots are ranked and every record with a ranked parent ranks below it, every root is ranked and every child ranks strictly below its ranked parent copy, so the unfolding terminates. Records that hang under no root are not constrained. |
| MenuBuild.Tree | src/app/admin/menu-management/menu-management.component.ts:364-380 | The nested value of a copy has the copy's own fields and one child per pushed id. |
| MenuBuild.Forest | src/app/admin/menu-management/menu-management.component.ts:369-383 | The nested values of a list of copies, one per id, in order. |
| MenuBuild.TreeChildren | src/app/admin/menu-management/menu-management.component.ts:377 | A copy's children are the nested values of its pushed child ids. |
| MenuBuild.BuildForest | src/app/admin/menu-management/menu-management.component.ts:359-383 | The returned list has one tree per root record, in input order, each with that record's id; it needs only a rank from the roots down. |
| MenuBuild.CutOffInputRanked | src/app/admin/menu-management/menu-management.component.ts:359-383 | An input with a parent cycle cut off from the roots and a record that is its own parent has a rank from the roots down, but no rank over every record. |
| MenuBuild.CutOffCycleBuilt | src/app/admin/menu-management/menu-management.component.ts:359-383 | For that input the built list is the root record alone: the cycle and the self-parented record are never walked. |
| MenuHierarchy.ChildMember | src/app/admin/menu-management/menu-management.component.ts:369-380 | With unique ids, `c` is pushed under `a` if and only if the record with id `c` has a non-zero parent equal to `a`. |
| MenuHierarchy.RootMember | src/app/admin/menu-management/menu-management.component.ts:371-372 | With unique ids, `r` is a root of the result if and only if the record with id `r` has a null, absent or zero parent. |
| MenuHierarchy.TreeCount | src/app/admin/menu-management/menu-management.component.ts:369-380 | The subtree of copy `a` holds id `k` exactly once when `k`'s parent chain reaches `a`, and not at all otherwise. |
| MenuHierarchy.ForestCount | src/app/admin/menu-management/menu-management.component.ts:369-380 | A list of distinct copies, at most one of which lies on `k`'s chain, holds `k` once if one does and never otherwise. |
| MenuHierarchy.BuiltCount | src/app/admin/menu-management/menu-management.component.ts:359-383 | With unique ids on acyclic input, the walk of the built tree holds each id exactly once if its parent chain ends at a root, and never otherwise. |
| MenuHierarchy.RoundTripIds | src/app/admin/menu-management/menu-management.component.ts:359-383 | When every parent is present, the walk of the built tree holds the same ids as the input, with the same multiplicity. |
| MenuHierarchy.OrphanDropped | src/app/admin/menu-management/menu-management.component.ts:374-378 | A record naming a parent id missing from the input is neither a root nor anywhere in the built tree. |
| MenuHierarchy.AllRooted | src/app/admin/menu-management/menu-management.component.ts:369-380 | When every parent is present, every record's parent chain ends at a root record. |
| MenuHierarchy.BuiltRoots | src/app/admin/menu-management/menu-management.component.ts:369-383 | The built list's own fields are those of the root records, in input order. |
| MenuHierarchy.BuiltRootTrees | src/app/admin/menu-management/menu-management.component.ts:359-383 | Each built tree is a root, every node carries an input record's fields, and every child names its parent node. |
| MenuHierarchy.BuiltNodes | src/app/admin/menu-management/menu-management.component.ts:359-383 | Every node of the built tree's walk is the copy of an input record whose children are the copies of that record's child records, in input order, and every non-root node is emitted after its parent. |
| MenuHierarchy.KidAt | src/app/admin/menu-management/menu-management.component.ts:377 | The `j`-th child pushed under `a` is the copy of the `j`-th record naming `a` as its parent. |
| MenuHierarchy.SiblingsExclusive | src/app/admin/menu-management/menu-management.component.ts:374-378 | At most one child of a copy lies on a given record's parent chain. |
| MenuHierarchy.RootsExclusive | src/app/admin/menu-management/menu-management.component.ts:371-372 | At most one root lies on a given record's parent chain. |
| MenuHierarchy.FilterUniqueIds | src/app/admin/menu-management/menu-management.component.ts:369-380 | Taking records in order from a list with unique ids, such as one parent's children, gives distinct ids. |
| MenuSort.SortMenus | src/app/admin/menu-management/menu-management.component.ts:83 | The in-place sort leaves the array equal to `SortBySequent` of its old contents. |
| MenuSort.SortBySequent | src/app/admin/menu-management/menu-management.component.ts:83 | The sorted list is as long as the input. |
| MenuSort.InsertInPlace | src/app/admin/menu-management/menu-management.component.ts:83 | One step moves `a[i]` behind the last element of the sorted prefix whose key is not larger, and leaves the rest of the array alone. |
| MenuSort.ShiftLarger | src/app/admin/menu-management/menu-management.component.ts:83 | The elements of the prefix with a larger key move one place right; those before the gap are untouched. |
| MenuSort.SortSorted | src/app/admin/menu-management/menu-management.component.ts:83 | The sorted list is ascending by `sequent || 0`. |
| MenuSort.SortPermutation | src/app/admin/menu-management/menu-management.component.ts:83 | The sorted list is a permutation of the input. |
| MenuSort.SortStable | src/app/admin/menu-management/menu-management.component.ts:83 | Records with equal keys keep their input order, as the comparator sort guarantees. |
| MenuSort.InsertStable | src/app/admin/menu-management/menu-management.component.ts:83 | One insertion puts the record behind every record of its key and moves no record of any other key. |
| MenuSort.SortUnique | src/app/admin/menu-management/menu-management.component.ts:83 | Sorting keeps ids unique. |
| MenuSort.SortAcyclic | src/app/admin/menu-management/menu-management.component.ts:83-84 | Sorting keeps the input acyclic under the same rank. |
| MenuSort.BuiltSiblingsOrdered | src/app/admin/menu-management/menu-management.component.ts:83-84 | Built from a sorted list with unique ids, the roots and every node's children are ascending by `sequent`. |
| MenuSort.FallbackSiblingsOrdered | src/app/admin/menu-management/menu-management.component.ts:83-84 | The fallback tree, built from the sorted list, has ascending roots and children. |
| MenuFilter.FilterEmptyIff | src/app/admin/menu-management/menu-management.component.ts:123-148 | The tree filter returns nothing if and only if no node of the forest matches. |
| MenuFilter.FilterHierarchical | src/app/admin/menu-management/menu-management.component.ts:123-148 | The result has at most as many top-level trees as the input, and each is one of the input trees with its own fields. |
| MenuFilter.KeepIff | src/app/admin/menu-management/menu-management.component.ts:134-138 | A tree survives if and only if it matches itself or one of its filtered children survives. |
| MenuFilter.FilterKeepRule | src/app/admin/menu-management/menu-management.component.ts:123-148 | The result has one node per surviving top-level tree, in order; each keeps its own fields and gets its filtered children. |
| MenuFilter.MatchesKept | src/app/admin/menu-management/menu-management.component.ts:123-148 | Every node that matches the search and the status survives, at whatever depth. |
| MenuFilter.KeptJustified | src/app/admin/menu-management/menu-management.component.ts:136-147 | In every surviving tree, each node matches or has a matching node beneath it. |
| MenuFilter.KeptFromInput | src/app/admin/menu-management/menu-management.component.ts:141-144 | Every surviving node carries the fields of a node of the input. |
| MenuFilter.FilterEverything | src/app/admin/menu-management/menu-management.component.ts:125-131 | With the empty term and status `'all'`, the tree filter returns the forest unchanged. |
| MenuFilter.FilterShrinks | src/app/admin/menu-management/menu-management.component.ts:123-148 | The tree filter keeps no more nodes than the forest has. |
| MenuFilter.FilterFlatMeaning | src/app/admin/menu-management/menu-management.component.ts:106-117 | The table filter keeps exactly the records that pass all three tests, in input order, with their multiplicity. |
| MenuFilter.FilterFlat | src/app/admin/menu-management/menu-management.component.ts:106-117 | The table filter is no longer than the list, and every kept record is from the list and passes all three tests. |
| MenuFilter.FilterFlatParent | src/app/admin/menu-management/menu-management.component.ts:110 | With a parent chosen, only records whose `parent` is exactly that number remain. |
| MenuFilter.FilterFlatEverything | src/app/admin/menu-management/menu-management.component.ts:106-117 | With the empty term, no parent and status `'all'`, every record remains. |
| MenuFilter.MaxSequent | src/app/admin/menu-management/menu-management.component.ts:310 | The maximum of the `sequent || 0` values and 0: it bounds them all and is 0 or one of them. |
| MenuFilter.NextSequence | src/app/admin/menu-management/menu-management.component.ts:309-312 | The suggested number is at least 1, above every sequence in use, and one more than a sequence in use unless it is 1. |
| MenuFilter.NextChildSequence | src/app/admin/menu-management/menu-management.component.ts:314-318 | The same as `NextSequence`, over the records whose parent is `parentId`. |
| MenuFilter.ParentName | src/app/admin/menu-management/menu-management.component.ts:327-331 | `'Root'` for a falsy id; the name of the first record with that id; `'Unknown'` when there is none. |
| MenuManagement.TopIds | src/app/admin/menu-management/menu-management.component.ts:404-407 | Exactly the ids of the top-level menus. |
| MenuManagement.FallbackTree | src/app/admin/menu-management/menu-management.component.ts:83-84 | The fallback tree is the tree built from the sorted list, for any input with a rank from the roots down; with unique ids and no cycle anywhere its siblings are ascending. |
| MenuManagement.MenuManagementScreen.constructor | src/app/admin/menu-management/menu-management.component.ts:15-37 | The field initialisers: empty lists, no filters, tree view, nothing expanded. |
| MenuManagement.MenuManagementScreen.ApplyFilters | src/app/admin/menu-management/menu-management.component.ts:104-121 | Both results are recomputed from the loaded lists and the current term, parent and status. |
| MenuManagement.MenuManagementScreen.OnSearchChange | src/app/admin/menu-management/menu-management.component.ts:150-152 | With the new term set, both results are refiltered. |
| MenuManagement.MenuManagementScreen.OnParentFilterChange | src/app/admin/menu-management/menu-management.component.ts:154-156 | With the new parent set, both results are refiltered. |
| MenuManagement.MenuManagementScreen.OnStatusFilterChange | src/app/admin/menu-management/menu-management.component.ts:158-160 | With the new status set, both results are refiltered. |
| MenuManagement.MenuManagementScreen.StartLoading | src/app/admin/menu-management/menu-management.component.ts:60-61 | Loading starts and the error message is cleared. |
| MenuManagement.MenuManagementScreen.OnLoadFailed | src/app/admin/menu-management/menu-management.component.ts:94-98 | When both requests fail, the error is reported with its message and loading ends. |
| MenuManagement.MenuManagementScreen.Loaded | src/app/admin/menu-management/menu-management.component.ts:67-76 | The shared tail of both success handlers: lists stored, root records as parent choices, filters applied, loading over, message shown, nodes collapsed. |
| MenuManagement.MenuManagementScreen.Finished | src/app/admin/menu-management/menu-management.component.ts:72-76 | Loading ends, the message is shown and every node is collapsed. |
| MenuManagement.MenuManagementScreen.OnHierarchicalLoaded | src/app/admin/menu-management/menu-management.component.ts:65-77 | The flat list is the walk of the loaded tree, and the parent choices are its root records. |
| MenuManagement.MenuManagementScreen.OnFlatLoaded | src/app/admin/menu-management/menu-management.component.ts:82-93 | The array is sorted in place and becomes the flat list; the tree is built from it, for any input with a rank from the roots down, with siblings ascending when ids are unique and no cycle exists; the table, filters and messages follow. |
| MenuManagement.MenuManagementScreen.ShowCreateForm | src/app/admin/menu-management/menu-management.component.ts:162-179 | The form opens for a new root record with parent 0 and the next free sequence number. |
| MenuManagement.MenuManagementScreen.ShowCreateChildForm | src/app/admin/menu-management/menu-management.component.ts:181-201 | The form opens for a child of `parentMenu` with its next child sequence, and the parent is expanded. |
| MenuManagement.MenuManagementScreen.ToggleDisplayMode | src/app/admin/menu-management/menu-management.component.ts:386-388 | Table and tree view swap. |
| MenuManagement.MenuManagementScreen.ToggleNode | src/app/admin/menu-management/menu-management.component.ts:390-396 | Membership of `nodeId` flips and nothing else in the set changes. |
| MenuManagement.MenuManagementScreen.IsNodeExpanded | src/app/admin/menu-management/menu-management.component.ts:398-400 | True exactly when the id is in the set. |
| MenuManagement.MenuManagementScreen.ExpandAllNodes | src/app/admin/menu-management/menu-management.component.ts:402-409 | Adds the ids of the top-level menus, and only those. |
| MenuManagement.MenuManagementScreen.CollapseAllNodes | src/app/admin/menu-management/menu-management.component.ts:411-413 | The set becomes empty. |
| ToggleSet.Toggle | src/app/admin/menu-management/menu-management.component.ts:391-395 | `id` is in the result exactly when it was not before; every other id is unchanged. |
| ToggleSet.ToggleTwice | src/app/layout/main-layout.component.ts:187-194 | Toggling the same id twice restores the set. |
| ToggleSet.ToggleCommutes | src/app/layout/main-layout.component.ts:187-194 | Toggles of two ids can be done in either order. |
| SidebarTree.FindMenu | src/app/layout/main-layout.component.ts:200-213 | `findMenu(p)` holds the records with parent `p`, in order, each with its own fields. It needs a rank only for what hangs under `p`, so cycles elsewhere are allowed. |
| SidebarTree.FindMenuAt | src/app/layout/main-layout.component.ts:204-210 | Node `i` is the `i`-th record with parent `p`, with `findMenu` of its own id as `Children`. |
| SidebarTree.FindMenuSound | src/app/layout/main-layout.component.ts:200-213 | Every node at any depth ends a chain of records leading down from `p`. |
| SidebarTree.FindMenuComplete | src/app/layout/main-layout.component.ts:200-213 | The last record of every chain leading down from `p` appears in the tree, with its own subtree. |
| SidebarTree.FindMenuChildren | src/app/layout/main-layout.component.ts:205-208 | Every node at any depth has `findMenu` of its own id as its children. |
| SidebarTree.FindMenuDropsOrphans | src/app/layout/main-layout.component.ts:201 | A record whose parent is neither `p` nor any record's id appears nowhere in the tree. |
| SidebarTree.CutOffCycleIgnored | src/app/layout/main-layout.component.ts:200-213 | A parent cycle not under the start id, and a record that is its own parent, leave `findMenu(0)` returning just the top record. |
| SidebarTree.FlattenTree | src/app/layout/main-layout.component.ts:84-94 | The inner `flatten` returns the pre-order walk of the tree. |
| SidebarTree.FlattenItems | src/app/layout/main-layout.component.ts:84-93 | The walk is at least as long as the forest, and starts with its first node. |
| SidebarTree.FlattenItemsMember | src/app/layout/main-layout.component.ts:84-93 | A node is in the walk exactly when it is a top-level node or in one top-level node's walk. |
| SidebarTree.MenuNameFor | src/app/layout/main-layout.component.ts:96-97 | The name of the first node whose link is set and prefixes the url, or `null` when no node's does. |
| MainLayout.FirstMatchNotLongest | src/app/layout/main-layout.component.ts:96 | A parent with link `/inbound`, walked before its child `/inbound/receive`, names the page even on the child's url. |
| MainLayout.SectionId | src/app/layout/main-layout.component.ts:166-176 | Section 4 for `/inbound` urls, 5 for `/outbound` urls, none otherwise. |
| MainLayout.ShowMenuFor | src/app/layout/main-layout.component.ts:166-176 | Nothing outside both sections; every item shown is a top-level item with the section's id. |
| MainLayout.ShowMenuMeaning | src/app/layout/main-layout.component.ts:166-176 | `showMenu` keeps tree order and holds exactly the top-level items with the section's id, or nothing outside both sections. |
| MainLayout.MainLayoutScreen.constructor | src/app/layout/main-layout.component.ts:19-40 | The field initialisers. |
| MainLayout.MainLayoutScreen.ToggleSidebar | src/app/layout/main-layout.component.ts:21-23 | The sidebar flag flips. |
| MainLayout.MainLayoutScreen.CheckCurrentRoute | src/app/layout/main-layout.component.ts:150-163 | The dashboard flag holds for `/` and `/dashboard`; the section flags hold for urls starting `/inbound` and `/outbound`. |
| MainLayout.MainLayoutScreen.UpdateShowMenuBasedOnRoute | src/app/layout/main-layout.component.ts:166-176 | `showMenu` becomes the section's top-level items. |
| MainLayout.MainLayoutScreen.UpdateCurrentMenuName | src/app/layout/main-layout.component.ts:82-98 | The current name is looked up over the walk of the whole tree. |
| MainLayout.MainLayoutScreen.InitializeUserInfo | src/app/layout/main-layout.component.ts:100-148 | With an authenticated token, the name and role are derived from its claims; without one nothing changes. |
| MainLayout.MainLayoutScreen.Init | src/app/layout/main-layout.component.ts:44-63 | The router's url is kept, the flags follow it, and the user info is read. |
| MainLayout.MainLayoutScreen.OnMenuLoaded | src/app/layout/main-layout.component.ts:66-77 | The records are kept, the tree is `findMenu(0)` for any data ranked from 0 down (cycles not under 0 are allowed), and the section menu and name follow the current url. |
| MainLayout.MainLayoutScreen.OnNavigationEnd | src/app/layout/main-layout.component.ts:52-60 | The url and flags follow the navigation; the section menu is refreshed only when a tree exists; the name follows the new url. |
| MainLayout.MainLayoutScreen.BackToMainMenu | src/app/layout/main-layout.component.ts:182-185 | Every submenu closes. |
| MainLayout.MainLayoutScreen.ToggleExpanded | src/app/layout/main-layout.component.ts:187-194 | Membership of the id flips and nothing else changes. |
| MainLayout.MainLayoutScreen.IsExpanded | src/app/layout/main-layout.component.ts:196-198 | True exactly when the id is expanded. |
| UserInfo.FullName | src/app/layout/main-layout.component.ts:105-107 | `given family` when both are truthy, else a truthy `name`, else a truthy `preferred_username`; null exactly when all three fallbacks fail; never the empty string. |
| UserInfo.Concat | src/app/layout/main-layout.component.ts:115-117 | The flattened client roles hold exactly the roles of some client. |
| UserInfo.MappedRoles | src/app/layout/main-layout.component.ts:110-119 | The realm roles come first, then the client roles, with nothing else: the length is the two lengths added; a role is mapped exactly when it is in one of them. |
| UserInfo.UserRole | src/app/layout/main-layout.component.ts:116-148 | With custom roles, exactly those roles capitalised and joined with `, `, realm roles before client roles; with none, the first group without its leading slash, else the first `roles` entry, else a truthy `role`, else null. |
| UserInfo.CustomRoleShown | src/app/layout/main-layout.component.ts:122-135 | Every mapped role outside the ignore-list appears, capitalised, in the displayed role. |
| UserInfo.GroupFallback | src/app/layout/main-layout.component.ts:136-138 | With no custom role, the first group names the role, minus one leading slash. |
| UserInfo.RoleNullIff | src/app/layout/main-layout.component.ts:132-145 | The role is null exactly when there is no custom role, no group, no `roles` entry and no truthy `role`. |
| UserInfo.StripLeadingSlash | src/app/layout/main-layout.component.ts:138 | At most one leading `/` is removed. |
| SearchCenter.InitialFilters | src/app/main/component-center/search-center/search-center.component.ts:221-236 | The eleven named keys start as `''`, and every default overrides its key. |
| SearchCenter.HasFiltersIff | src/app/main/component-center/search-center/search-center.component.ts:393-395 | True exactly when some value has a character that is not white space. |
| SearchCenter.InitialHasNoFilters | src/app/main/component-center/search-center/search-center.component.ts:221-236 | With blank defaults, the freshly initialised filters have no filters. |
| SearchCenter.HasFilters | src/app/main/component-center/search-center/search-center.component.ts:393-395 | True exactly when some value is not blank after `trim`. |
| SearchCenter.Criteria | src/app/main/component-center/search-center/search-center.component.ts:344-360 | The criteria take vendor, status, type and `dateFrom` with `''` as default, zero counts, and `poNumber`/`receiveNumber` only when those filters are non-empty. |
| SearchCenter.ValueOf | src/app/main/component-center/search-center/search-center.component.ts:346-349 | `filters.k \|\| ''`. |
| SearchCenter.Given | src/app/main/component-center/search-center/search-center.component.ts:355-360 | A filter counts as given exactly when it is present and non-empty. |
| SearchCenter.SearchCenterPanel.constructor | src/app/main/component-center/search-center/search-center.component.ts:197-200 | Empty filters and results, no output sent, not searching, advanced filters hidden. |
| SearchCenter.SearchCenterPanel.NgOnInit | src/app/main/component-center/search-center/search-center.component.ts:206-211 | The filters are initialised only when a config is given. |
| SearchCenter.SearchCenterPanel.ClearFilters | src/app/main/component-center/search-center/search-center.component.ts:310-316 | The filters are reinitialised when configured; the results empty; `[]` is sent on `searchResults` as the one new output. |
| SearchCenter.SearchCenterPanel.ToggleAdvancedFilters | src/app/main/component-center/search-center/search-center.component.ts:321-323 | The flag flips, so two toggles restore it. |
| SearchCenter.SearchCenterPanel.SelectResult | src/app/main/component-center/search-center/search-center.component.ts:303-305 | The record is sent on `searchResult` as the one new output. |
| SearchCenter.SearchCenterPanel.SearchData | src/app/main/component-center/search-center/search-center.component.ts:340-367 | Exactly one criteria record is kept; the new outputs are the filters on `filtersChanged`, then that record on `searchResults`, in this order; searching has ended. |
| SearchCenter.SearchCenterPanel.OnFilterChange | src/app/main/component-center/search-center/search-center.component.ts:377-385 | With some filter filled it searches and sends the filters, then the criteria; otherwise the results empty and `[]` is the one new output. |
| SearchCenter.SearchCenterPanel.SetFilter | src/app/main/component-center/search-center/search-center.component.ts:197 | A bound control sets one key of the filters. |
| SearchService.MockResultsMeaning | src/app/service/search.service.ts:68-92 | The mock search keeps, in order, exactly the sample records that pass every criterion. |
| SearchService.GetMockResults | src/app/service/search.service.ts:68-92 | The results are sample records that pass every criterion, no more of them than the sample holds. |
| SearchService.NoCriteriaAll | src/app/service/search.service.ts:68-92 | With every criterion empty or absent, all four records come back. |
| SearchService.TextIgnoresCase | src/app/service/search.service.ts:69-80 | A text term and its lower-case form find the same records. |
| SearchService.MoreCriteriaFewerResults | src/app/service/search.service.ts:68-92 | Filling in one more criterion never brings back a record that was left out. |
| SearchService.PendingOnly | src/app/service/search.service.ts:20-92 | Status is an exact match: `Pending` keeps the second and fourth sample records. |
| OutboundList.Displayed | src/app/main/outbound/outbound-list/outbound-list.component.ts:22-24 | The filtered list when it has rows, else the original one. |
| OutboundList.SumsAppend | src/app/main/outbound/outbound-list/outbound-list.component.ts:178-186 | The totals of two lists of lines add up. |
| OutboundList.SumsReplace | src/app/main/outbound/outbound-list/outbound-list.component.ts:152-186 | Replacing a line changes the totals by exactly the difference of the two lines' shares. |
| OutboundList.SumsRemove | src/app/main/outbound/outbound-list/outbound-list.component.ts:171-186 | Splicing a line out lowers the totals by exactly its share. |
| OutboundList.SaveItemEffect | src/app/main/outbound/outbound-list/outbound-list.component.ts:152-163 | Saving an edit keeps the length and every other line, and both totals move by the new line's share minus the old one's; saving a new line adds it at the end and adds its share to both totals. |
| OutboundList.RemoveItemEffect | src/app/main/outbound/outbound-list/outbound-list.component.ts:171-175 | Removing line `i` drops exactly it, shifts the later lines left, and lowers the totals by its share. |
| OutboundList.EmptyTotals | src/app/main/outbound/outbound-list/outbound-list.component.ts:178-186 | Both totals are 0 without lines. |
| OutboundList.TotalQuantity | src/app/main/outbound/outbound-list/outbound-list.component.ts:178-181 | 0 without lines; otherwise the first line's `qty` plus the sum of the rest, the same as the left-to-right `reduce`. |
| OutboundList.TotalValue | src/app/main/outbound/outbound-list/outbound-list.component.ts:183-186 | 0 without lines; otherwise the first line's `qty * price` plus the sum of the rest. |
| OutboundList.OutboundListScreen.constructor | src/app/main/outbound/outbound-list/outbound-list.component.ts:26-96 | The two sample orders, nothing filtered or selected, both dialogs closed, a blank item. |
| OutboundList.OutboundListScreen.HandleSearchResults | src/app/main/outbound/outbound-list/outbound-list.component.ts:117-120 | The filtered list is replaced wholesale; an empty one shows the original list again. |
| OutboundList.OutboundListScreen.HandleSearchResult | src/app/main/outbound/outbound-list/outbound-list.component.ts:103-110 | The filtered list empties, so the original list shows. |
| OutboundList.OutboundListScreen.Select | src/app/main/outbound/outbound-list/outbound-list.component.ts:122-126 | The order is shown and its details become the header. |
| OutboundList.OutboundListScreen.OpenHeaderModal | src/app/main/outbound/outbound-list/outbound-list.component.ts:128-130 | The header dialog opens. |
| OutboundList.OutboundListScreen.CloseHeaderModal | src/app/main/outbound/outbound-list/outbound-list.component.ts:132-134 | The header dialog closes. |
| OutboundList.OutboundListScreen.AddItem | src/app/main/outbound/outbound-list/outbound-list.component.ts:140-144 | The line dialog opens on a blank item for appending. |
| OutboundList.OutboundListScreen.EditItem | src/app/main/outbound/outbound-list/outbound-list.component.ts:146-150 | The line dialog opens on a copy of line `index`. |
| OutboundList.OutboundListScreen.SaveItem | src/app/main/outbound/outbound-list/outbound-list.component.ts:152-163 | A missing list becomes `[]`; the item replaces the edited line or is appended; the dialog closes and resets. |
| OutboundList.OutboundListScreen.CloseItemModal | src/app/main/outbound/outbound-list/outbound-list.component.ts:165-169 | The dialog closes and forgets the item and the index. |
| OutboundList.OutboundListScreen.RemoveItem | src/app/main/outbound/outbound-list/outbound-list.component.ts:171-175 | `splice(index, 1)` on the lines when there are any. |
| InboundImport.CountsBounded | src/app/main/inbound/import/import.component.ts:70-76 | The valid and error counts together never exceed the rows. |
| InboundImport.ValidRecords | src/app/main/inbound/import/import.component.ts:69-71 | At most the number of rows, and 0 exactly when no row is `Valid`. |
| InboundImport.ErrorRecords | src/app/main/inbound/import/import.component.ts:73-75 | At most the number of rows, and 0 exactly when no row is an `Error`. |
| InboundImport.MockPreviewCounts | src/app/main/inbound/import/import.component.ts:229-267 | The mock preview has two valid rows and no error rows. |
| InboundImport.SelectedDefinition | src/app/main/inbound/import/import.component.ts:131-133 | A definition with the selected id, or none exactly when no definition has that id. |
| InboundImport.DefinitionIdsDistinct | src/app/main/inbound/import/import.component.ts:79-119 | The four offered definitions have distinct ids. |
| InboundImport.DefinitionPicked | src/app/main/inbound/import/import.component.ts:79-133 | Each offered id selects its own definition. |
| InboundImport.SelectedUnique | src/app/main/inbound/import/import.component.ts:131-133 | Among definitions with distinct ids, each id selects its own definition. |
| InboundImport.KiloBytes | src/app/main/inbound/import/import.component.ts:217 | `Math.round(size / 1024)`: the nearest kilobyte, with halves rounded up. |
| InboundImport.NewEntries | src/app/main/inbound/import/import.component.ts:213-221 | One uploaded entry per file: its name, its size in kilobytes, its record count and `'success'`. |
| InboundImport.RemoveFileOne | src/app/main/inbound/import/import.component.ts:284-291 | Removing an existing file removes exactly that one entry. |
| InboundImport.ImportScreen.constructor | src/app/main/inbound/import/import.component.ts:46-68 | Nothing uploaded, chosen or previewed, no interval running; the four definitions offered. |
| InboundImport.ImportScreen.OnDefinitionChange | src/app/main/inbound/import/import.component.ts:121-129 | The new definition is kept, and the files, the preview and the messages are cleared. |
| InboundImport.ImportScreen.GetSelectedDefinitionDetails | src/app/main/inbound/import/import.component.ts:131-133 | The offered definition with the selected id, if any. |
| InboundImport.ImportScreen.OnFileSelected | src/app/main/inbound/import/import.component.ts:148-170 | Without a definition or without files nothing starts; otherwise the upload starts at 0 and an interval holding those files is added. |
| InboundImport.ImportScreen.OnDragOver | src/app/main/inbound/import/import.component.ts:173-180 | The drop zone lights up only once a definition is chosen. |
| InboundImport.ImportScreen.OnDragLeave | src/app/main/inbound/import/import.component.ts:182-185 | The highlight goes off. |
| InboundImport.ImportScreen.OnDrop | src/app/main/inbound/import/import.component.ts:187-199 | The highlight goes off, and with a definition the files go through file selection, starting an interval that holds them. |
| InboundImport.ImportScreen.ProgressTick | src/app/main/inbound/import/import.component.ts:201-227 | A tick of running interval `k` adds 10. On reaching 100 that interval is cleared, the upload ends, one entry per file the interval holds is appended in order, and the mock preview is shown; before that nothing else changes. |
| InboundImport.ImportScreen.GenerateMockPreviewData | src/app/main/inbound/import/import.component.ts:229-267 | Three rows, one warning, no errors; two valid and no error rows. |
| InboundImport.ImportScreen.RemoveFile | src/app/main/inbound/import/import.component.ts:284-291 | `splice(index, 1)` on the files; the preview and messages clear only once no file is left. |
| InboundImport.ImportScreen.ImportData | src/app/main/inbound/import/import.component.ts:305-314 | Processing starts only when no preview row is an error. |
| InboundImport.ImportScreen.ImportFinished | src/app/main/inbound/import/import.component.ts:309-312 | When the import's timeout fires, processing ends. |
| InboundImport.ImportScreen.Cancel | src/app/main/inbound/import/import.component.ts:316-324 | Every list empties, the upload flag clears and its progress resets; running intervals are left alone, so they go on ticking from 0 and still append their files. |
| Seqs.Filter | src/app/admin/menu-management/menu-management.component.ts:106 | `filter` keeps only elements that satisfy the test, and is no longer than its input. |
| Seqs.FilterMeaning | src/app/admin/menu-management/menu-management.component.ts:106 | `filter` keeps order, and each element's multiplicity when it passes; it drops every element that fails. |
| Seqs.Find | src/app/admin/menu-management/menu-management.component.ts:329 | `find` gives the first element that passes, or nothing exactly when none does. |
| Seqs.SpliceOne | src/app/main/outbound/outbound-list/outbound-list.component.ts:173 | `splice(start, 1)` removes the element at the normalised start index, if there is one. |
| Seqs.SpliceStart | src/app/main/outbound/outbound-list/outbound-list.component.ts:173 | `splice`'s start index: negative values count from the end, and out-of-range values are clamped. |
| Text.TrimEmptyIffBlank | src/app/main/component-center/search-center/search-center.component.ts:394 | `trim()` leaves the empty string exactly when every character is white space. |
| Text.JoinIncludesPart | src/app/layout/main-layout.component.ts:133-135 | Each joined part occurs in the joined string. |
| Text.Join | src/app/layout/main-layout.component.ts:133-135 | The empty list joins to `""` and one part to itself; the first part is a prefix; the length is the parts' lengths plus one separator per gap. |
| Text.JoinCons | src/app/layout/main-layout.component.ts:133-135 | With two or more parts, the join is the first part, the separator, then the join of the rest. |
| Text.Capitalise | src/app/layout/main-layout.component.ts:134 | The first character is upper-cased and the rest is kept. |
| Text.LowerIdempotent | src/app/service/search.service.ts:69-74 | Lower-casing twice is lower-casing once. |

## Left out

- HTTP calls, observables and subscriptions are not modelled. Each response handler is a method called with the response's data.
- `saveMenu`, `deleteMenu` and `editMenu` are not modelled. They are form submission and HTTP, with `confirm`.
- `hideForm`, the form validators, `markFormGroupTouched` and `getFieldError` are not modelled. They are Angular form plumbing. The values a form is reset to are modelled as `formDefaults`.
- `clearMessages` is a 3-second `setTimeout` and is not modelled.
- The upload's `setInterval` is modelled one tick at a time, by `ProgressTick` on one of the running intervals in `timers`. How the ticks of several intervals interleave is up to the caller. The import's 2-second timeout is `ImportFinished`.
- `Math.random` in `processFiles` is not modelled. The record counts are a parameter, each between 1 and 100.
- `console` output, `alert` in the import screen, router navigation calls and `logout` are not modelled. They are side effects outside the state.
- Keycloak, the auth service, the guard and the router event stream are not modelled. `InitializeUserInfo` takes the parsed token, or none when no session is authenticated. `OnNavigationEnd` takes the url of a `NavigationEnd` event.
- `search-config.service.ts` and the search panel's getters are not modelled. The getters are `enabledFields`, `statusOptions`, `typeOptions`, `vendorOptions` and `placeholders`, and they only read that service's configuration.
- The outbound screen's `handleFiltersChanged` and `saveHeader`, and the import screen's `downloadDefinitionTemplate`, `showDefinitionRequiredMessage`, `downloadTemplate`, `showHelp`, `editData`, `confirmData` and `previewBeforeSave`, are not modelled. They only log or alert.
- The outbound import screen and the other context files are not part of this model.
- Case mapping covers ASCII letters only, while JavaScript maps all of Unicode. The sample data's Thai text has no case.
- `new Date(...)` comparisons in the mock search are modelled as lexicographic comparison of ISO `yyyy-mm-dd` strings, which orders such dates the same way.
- Quantities and prices are whole numbers, not floating point.
- Search filter values other than strings are not modelled.
- The field `type` of a search record is called `kind`, because `type` is a Dafny keyword.
- OutboundList.OutboundListScreen.EditItem: requires an index within the line list. JavaScript would copy `undefined` out of range.
- OutboundList.OutboundListScreen.SaveItem: requires the edit index to be below the list's length. JavaScript would leave a hole beyond the end.
- The header's `items`, which are the same array object as the selected order's `details.items`, are not modelled as shared. The model copies the list, so editing lines does not change the order in the list.
- `handleSearchResults(results: any[])` is modelled as taking outbound orders. The search panel actually emits a list holding one criteria record (`SearchResult`), not orders. At run time the outbound table would then show that criteria record as its only row. The model cannot express that, because its list holds only orders.
- A client in `resource_access` without a `roles` list is not modelled. JavaScript's `flat` would keep an `undefined` entry.
- MenuBuild.BuildForest, MenuManagement.FallbackTree, MenuManagement.MenuManagementScreen.OnFlatLoaded, SidebarTree.FindMenu and MainLayout.MainLayoutScreen.OnMenuLoaded: take a ghost rank that must hold only for what hangs under the roots (or under the start id 0 for `findMenu`). A parent cycle that hangs under no root, or a record that is its own parent, is allowed, as `CutOffCycleBuilt` and `CutOffCycleIgnored` show. Only a cycle reachable from the roots is excluded. On such a cycle the source's `findMenu` recurses forever, and the nested value a walk of the built graph would see does not exist.
- MenuHierarchy.BuiltCount, MenuHierarchy.RoundTripIds, MenuHierarchy.BuiltNodes and the other lemmas about the built tree, and the sibling order in MenuSort.FallbackSiblingsOrdered: assume `Acyclic`, a rank over every record, for ease of proof. They say nothing about input that also holds a cycle cut off from the roots.
- The admin parent filter compares `menu.parent === selectedParent`, so a record with a null parent does not match a chosen parent 0. This is modelled as written.
- No lemma relates `findMenu` to `buildHierarchyFromFlat`. The two work on different record types, and they disagree on which records are roots: `findMenu(0)` takes parent exactly 0, while `buildHierarchyFromFlat` also takes null parents. Both drop orphans; see `FindMenuDropsOrphans` and `OrphanDropped`.
