/**
 * The state of the admin screen `MenuManagementComponent`
 * (menu-management.component.ts): the loaded lists, the filter inputs and
 * their results, the display mode and the set of expanded tree nodes.
 */
module MenuManagement {
  import opened Wrappers
  import opened Seqs
  import opened MenuTree
  import opened MenuBuild
  import opened MenuHierarchy
  import opened MenuSort
  import opened MenuFilter
  import opened ToggleSet

  datatype DisplayMode = Table | TreeView

  /** The values the menu form is reset to when it is opened for a new record. */
  datatype FormDefaults = FormDefaults(parent: int, sequent: int)

  /** The ids of the top-level menus. */
  function TopIds(ms: seq<MainMenu>): (r: set<int>)
    ensures forall i :: 0 <= i < |ms| ==> ms[i].id in r
    ensures forall id :: id in r ==> exists i :: 0 <= i < |ms| && ms[i].id == id
  {
    set m | m in ms :: m.id
  }

  /**
   * `buildHierarchyFromFlat` applied to the sorted list, read back as the
   * nested tree the screen stores.
   */
  method FallbackTree(sorted: seq<MainMenu>, ghost input: seq<MainMenu>, ghost rank: map<int, nat>) returns (tree: seq<MainMenu>)
    requires sorted == SortBySequent(input) && RankedFromRoots(input, rank)
    ensures RankedFromRoots(sorted, rank) && tree == BuildForest(sorted, rank)
    ensures UniqueIds(input) && Acyclic(input, rank) ==> SiblingsOrdered(tree)
  {
    SortAcyclic(input, rank);
    var g := BuildHierarchyFromFlat(sorted);
    GraphWellFormed(sorted);
    AcyclicRanked(sorted, rank);
    tree := Forest(g, g.roots, rank);
    if UniqueIds(input) && Acyclic(input, rank) {
      FallbackSiblingsOrdered(input, rank);
    }
  }

  class MenuManagementScreen {
    var menus: seq<MainMenu>
    var hierarchicalMenus: seq<MainMenu>
    var filteredMenus: seq<MainMenu>
    var filteredHierarchicalMenus: seq<MainMenu>
    var parentMenus: seq<MainMenu>
    var isLoading: bool
    var successMessage: string
    var errorMessage: string
    var searchTerm: string
    var selectedParent: Option<int>
    var statusFilter: StatusFilter
    var displayMode: DisplayMode
    var expandedNodes: set<int>
    var isFormVisible: bool
    var isEditMode: bool
    var isChildMode: bool
    var currentMenuId: Option<int>
    var parentMenuForChild: Option<MainMenu>
    var formDefaults: Option<FormDefaults>

    /** Both result lists agree with the loaded lists and the current filter inputs. */
    predicate Filtered()
      reads this`filteredMenus, this`menus, this`searchTerm, this`selectedParent, this`statusFilter,
        this`filteredHierarchicalMenus, this`hierarchicalMenus
    {
      && filteredMenus == FilterFlat(menus, searchTerm, selectedParent, statusFilter)
      && filteredHierarchicalMenus == FilterHierarchical(hierarchicalMenus, searchTerm, statusFilter)
    }

    constructor()
      ensures menus == [] && hierarchicalMenus == [] && filteredMenus == [] && filteredHierarchicalMenus == []
      ensures parentMenus == [] && !isLoading && successMessage == "" && errorMessage == ""
      ensures searchTerm == "" && selectedParent == None && statusFilter == All
      ensures displayMode == TreeView && expandedNodes == {}
      ensures !isFormVisible && !isEditMode && !isChildMode && currentMenuId == None && parentMenuForChild == None
      ensures Filtered()
    {
      menus, hierarchicalMenus, filteredMenus, filteredHierarchicalMenus, parentMenus := [], [], [], [], [];
      isLoading, successMessage, errorMessage := false, "", "";
      searchTerm, selectedParent, statusFilter := "", None, All;
      displayMode, expandedNodes := TreeView, {};
      isFormVisible, isEditMode, isChildMode := false, false, false;
      currentMenuId, parentMenuForChild, formDefaults := None, None, None;
    }

    /** `applyFilters`: recomputes the flat and the tree results. */
    method ApplyFilters()
      modifies this`filteredMenus, this`filteredHierarchicalMenus
      ensures Filtered()
    {
      filteredMenus := FilterFlat(menus, searchTerm, selectedParent, statusFilter);
      filteredHierarchicalMenus := FilterHierarchical(hierarchicalMenus, searchTerm, statusFilter);
    }

    /** `onSearchChange` after the bound input has set `searchTerm`. */
    method OnSearchChange(term: string)
      modifies this`searchTerm, this`filteredMenus, this`filteredHierarchicalMenus
      ensures searchTerm == term && Filtered()
    {
      searchTerm := term;
      ApplyFilters();
    }

    /** `onParentFilterChange` after the bound select has set `selectedParent`. */
    method OnParentFilterChange(parent: Option<int>)
      modifies this`selectedParent, this`filteredMenus, this`filteredHierarchicalMenus
      ensures selectedParent == parent && Filtered()
    {
      selectedParent := parent;
      ApplyFilters();
    }

    /** `onStatusFilterChange` after the bound select has set `statusFilter`. */
    method OnStatusFilterChange(status: StatusFilter)
      modifies this`statusFilter, this`filteredMenus, this`filteredHierarchicalMenus
      ensures statusFilter == status && Filtered()
    {
      statusFilter := status;
      ApplyFilters();
    }

    /** `loadMenus` before either request answers: loading starts and the error is cleared. */
    method StartLoading()
      modifies this`isLoading, this`errorMessage
      ensures isLoading && errorMessage == ""
    {
      isLoading, errorMessage := true, "";
    }

    /** The error handler of the `getAllMenus` fallback: loading ends with the failure reported. */
    method OnLoadFailed(message: string)
      modifies this`errorMessage, this`isLoading
      ensures errorMessage == "Failed to load menus: " + message && !isLoading
    {
      errorMessage := "Failed to load menus: " + message;
      isLoading := false;
    }

    /**
     * The part both success handlers share: the new lists are stored, the
     * roots become `parentMenus`, the filters are re-applied, loading ends
     * with `message` and all nodes are collapsed.
     */
    method Loaded(flat: seq<MainMenu>, tree: seq<MainMenu>, message: string)
      modifies this`menus, this`hierarchicalMenus, this`parentMenus, this`filteredMenus,
        this`filteredHierarchicalMenus, this`isLoading, this`successMessage, this`expandedNodes
      ensures menus == flat && hierarchicalMenus == tree
      ensures parentMenus == Filter(flat, IsRoot)
      ensures Filtered()
      ensures !isLoading && successMessage == message && expandedNodes == {}
    {
      menus, hierarchicalMenus, filteredHierarchicalMenus := flat, tree, tree;
      parentMenus := Filter(flat, IsRoot);
      ApplyFilters();
      Finished(message);
    }

    /** Loading ends with `message` shown and every node collapsed. */
    method Finished(message: string)
      modifies this`isLoading, this`successMessage, this`expandedNodes
      ensures !isLoading && successMessage == message && expandedNodes == {}
    {
      isLoading, successMessage := false, message;
      CollapseAllNodes();
    }

    /**
     * The success handler of `getHierarchicalMenus` (the main load path):
     * the tree is kept as delivered and flattened into `menus`.
     */
    method OnHierarchicalLoaded(tree: seq<MainMenu>)
      modifies this`menus, this`hierarchicalMenus, this`parentMenus, this`filteredMenus,
        this`filteredHierarchicalMenus, this`isLoading, this`successMessage, this`expandedNodes
      ensures menus == Flatten(tree) && hierarchicalMenus == tree
      ensures parentMenus == Filter(menus, IsRoot)
      ensures Filtered()
      ensures !isLoading && successMessage == "Menus loaded successfully" && expandedNodes == {}
    {
      var flat := FlattenHierarchy(tree);
      Loaded(flat, tree, "Menus loaded successfully");
    }

    /**
     * The success handler of the `getAllMenus` fallback: the flat list is
     * sorted in place by `sequent` and built into the tree. `rank`
     * witnesses that no parent cycle hangs under a root, which the nested
     * tree value needs.
     */
    method OnFlatLoaded(flatMenus: array<MainMenu>, ghost rank: map<int, nat>)
      requires RankedFromRoots(flatMenus[..], rank)
      modifies this`menus, this`hierarchicalMenus, this`parentMenus, this`filteredMenus,
        this`filteredHierarchicalMenus, this`isLoading, this`successMessage, this`expandedNodes, flatMenus
      ensures flatMenus[..] == SortBySequent(old(flatMenus[..])) && menus == flatMenus[..]
      ensures RankedFromRoots(menus, rank) && hierarchicalMenus == BuildForest(menus, rank)
      ensures UniqueIds(old(flatMenus[..])) && Acyclic(old(flatMenus[..]), rank) ==> SiblingsOrdered(hierarchicalMenus)
      ensures parentMenus == Filter(menus, IsRoot)
      ensures Filtered()
      ensures !isLoading && successMessage == "Menus loaded successfully (flat API fallback)" && expandedNodes == {}
    {
      ghost var input := flatMenus[..];
      SortMenus(flatMenus);
      var tree := FallbackTree(flatMenus[..], input, rank);
      Loaded(flatMenus[..], tree, "Menus loaded successfully (flat API fallback)");
    }

    /** `showCreateForm`: a new root record, suggested the next free sequence number. */
    method ShowCreateForm()
      modifies this`isEditMode, this`isChildMode, this`isFormVisible, this`currentMenuId,
        this`parentMenuForChild, this`errorMessage, this`formDefaults
      ensures !isEditMode && !isChildMode && isFormVisible && currentMenuId == None && parentMenuForChild == None
      ensures errorMessage == "" && formDefaults == Some(FormDefaults(0, NextSequence(menus)))
    {
      isEditMode, isChildMode, isFormVisible := false, false, true;
      currentMenuId, parentMenuForChild, errorMessage := None, None, "";
      formDefaults := Some(FormDefaults(0, NextSequence(menus)));
    }

    /**
     * `showCreateChildForm(parentMenu)`: a new child of `parentMenu`,
     * suggested the next sequence number among its children; the parent's
     * node is expanded.
     */
    method ShowCreateChildForm(parentMenu: MainMenu)
      modifies this`isEditMode, this`isChildMode, this`isFormVisible, this`currentMenuId,
        this`parentMenuForChild, this`errorMessage, this`formDefaults, this`expandedNodes
      ensures !isEditMode && isChildMode && isFormVisible && currentMenuId == None
      ensures parentMenuForChild == Some(parentMenu) && errorMessage == ""
      ensures formDefaults == Some(FormDefaults(parentMenu.id, NextChildSequence(menus, parentMenu.id)))
      ensures expandedNodes == old(expandedNodes) + {parentMenu.id}
    {
      isEditMode, isChildMode, isFormVisible := false, true, true;
      currentMenuId, parentMenuForChild, errorMessage := None, Some(parentMenu), "";
      formDefaults := Some(FormDefaults(parentMenu.id, NextChildSequence(menus, parentMenu.id)));
      expandedNodes := expandedNodes + {parentMenu.id};
    }

    /** `toggleDisplayMode`: switches between the table and the tree. */
    method ToggleDisplayMode()
      modifies this`displayMode
      ensures displayMode == if old(displayMode) == Table then TreeView else Table
    {
      displayMode := if displayMode == Table then TreeView else Table;
    }

    /** `toggleNode(nodeId)`: flips the membership of `nodeId` alone. */
    method ToggleNode(nodeId: int)
      modifies this`expandedNodes
      ensures expandedNodes == Toggle(old(expandedNodes), nodeId)
    {
      if nodeId in expandedNodes {
        expandedNodes := expandedNodes - {nodeId};
      } else {
        expandedNodes := expandedNodes + {nodeId};
      }
    }

    /** `isNodeExpanded(nodeId)`: membership. */
    method IsNodeExpanded(nodeId: int) returns (expanded: bool)
      ensures expanded <==> nodeId in expandedNodes
    {
      expanded := nodeId in expandedNodes;
    }

    /** `expandAllNodes`: adds the ids of the top-level menus, and only those. */
    method ExpandAllNodes()
      modifies this`expandedNodes
      ensures expandedNodes == old(expandedNodes) + TopIds(hierarchicalMenus)
    {
      for i := 0 to |hierarchicalMenus|
        invariant expandedNodes == old(expandedNodes) + set j | 0 <= j < i :: hierarchicalMenus[j].id
      {
        expandedNodes := expandedNodes + {hierarchicalMenus[i].id};
      }
    }

    /** `collapseAllNodes`: empties the set. */
    method CollapseAllNodes()
      modifies this`expandedNodes
      ensures expandedNodes == {}
    {
      expandedNodes := {};
    }
  }
}
