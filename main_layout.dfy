/**
 * The state of `MainLayoutComponent` (main-layout.component.ts): the
 * sidebar tree, the route flags, the section shown beside the tree, the
 * set of expanded items, the current menu name and the user's name and
 * role.
 */
module MainLayout {
  import opened Wrappers
  import opened Seqs
  import opened Text
  import opened SidebarTree
  import opened UserInfo
  import opened ToggleSet

  /** `url === '/' || url === '/dashboard'`. */
  predicate IsDashboardUrl(url: string) {
    url == "/" || url == "/dashboard"
  }

  /** `item => item.Id == id`. */
  function IdIs(id: int): MenuItem -> bool {
    (m: MenuItem) => m.id == id
  }

  /** The top-level section id `updateShowMenuBasedOnRoute` picks for a url, if any. */
  function SectionId(url: string): (r: Option<int>)
    ensures r == Some(4) <==> StartsWith(url, "/inbound")
    ensures r == Some(5) <==> !StartsWith(url, "/inbound") && StartsWith(url, "/outbound")
    ensures r.None? <==> !StartsWith(url, "/inbound") && !StartsWith(url, "/outbound")
  {
    if StartsWith(url, "/inbound") then Some(4)
    else if StartsWith(url, "/outbound") then Some(5)
    else None
  }

  /** `showMenu` for a url: the top-level items of the section's id, or nothing. */
  function ShowMenuFor(tree: seq<MenuItem>, url: string): (r: seq<MenuItem>)
    ensures SectionId(url).None? ==> r == []
    ensures forall x :: x in r ==> x in tree && SectionId(url) == Some(x.id)
  {
    match SectionId(url)
    case None => []
    case Some(id) => Filter(tree, IdIs(id))
  }

  /**
   * `showMenu` keeps the order of `menuTree` and holds exactly its items
   * with the section's id, or nothing outside both sections.
   */
  lemma ShowMenuMeaning(tree: seq<MenuItem>, url: string)
    ensures IsSubsequence(ShowMenuFor(tree, url), tree)
    ensures SectionId(url).None? ==> ShowMenuFor(tree, url) == []
    ensures SectionId(url).Some? ==> forall m :: m in ShowMenuFor(tree, url) <==> m in tree && m.id == SectionId(url).value
  {
    match SectionId(url)
    case None =>
    case Some(id) =>
      FilterMeaning(tree, IdIs(id));
      forall m | m in tree && m.id == id ensures m in ShowMenuFor(tree, url) {
        FilterKeeps(tree, IdIs(id), m);
      }
  }

  /** The first match wins even when a later link is a longer prefix of the url. */
  lemma FirstMatchNotLongest()
    ensures var a := MenuItem(1, 0, "Inbound", None, 1, Some("/inbound"), 1, None, "", []);
      var b := MenuItem(2, 1, "Receive", None, 1, Some("/inbound/receive"), 1, None, "", []);
      MenuNameFor([a, b], "/inbound/receive") == Some("Inbound")
  {
    var a := MenuItem(1, 0, "Inbound", None, 1, Some("/inbound"), 1, None, "", []);
    assert StartsWith("/inbound/receive", "/inbound");
    assert LinkMatches("/inbound/receive")(a);
  }

  class MainLayoutScreen {
    var sidebarOpen: bool
    var menu: seq<MenuItem>
    var menuTree: seq<MenuItem>
    var showMenu: seq<MenuItem>
    var expandedItems: set<int>
    var currentUrl: string
    var isDashboard: bool
    var isInInboundSection: bool
    var isInOutboundSection: bool
    var fullName: Option<string>
    var userRole: Option<string>
    var currentMenuName: Option<string>

    constructor()
      ensures !sidebarOpen && menu == [] && menuTree == [] && showMenu == [] && expandedItems == {}
      ensures currentUrl == "" && isDashboard && !isInInboundSection && !isInOutboundSection
      ensures fullName == None && userRole == None && currentMenuName == None
    {
      sidebarOpen, menu, menuTree, showMenu, expandedItems := false, [], [], [], {};
      currentUrl, isDashboard, isInInboundSection, isInOutboundSection := "", true, false, false;
      fullName, userRole, currentMenuName := None, None, None;
    }

    /** `toggleSidebar`. */
    method ToggleSidebar()
      modifies this`sidebarOpen
      ensures sidebarOpen == !old(sidebarOpen)
    {
      sidebarOpen := !sidebarOpen;
    }

    /** `checkCurrentRoute(url)`: the three route flags. */
    method CheckCurrentRoute(url: string)
      modifies this`isDashboard, this`isInInboundSection, this`isInOutboundSection
      ensures isDashboard <==> IsDashboardUrl(url)
      ensures isInInboundSection <==> StartsWith(url, "/inbound")
      ensures isInOutboundSection <==> StartsWith(url, "/outbound")
    {
      isDashboard := url == "/" || url == "/dashboard";
      isInInboundSection := StartsWith(url, "/inbound");
      isInOutboundSection := StartsWith(url, "/outbound");
    }

    /** `updateShowMenuBasedOnRoute(url)`. */
    method UpdateShowMenuBasedOnRoute(url: string)
      modifies this`showMenu
      ensures showMenu == ShowMenuFor(menuTree, url)
    {
      if StartsWith(url, "/inbound") {
        showMenu := Filter(menuTree, IdIs(4));
      } else if StartsWith(url, "/outbound") {
        showMenu := Filter(menuTree, IdIs(5));
      } else {
        showMenu := [];
      }
    }

    /** `updateCurrentMenuName`: the walk of the tree, then the first matching link. */
    method UpdateCurrentMenuName()
      modifies this`currentMenuName
      ensures currentMenuName == MenuNameFor(FlattenItems(menuTree), currentUrl)
    {
      var allMenus := FlattenTree(menuTree);
      var found := Find(allMenus, LinkMatches(currentUrl));
      currentMenuName := if found.Some? then Some(found.value.name) else None;
    }

    /**
     * `initializeUserInfo`: with an authenticated session's token the name
     * and role are derived from its claims; without one nothing changes.
     */
    method InitializeUserInfo(token: Option<Token>)
      modifies this`fullName, this`userRole
      ensures token.Some? ==> fullName == FullName(token.value) && userRole == UserRole(token.value)
      ensures token.None? ==> fullName == old(fullName) && userRole == old(userRole)
    {
      if token.Some? {
        fullName := FullName(token.value);
        userRole := UserRole(token.value);
      }
    }

    /** The first part of `ngOnInit`: the router's url is kept and the flags are set. */
    method Init(routerUrl: string, token: Option<Token>)
      modifies this`currentUrl, this`isDashboard, this`isInInboundSection, this`isInOutboundSection,
        this`fullName, this`userRole
      ensures currentUrl == routerUrl
      ensures isDashboard <==> IsDashboardUrl(routerUrl)
      ensures isInInboundSection <==> StartsWith(routerUrl, "/inbound")
      ensures isInOutboundSection <==> StartsWith(routerUrl, "/outbound")
      ensures token.Some? ==> fullName == FullName(token.value) && userRole == UserRole(token.value)
      ensures token.None? ==> fullName == old(fullName) && userRole == old(userRole)
    {
      currentUrl := routerUrl;
      CheckCurrentRoute(currentUrl);
      InitializeUserInfo(token);
    }

    /**
     * The `getMenu` subscription: the records are kept, the tree is
     * `findMenu(0)`, and the section and the current name follow the url.
     * `rank` witnesses that following `Parent` never cycles.
     */
    method OnMenuLoaded(data: seq<MenuItem>, ghost rank: map<int, nat>)
      requires Layered(data, rank) && 0 in rank
      modifies this`menu, this`menuTree, this`showMenu, this`currentMenuName
      ensures menu == data && menuTree == FindMenu(data, 0, rank)
      ensures showMenu == ShowMenuFor(menuTree, currentUrl)
      ensures currentMenuName == MenuNameFor(FlattenItems(menuTree), currentUrl)
    {
      menu := data;
      menuTree := FindMenu(data, 0, rank);
      UpdateShowMenuBasedOnRoute(currentUrl);
      UpdateCurrentMenuName();
    }

    /** The `NavigationEnd` subscription. */
    method OnNavigationEnd(url: string)
      modifies this`currentUrl, this`isDashboard, this`isInInboundSection, this`isInOutboundSection,
        this`showMenu, this`currentMenuName
      ensures currentUrl == url
      ensures isDashboard <==> IsDashboardUrl(url)
      ensures isInInboundSection <==> StartsWith(url, "/inbound")
      ensures isInOutboundSection <==> StartsWith(url, "/outbound")
      ensures showMenu == if |menuTree| > 0 then ShowMenuFor(menuTree, url) else old(showMenu)
      ensures currentMenuName == MenuNameFor(FlattenItems(menuTree), url)
    {
      currentUrl := url;
      CheckCurrentRoute(url);
      if |menuTree| > 0 {
        UpdateShowMenuBasedOnRoute(url);
      }
      UpdateCurrentMenuName();
    }

    /** `backToMainMenu`: every submenu closes (the navigation itself is not modelled). */
    method BackToMainMenu()
      modifies this`expandedItems
      ensures expandedItems == {}
    {
      expandedItems := {};
    }

    /** `toggleExpanded(itemId)`. */
    method ToggleExpanded(itemId: int)
      modifies this`expandedItems
      ensures expandedItems == Toggle(old(expandedItems), itemId)
    {
      if itemId in expandedItems {
        expandedItems := expandedItems - {itemId};
      } else {
        expandedItems := expandedItems + {itemId};
      }
    }

    /** `isExpanded(itemId)`. */
    method IsExpanded(itemId: int) returns (expanded: bool)
      ensures expanded <==> itemId in expandedItems
    {
      expanded := itemId in expandedItems;
    }
  }
}
