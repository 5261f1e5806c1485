// The navigation sidebar: the fixed menu, which parent menus are expanded,
// which entries are shown as active for the current URL path, and what a
// click on an entry does.

module Sidebar {
  import opened Records
  import opened Seqs

  /** An entry of a sub-menu. */
  datatype Child = Child(name: string, path: string)

  /** A top-level entry: a link (`path`), a parent of a sub-menu
      (`children`), or both fields absent. */
  datatype MenuItem = MenuItem(name: string, path: Option<string>, children: Option<seq<Child>>)

  /** The menu the sidebar shows. */
  const Menu: seq<MenuItem> := [
    MenuItem("Dashboard", Some("/"), None),
    MenuItem("Database", Some("/managedatabase"), None),
    MenuItem("Content", None, Some([Child("Blogs", "/blogs"), Child("Media", "/media")])),
    MenuItem("Users", Some("/users"), None),
    MenuItem("Settings", Some("/settings"), None)
  ]

  // ---------------------------------------------------------------------
  // Active routes

  /** `isChildActive`: `pathname.startsWith(path)`, that is, the first
      `|path|` characters of the path name are `path`; an empty path is the
      start of every path name. */
  function IsChildActive(pathname: string, path: string): (b: bool)
    ensures b <==> |path| <= |pathname| && pathname[..|path|] == path
    ensures path == [] ==> b
  {
    path <= pathname
  }

  /** `children.some(c => pathname.startsWith(c.path))`. */
  predicate SomeChildActive(children: seq<Child>, pathname: string)
  {
    exists i :: 0 <= i < |children| && IsChildActive(pathname, children[i].path)
  }

  /** The `some` loop, scanning the children from the front. */
  function AnyChildActive(children: seq<Child>, pathname: string): (b: bool)
    ensures b <==> SomeChildActive(children, pathname)
    decreases |children|
  {
    if children == [] then false
    else if IsChildActive(pathname, children[0].path) then true
    else
      var b := AnyChildActive(children[1..], pathname);
      assert forall i :: 1 <= i < |children| ==> children[i] == children[1..][i - 1];
      b
  }

  /** The item has a sub-menu one of whose paths is a prefix of the path name. */
  predicate HasActiveChild(item: MenuItem, pathname: string)
  {
    item.children.Some? && AnyChildActive(item.children.value, pathname)
  }

  /** `isParentActive`: a present, non-empty own path that is a prefix of
      the path name, or else a child path that is. */
  function IsParentActive(item: MenuItem, pathname: string): (b: bool)
    ensures b <==> (item.path.Some? && item.path.value != "" && IsChildActive(pathname, item.path.value))
                   || (item.children.Some? && SomeChildActive(item.children.value, pathname))
  {
    if item.path.Some? && item.path.value != "" && IsChildActive(pathname, item.path.value) then true
    else if item.children.Some? then AnyChildActive(item.children.value, pathname)
    else false
  }

  /** The "Dashboard" entry, whose path is "/", is active on every path. */
  lemma DashboardAlwaysActive(pathname: string)
    requires |pathname| >= 1 && pathname[0] == '/'
    ensures IsParentActive(Menu[0], pathname)
  {
    assert "/" == pathname[..1];
  }

  // ---------------------------------------------------------------------
  // Expanded parents

  /** The names of the items, in order. */
  function Names(items: seq<MenuItem>): (r: seq<string>)
    ensures |r| == |items| && forall i :: 0 <= i < |items| ==> r[i] == items[i].name
  {
    seq(|items|, i requires 0 <= i < |items| => items[i].name)
  }

  /** The effect run on a path change: the names of the items with a
      sub-menu holding an active child, in menu order. */
  function ExpandedParents(menu: seq<MenuItem>, pathname: string): (r: seq<string>)
    ensures forall n :: n in r <==> exists i :: 0 <= i < |menu| && menu[i].name == n && HasActiveChild(menu[i], pathname)
  {
    var kept := Filter(menu, (item: MenuItem) => HasActiveChild(item, pathname));
    FilterMembers(menu, (item: MenuItem) => HasActiveChild(item, pathname));
    var r := Names(kept);
    assert forall n :: n in r ==> exists i :: 0 <= i < |menu| && menu[i].name == n && HasActiveChild(menu[i], pathname) by {
      forall n | n in r
        ensures exists i :: 0 <= i < |menu| && menu[i].name == n && HasActiveChild(menu[i], pathname)
      {
        var j :| 0 <= j < |r| && r[j] == n;
        assert kept[j] in kept;
      }
    }
    assert forall i :: 0 <= i < |menu| && HasActiveChild(menu[i], pathname) ==> menu[i].name in r by {
      forall i | 0 <= i < |menu| && HasActiveChild(menu[i], pathname)
        ensures menu[i].name in r
      {
        assert menu[i] in kept;
        var j :| 0 <= j < |kept| && kept[j] == menu[i];
        assert r[j] == menu[i].name;
      }
    }
    r
  }

  /** The expanded parents are the matching menu names in menu order. */
  lemma {:induction false} ExpandedParentsInOrder(menu: seq<MenuItem>, pathname: string)
    ensures IsSubsequence(ExpandedParents(menu, pathname), Names(menu))
  {
    var p := (item: MenuItem) => HasActiveChild(item, pathname);
    FilterIsSubsequence(menu, p);
    NamesKeepSubsequence(Filter(menu, p), menu);
  }

  lemma {:induction false} NamesKeepSubsequence(a: seq<MenuItem>, b: seq<MenuItem>)
    requires IsSubsequence(a, b)
    ensures IsSubsequence(Names(a), Names(b))
    decreases |b|
  {
    if a != [] {
      assert Names(a)[1..] == Names(a[1..]);
      assert Names(b)[1..] == Names(b[1..]);
      if a[0] == b[0] && IsSubsequence(a[1..], b[1..]) {
        NamesKeepSubsequence(a[1..], b[1..]);
      } else {
        NamesKeepSubsequence(a, b[1..]);
      }
    }
  }

  /** For the sidebar's own menu only "Content" can be expanded by the URL,
      and it is whenever the path starts with "/blogs" or "/media". */
  lemma MenuExpandedParents(pathname: string)
    ensures ExpandedParents(Menu, pathname) == if "/blogs" <= pathname || "/media" <= pathname then ["Content"] else []
  {
    var p := (item: MenuItem) => HasActiveChild(item, pathname);
    ContentActive(pathname);
    assert Filter(Menu, p) == Filter(Menu[1..], p);
    assert Filter(Menu[1..], p) == Filter(Menu[2..], p);
    FilterDropsAll(Menu[3..], p);
    assert Menu[2..][1..] == Menu[3..];
    if p(Menu[2]) {
      assert Filter(Menu[2..], p) == [Menu[2]];
    } else {
      assert Filter(Menu[2..], p) == [];
    }
  }

  /** The "Content" sub-menu is active exactly on its two path prefixes. */
  lemma ContentActive(pathname: string)
    ensures HasActiveChild(Menu[2], pathname) <==> "/blogs" <= pathname || "/media" <= pathname
  {
    var cs := Menu[2].children.value;
    assert cs[0].path == "/blogs" && cs[1].path == "/media";
    assert AnyChildActive(cs, pathname) == (IsChildActive(pathname, cs[0].path) || AnyChildActive(cs[1..], pathname));
    assert AnyChildActive(cs[1..], pathname) == (IsChildActive(pathname, cs[1].path) || AnyChildActive(cs[2..], pathname));
  }

  // ---------------------------------------------------------------------
  // Expand / collapse and clicks

  /** `toggle`: drops every copy of a listed name, appends an unlisted one. */
  function ToggleName(expanded: seq<string>, name: string): (r: seq<string>)
    ensures name in expanded ==> name !in r && IsSubsequence(r, expanded)
                                 && forall y :: y in expanded && y != name ==> y in r
    ensures name in expanded ==> forall y :: y != name ==> multiset(r)[y] == multiset(expanded)[y]
    ensures name !in expanded ==> |r| == |expanded| + 1 && r[..|expanded|] == expanded && r[|expanded|] == name
  {
    if name in expanded then
      FilterIsSubsequence(expanded, n => n != name);
      FilterMembers(expanded, n => n != name);
      assert forall y :: y != name ==> multiset(Filter(expanded, n => n != name))[y] == multiset(expanded)[y] by {
        forall y | y != name
          ensures multiset(Filter(expanded, n => n != name))[y] == multiset(expanded)[y]
        {
          FilterMultiplicity(expanded, n => n != name, y);
        }
      }
      Filter(expanded, n => n != name)
    else expanded + [name]
  }

  /** Expanding a collapsed menu and collapsing it again restores the list. */
  lemma ToggleTwiceRestores(expanded: seq<string>, name: string)
    requires name !in expanded
    ensures ToggleName(ToggleName(expanded, name), name) == expanded
  {
    FilterAppend(expanded, [name], n => n != name);
    FilterKeepsAll(expanded, n => n != name);
    assert Filter([name], n => n != name) == [];
  }

  /** What a click asks the page to do. */
  datatype ClickAction = ToggleMenu | Navigate(path: string, closeSidebar: bool) | NoAction

  /** The click handler of a top-level entry: a parent toggles its sub-menu;
      a link to another page navigates there, closing the sidebar on a
      phone; anything else does nothing. */
  function ItemClick(item: MenuItem, pathname: string, isMobile: bool): (a: ClickAction)
    ensures a == ToggleMenu <==> item.children.Some?
    ensures a.Navigate? <==> item.children.None? && item.path.Some? && item.path.value != "" && item.path.value != pathname
    ensures a.Navigate? ==> a.path == item.path.value && a.closeSidebar == isMobile
  {
    if item.children.Some? then ToggleMenu
    else if item.path.Some? && item.path.value != "" && item.path.value != pathname then Navigate(item.path.value, isMobile)
    else NoAction
  }

  /** The click handler of a sub-menu entry. */
  function ChildClick(child: Child, pathname: string, isMobile: bool): (a: ClickAction)
    ensures !a.ToggleMenu?
    ensures a.NoAction? <==> child.path == pathname
    ensures a.Navigate? ==> a.path == child.path && a.closeSidebar == isMobile
  {
    if child.path != pathname then Navigate(child.path, isMobile) else NoAction
  }

  /** Clicking the entry of the page being shown changes nothing. */
  lemma ClickOnCurrentPage(item: MenuItem, pathname: string, isMobile: bool)
    requires item.children.None? && item.path == Some(pathname)
    ensures ItemClick(item, pathname, isMobile) == NoAction
  {
  }

  class SidebarState {
    var pathname: string
    var expanded: seq<string>

    /** The sidebar as first shown, before the path effect runs. */
    constructor (pathname: string)
      ensures this.pathname == pathname && expanded == []
    {
      this.pathname := pathname;
      expanded := [];
    }

    method Toggle(name: string)
      modifies this`expanded
      ensures expanded == ToggleName(old(expanded), name)
    {
      if name in expanded {
        expanded := Filter(expanded, n => n != name);
      } else {
        expanded := expanded + [name];
      }
    }

    /** The effect on a new path: the expanded list is replaced, so menus
        expanded by hand are collapsed again. */
    method OnPathnameChange(newPathname: string)
      modifies this`pathname, this`expanded
      ensures pathname == newPathname
      ensures expanded == ExpandedParents(Menu, newPathname)
    {
      pathname := newPathname;
      expanded := ExpandedParents(Menu, newPathname);
    }

    /** A click on a top-level entry; navigation is returned to the caller. */
    method Click(item: MenuItem, isMobile: bool) returns (action: ClickAction)
      modifies this`expanded
      ensures action == ItemClick(item, pathname, isMobile)
      ensures expanded == if item.children.Some? then ToggleName(old(expanded), item.name) else old(expanded)
    {
      action := ItemClick(item, pathname, isMobile);
      if item.children.Some? {
        Toggle(item.name);
      }
    }
  }
}
