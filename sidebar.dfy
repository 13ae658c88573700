/**
 * The navigation menu of src/components/common/Sidebar.jsx: the menu items a
 * user sees are filtered by the strict admin test of the user context, one
 * level of children deep, and parents left without children are hidden.
 * The open/closed state of each section is a map the toggles update.
 */
module Sidebar {
  import opened Wrappers
  import opened Js
  import UserContext

  /** A menu entry. Icons are presentation and are not modelled. */
  datatype MenuItem = MenuItem(
    id: string,
    title: string,
    path: Option<string>,
    adminOnly: bool,
    children: Option<seq<MenuItem>>)

  const UsersItem := MenuItem("Users", "Users", Some("/users"), true, None)
  const HomeItem := MenuItem("home", "Home", Some("/home"), false, None)
  const ManagementItem := MenuItem("Management", "Management", None, true, Some([UsersItem]))

  /** `allMenuItems`. */
  const AllMenuItems := [HomeItem, ManagementItem]

  /** `!(item.adminOnly && !userIsAdmin)`. */
  predicate Allowed(item: MenuItem, isAdmin: bool) {
    !(item.adminOnly && !isAdmin)
  }

  /** `a` is `b` with some elements left out, order kept. */
  predicate IsSubsequence<T(==)>(a: seq<T>, b: seq<T>)
    decreases |b|
  {
    if |a| == 0 then true
    else if |b| == 0 then false
    else (a[0] == b[0] && IsSubsequence(a[1..], b[1..])) || IsSubsequence(a, b[1..])
  }

  /** `children.filter(child => !(child.adminOnly && !userIsAdmin))`. */
  function FilterChildren(children: seq<MenuItem>, isAdmin: bool): (r: seq<MenuItem>)
    ensures |r| <= |children|
    ensures forall c | c in r :: c in children && Allowed(c, isAdmin)
    ensures forall c | c in children && Allowed(c, isAdmin) :: c in r
    ensures isAdmin ==> r == children
    ensures IsSubsequence(r, children)
  {
    if |children| == 0 then []
    else
      var rest := FilterChildren(children[1..], isAdmin);
      assert forall c | c in children && c != children[0] :: c in children[1..];
      if Allowed(children[0], isAdmin) then
        assert ([children[0]] + rest)[1..] == rest;
        [children[0]] + rest
      else rest
  }

  /** One item through the filter callback: dropped (None), or kept with its
      children filtered. An item whose children list ends up empty is dropped. */
  function Visible(item: MenuItem, isAdmin: bool): (r: Option<MenuItem>)
    ensures r.Some? ==> Allowed(item, isAdmin)
    ensures r.Some? ==> r.value.id == item.id && r.value.title == item.title && r.value.path == item.path
                        && r.value.adminOnly == item.adminOnly
    ensures r.Some? ==> (r.value.children.Some? <==> item.children.Some?)
    ensures r.Some? && item.children.Some? ==> r.value.children == Some(FilterChildren(item.children.value, isAdmin))
    ensures Allowed(item, isAdmin) && item.children.None? ==> r == Some(item)
    ensures Allowed(item, isAdmin) && item.children.Some? ==>
              (r.Some? <==> |FilterChildren(item.children.value, isAdmin)| > 0)
  {
    if !Allowed(item, isAdmin) then None
    else match item.children
      case None => Some(item)
      case Some(children) =>
        var kept := FilterChildren(children, isAdmin);
        if |kept| == 0 then None else Some(item.(children := Some(kept)))
  }

  /** `allMenuItems.filter(...)`, with the callback's reassignment of
      `item.children` applied to the items it keeps. */
  function VisibleMenu(items: seq<MenuItem>, isAdmin: bool): (r: seq<MenuItem>)
    ensures |r| <= |items|
    ensures forall i | 0 <= i < |items| && Visible(items[i], isAdmin).Some? ::
              Visible(items[i], isAdmin).value in r
    ensures forall m | m in r :: exists i | 0 <= i < |items| :: Visible(items[i], isAdmin) == Some(m)
  {
    if |items| == 0 then []
    else
      var rest := VisibleMenu(items[1..], isAdmin);
      assert forall i | 1 <= i < |items| :: items[1..][i - 1] == items[i];
      match Visible(items[0], isAdmin)
      case None => rest
      case Some(kept) => [kept] + rest
  }

  /** The ids of a list of items. */
  function Ids(items: seq<MenuItem>): (ids: seq<string>)
    ensures |ids| == |items|
    ensures forall i | 0 <= i < |items| :: ids[i] == items[i].id
  {
    seq(|items|, i requires 0 <= i < |items| => items[i].id)
  }

  /** For a non-admin nothing admin-only survives, neither at the top level
      nor among the surviving children; and for anyone, no parent is shown
      with an empty children list. */
  lemma {:induction false} VisibleMenuIsSafe(items: seq<MenuItem>, isAdmin: bool)
    ensures forall m | m in VisibleMenu(items, isAdmin) :: Allowed(m, isAdmin)
    ensures forall m | m in VisibleMenu(items, isAdmin) && m.children.Some? ::
              |m.children.value| > 0 && forall c | c in m.children.value :: Allowed(c, isAdmin)
  {
    if |items| > 0 {
      VisibleMenuIsSafe(items[1..], isAdmin);
    }
  }

  /** The order of the menu is kept: the shown ids are a subsequence of
      the defined ones. */
  lemma {:induction false} VisibleMenuKeepsOrder(items: seq<MenuItem>, isAdmin: bool)
    ensures IsSubsequence(Ids(VisibleMenu(items, isAdmin)), Ids(items))
  {
    if |items| > 0 {
      var r := VisibleMenu(items, isAdmin);
      var rest := VisibleMenu(items[1..], isAdmin);
      VisibleMenuKeepsOrder(items[1..], isAdmin);
      assert Ids(items)[1..] == Ids(items[1..]);
      if Visible(items[0], isAdmin).Some? {
        assert r == [Visible(items[0], isAdmin).value] + rest;
        assert Ids(r)[1..] == Ids(rest);
      } else {
        assert r == rest;
      }
    }
  }

  /** Every allowed leaf item is shown, unchanged. */
  lemma {:induction false} AllowedLeavesAreShown(items: seq<MenuItem>, isAdmin: bool, item: MenuItem)
    requires item in items && Allowed(item, isAdmin) && item.children.None?
    ensures item in VisibleMenu(items, isAdmin)
  {
    if items[0] != item {
      AllowedLeavesAreShown(items[1..], isAdmin, item);
    }
  }

  /** An administrator sees every item and child, provided no item was
      defined with an empty children list. */
  lemma {:induction false} AdminSeesEverything(items: seq<MenuItem>)
    requires forall m | m in items && m.children.Some? :: |m.children.value| > 0
    ensures VisibleMenu(items, true) == items
  {
    if |items| > 0 {
      AdminSeesEverything(items[1..]);
      var m := items[0];
      if m.children.Some? {
        assert m.(children := Some(FilterChildren(m.children.value, true))) == m;
      }
    }
  }

  /** The menu shown for a user, by `isAdmin()` of the user context. */
  function MenuFor(currentUser: Value): seq<MenuItem> {
    VisibleMenu(AllMenuItems, UserContext.IsAdminProfile(currentUser))
  }

  /** The defined menu: an administrator sees Home and Management with Users;
      anyone else sees Home alone, since Management has no other child. */
  lemma TheMenu(currentUser: Value)
    ensures UserContext.IsAdminProfile(currentUser) ==> MenuFor(currentUser) == AllMenuItems
    ensures !UserContext.IsAdminProfile(currentUser) ==> MenuFor(currentUser) == [HomeItem]
  {
    if UserContext.IsAdminProfile(currentUser) {
      AdminSeesEverything(AllMenuItems);
    } else {
      assert FilterChildren([UsersItem], false) == [];
      assert VisibleMenu(AllMenuItems[1..], false) == [];
    }
  }

  /** `expandedSections[s]` read as a condition: a missing key is closed. */
  function IsExpanded(sections: map<string, bool>, s: string): bool {
    s in sections && sections[s]
  }

  /** `{ ...prev, [section]: !prev[section] }`. */
  function Toggled(sections: map<string, bool>, section: string): (r: map<string, bool>)
    ensures r.Keys == sections.Keys + {section}
    ensures IsExpanded(r, section) == !IsExpanded(sections, section)
    ensures forall s | s != section :: IsExpanded(r, s) == IsExpanded(sections, s)
    ensures forall s | s in sections && s != section :: r[s] == sections[s]
  {
    sections[section := !IsExpanded(sections, section)]
  }

  /** Toggling a section twice restores what is shown for every section. */
  lemma ToggleTwice(sections: map<string, bool>, section: string, s: string)
    ensures IsExpanded(Toggled(Toggled(sections, section), section), s) == IsExpanded(sections, s)
  {
  }

  class SidebarState {
    var expandedSections: map<string, bool>

    /** `useState({ inventory: true })`. */
    constructor()
      ensures expandedSections == map["inventory" := true]
    {
      expandedSections := map["inventory" := true];
    }

    /** `toggleSection(section)`. */
    method ToggleSection(section: string)
      modifies this
      ensures expandedSections == Toggled(old(expandedSections), section)
    {
      expandedSections := expandedSections[section := !IsExpanded(expandedSections, section)];
    }
  }
}
