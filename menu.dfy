/** The applications menu as a sequence of item values, and the layout that
    `_buildMenu` gives it: one submenu per category. */
module Menu {
  import opened AppView

  /** The handler a session item is bound to on the user menu. */
  datatype SessionAction = LockScreen | LoginScreen | QuitSession | SuspendOrPowerOff

  datatype MenuItem =
    | SubMenu(text: string, apps: seq<AppId>)  // its application items, top to bottom
    | Separator
    | Item(text: string, action: SessionAction)

  /** The menu of the panel button; `addMenuItem` without a position appends. */
  class PopupMenu {
    var items: seq<MenuItem>

    constructor ()
      ensures items == []
    {
      items := [];
    }

    method AddMenuItem(item: MenuItem)
      modifies this
      ensures items == old(items) + [item]
    {
      items := items + [item];
    }

    method RemoveAll()
      modifies this
      ensures items == []
    {
      items := [];
    }
  }

  function Reversed(s: seq<AppId>): (r: seq<AppId>) {
    if s == [] then [] else [s[|s| - 1]] + Reversed(s[..|s| - 1])
  }

  /** Position k of the reversed list holds the k-th app from the end. */
  lemma {:induction false} ReversedAt(s: seq<AppId>, k: nat)
    requires k < |s|
    ensures |Reversed(s)| == |s|
    ensures Reversed(s)[k] == s[|s| - 1 - k]
  {
    var init := s[..|s| - 1];
    if k > 0 {
      ReversedAt(init, k - 1);
    } else if init != [] {
      ReversedAt(init, 0);
    }
  }

  lemma {:induction false} ReversedLength(s: seq<AppId>)
    ensures |Reversed(s)| == |s|
  {
    if s != [] {
      ReversedLength(s[..|s| - 1]);
    }
  }

  /** The submenus for `categories`, each showing its list reversed. */
  function CategorySubMenus(categories: seq<string>, applications: map<string, seq<AppId>>): (r: seq<MenuItem>)
    requires forall c | c in categories :: c in applications
  {
    if categories == [] then []
    else
      var c := categories[|categories| - 1];
      CategorySubMenus(categories[..|categories| - 1], applications) + [SubMenu(c, Reversed(applications[c]))]
  }

  /** Submenu k is labelled with category k and shows that category's apps reversed. */
  lemma {:induction false} CategorySubMenusAt(categories: seq<string>, applications: map<string, seq<AppId>>, k: nat)
    requires forall c | c in categories :: c in applications
    requires k < |categories|
    ensures |CategorySubMenus(categories, applications)| == |categories|
    ensures CategorySubMenus(categories, applications)[k] ==
      SubMenu(categories[k], Reversed(applications[categories[k]]))
  {
    var init := categories[..|categories| - 1];
    if k < |init| {
      CategorySubMenusAt(init, applications, k);
    } else if init != [] {
      CategorySubMenusAt(init, applications, 0);
    }
  }

  lemma CategoryIndexCovers(root: seq<TreeItem>, showAll: bool)
    ensures forall c | c in CategoryNames(root) :: c in CategoryIndex(root, showAll)
  {
    forall c | c in CategoryNames(root)
      ensures c in CategoryIndex(root, showAll)
    {
      IndexFromKeys(map[], root, showAll, c);
    }
  }

  /** The submenus `_buildMenu` adds for the application tree (it asks for `showAll` false). */
  function CategoryMenu(root: seq<TreeItem>): (r: seq<MenuItem>) {
    CategoryIndexCovers(root, false);
    CategorySubMenus(CategoryNames(root), CategoryIndex(root, false))
  }

  /** Every submenu labelled like a category shows, reversed, the shown direct
      entries of the LAST directory of that name, even for a repeated name. */
  lemma SubMenuOfLastDirectory(root: seq<TreeItem>, j: nat, k: nat)
    requires j < |root| && root[j].Directory?
    requires forall i | j < i < |root| :: !(root[i].Directory? && root[i].name == root[j].name)
    requires k < |CategoryNames(root)| && CategoryNames(root)[k] == root[j].name
    ensures |CategoryMenu(root)| == |CategoryNames(root)|
    ensures CategoryMenu(root)[k] == SubMenu(root[j].name, Reversed(DirectApps(root[j].items, false)))
  {
    CategoryIndexCovers(root, false);
    CategorySubMenusAt(CategoryNames(root), CategoryIndex(root, false), k);
    CategoryIndexLastWins(root, j, false);
  }

  /** The two loops of `_buildMenu`: a submenu per category of `view`, whose
      list is fetched with `get_applications` and inserted app by app at
      position 0. */
  method AddCategorySubMenus(menu: PopupMenu, view: AppViewByCategories)
    requires view.Valid()
    modifies menu
    ensures menu.items == old(menu.items) + CategorySubMenus(view.categories, view.applications)
  {
    var categories := view.GetCategories();
    var i := 0;
    while i < |categories|
      invariant 0 <= i <= |categories|
      invariant menu.items == old(menu.items) + CategorySubMenus(categories[..i], view.applications)
    {
      var category := categories[i];
      var apps := view.GetApplications(category).value;
      var shown: seq<AppId> := [];
      var j := 0;
      while j < |apps|
        invariant 0 <= j <= |apps|
        invariant shown == Reversed(apps[..j])
      {
        assert apps[..j + 1][..j] == apps[..j];
        shown := [apps[j]] + shown;
        j := j + 1;
      }
      assert apps[..j] == apps;
      assert categories[..i + 1][..i] == categories[..i];
      menu.AddMenuItem(SubMenu(category, shown));
      i := i + 1;
    }
    assert categories[..i] == categories;
  }
}
