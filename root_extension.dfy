/** The root revision of the extension: the applications menu button with
    the session items appended after the categories, and the cached lookup of
    the panel's user menu that those items are bound to. */
module RootExtension {
  import opened Results
  import opened AppView
  import opened Menu

  type ActorId = nat

  /** The user menu indicator of the panel, known by its actor. */
  datatype Indicator = Indicator(actor: ActorId)

  /** `actors` with `actor` taken out (`remove_actor`): the other children
      stay, and only a present actor shortens the list. */
  function Without(actors: seq<ActorId>, actor: ActorId): (rest: seq<ActorId>)
    ensures forall a :: a in rest <==> a in actors && a != actor
    ensures |rest| <= |actors|
    ensures actor in actors ==> |rest| < |actors|
    ensures actor !in actors ==> rest == actors
  {
    if actors == [] then []
    else
      var init := Without(actors[..|actors| - 1], actor);
      var last := actors[|actors| - 1];
      assert actors == actors[..|actors| - 1] + [last];
      if last == actor then init else init + [last]
  }

  /** The panel state the extension reads and changes. `userMenu` stands for
      the module-level cache of extension.js, the rest for the host panel. */
  class Panel {
    var rightBox: seq<ActorId>       // the children of the right box
    const statusUserMenu: Indicator  // the user menu in the panel's status area
    var userMenu: Option<Indicator>  // the cache, `null` at load time

    ghost predicate Valid()
      reads this
    {
      userMenu.Some? ==> userMenu.value == statusUserMenu
    }

    /** `getUserMenu()` would return a user menu. */
    ghost predicate FindsUserMenu()
      reads this
    {
      userMenu.Some? || statusUserMenu.actor in rightBox
    }

    constructor (children: seq<ActorId>, indicator: Indicator)
      ensures rightBox == children && statusUserMenu == indicator && userMenu == None
      ensures Valid()
    {
      rightBox := children;
      statusUserMenu := indicator;
      userMenu := None;
    }

    /** `getUserMenu`: a cached result is returned without a scan; otherwise
        the right box is scanned from its last child to its first, and a hit
        is cached. A miss is not cached. */
    method GetUserMenu() returns (r: Option<Indicator>)
      requires Valid()
      modifies this`userMenu
      ensures Valid()
      ensures old(userMenu).Some? ==> r == old(userMenu) && userMenu == old(userMenu)
      ensures old(userMenu).None? ==>
        userMenu == r && (r.Some? <==> statusUserMenu.actor in rightBox)
      ensures r.Some? ==> r.value == statusUserMenu
    {
      if userMenu.Some? {
        return userMenu;
      }
      var children := rightBox;
      var i := |children| - 1;
      while i >= 0
        invariant -1 <= i < |children|
        invariant statusUserMenu.actor !in children[i + 1..]
        invariant userMenu.None?
      {
        if statusUserMenu.actor == children[i] {
          userMenu := Some(statusUserMenu);
          break;
        }
        assert children[i..] == [children[i]] + children[i + 1..];
        i := i - 1;
      }
      assert userMenu.None? ==> children[0..] == children;
      return userMenu;
    }

    method RemoveActor(actor: ActorId)
      modifies this`rightBox
      ensures rightBox == Without(old(rightBox), actor)
    {
      rightBox := Without(rightBox, actor);
    }
  }

  /** The items `createSessionItems` appends, in order. */
  const SessionItems: seq<MenuItem> :=
    [Separator,
     Item("Lock Screen", LockScreen),
     Item("Switch User", LoginScreen),
     Item("Log Out...", QuitSession),
     Separator,
     Item("Power Off...", SuspendOrPowerOff)]

  /** `createSessionItems(menu)`. Its first use of `getUserMenu()` throws when
      that returns `null`; otherwise the user menu leaves the right box and
      the session items are appended. */
  method CreateSessionItems(menu: PopupMenu, panel: Panel) returns (r: Result<(), BuildError>)
    requires panel.Valid()
    modifies menu, panel
    ensures panel.Valid()
    ensures !old(panel.FindsUserMenu()) ==>
      r == Failure(UserMenuNull) && menu.items == old(menu.items) && unchanged(panel)
    ensures old(panel.FindsUserMenu()) ==>
      r == Success(()) && menu.items == old(menu.items) + SessionItems &&
      panel.userMenu == Some(panel.statusUserMenu) &&
      panel.rightBox == Without(old(panel.rightBox), panel.statusUserMenu.actor)
  {
    // updateShutdownMenuItem
    var shutdownOwner := panel.GetUserMenu();
    if shutdownOwner.None? {
      return Failure(UserMenuNull);
    }
    // removeUserMenu
    var removed := panel.GetUserMenu();
    panel.RemoveActor(removed.value.actor);
    var userMenu := panel.GetUserMenu();
    menu.AddMenuItem(Separator);
    menu.AddMenuItem(Item("Lock Screen", LockScreen));
    menu.AddMenuItem(Item("Switch User", LoginScreen));
    menu.AddMenuItem(Item("Log Out...", QuitSession));
    menu.AddMenuItem(Separator);
    menu.AddMenuItem(Item("Power Off...", SuspendOrPowerOff));
    return Success(());
  }

  class ApplicationsMenuButton {
    const menu: PopupMenu

    /** The button with its empty menu; `_init` goes on with BuildMenu. */
    constructor ()
      ensures fresh(menu) && menu.items == []
    {
      menu := new PopupMenu();
    }

    /** `_buildMenu`: the category submenus, then the session items. */
    method BuildMenu(root: seq<TreeItem>, panel: Panel) returns (r: Result<(), BuildError>)
      requires panel.Valid()
      modifies menu, panel
      ensures panel.Valid()
      ensures BuildFails(root, false) ==>
        r == Failure(AppListUndefined) && menu.items == old(menu.items) && unchanged(panel)
      ensures !BuildFails(root, false) && !old(panel.FindsUserMenu()) ==>
        r == Failure(UserMenuNull) && menu.items == old(menu.items) + CategoryMenu(root) && unchanged(panel)
      ensures !BuildFails(root, false) && old(panel.FindsUserMenu()) ==>
        r == Success(()) && menu.items == old(menu.items) + CategoryMenu(root) + SessionItems &&
        panel.userMenu == Some(panel.statusUserMenu) &&
        panel.rightBox == Without(old(panel.rightBox), panel.statusUserMenu.actor)
    {
      var view := NewAppViewByCategories(Bool(false), root);
      if view.Failure? {
        return Failure(view.error);
      }
      var v := view.value;
      AddCategorySubMenus(menu, v);
      r := CreateSessionItems(menu, panel);
    }

    /** `_rebuildMenu`: the menu is emptied, then built afresh. */
    method RebuildMenu(root: seq<TreeItem>, panel: Panel) returns (r: Result<(), BuildError>)
      requires panel.Valid()
      modifies menu, panel
      ensures panel.Valid()
      ensures BuildFails(root, false) ==>
        r == Failure(AppListUndefined) && menu.items == [] && unchanged(panel)
      ensures !BuildFails(root, false) && !old(panel.FindsUserMenu()) ==>
        r == Failure(UserMenuNull) && menu.items == CategoryMenu(root) && unchanged(panel)
      ensures !BuildFails(root, false) && old(panel.FindsUserMenu()) ==>
        r == Success(()) && menu.items == CategoryMenu(root) + SessionItems &&
        panel.userMenu == Some(panel.statusUserMenu) &&
        panel.rightBox == Without(old(panel.rightBox), panel.statusUserMenu.actor)
    {
      menu.RemoveAll();
      r := BuildMenu(root, panel);
    }
  }

  /** The button is built at start-up and rebuilt on every change of the
      installed applications: once a build has found the user menu and taken it
      out of the right box, every rebuild still finds it, through the cache,
      and shows the same layout as a fresh build. */
  method InstalledChanged(button: ApplicationsMenuButton, root: seq<TreeItem>, changed: seq<TreeItem>, panel: Panel)
    returns (first: Result<(), BuildError>, again: Result<(), BuildError>)
    requires panel.Valid()
    modifies button.menu, panel
    ensures first.Success? <==> !BuildFails(root, false) && old(panel.FindsUserMenu())
    ensures first.Failure? ==> again == first
    ensures first.Success? && !BuildFails(changed, false) ==>
      again.Success? && button.menu.items == CategoryMenu(changed) + SessionItems &&
      panel.statusUserMenu.actor !in panel.rightBox
  {
    first := button.BuildMenu(root, panel);
    if first.Failure? {
      // `_init` throws before it connects the handler: there is no rebuild.
      again := first;
      return;
    }
    again := button.RebuildMenu(changed, panel);
  }
}
