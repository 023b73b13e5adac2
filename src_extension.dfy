/** The src revision of the extension: the applications menu button without
    session items, whose submenus want a scrollbar past ten items. */
module SrcExtension {
  import opened Results
  import opened AppView
  import opened Menu

  const ScrollbarThreshold := 10

  /** The `_needsScrollbar` override installed by `createPopupSubMenuMenuItem`. */
  function NeedsScrollbar(submenu: MenuItem): (needs: bool)
    requires submenu.SubMenu?
    ensures needs <==> |submenu.apps| > ScrollbarThreshold
  {
    |submenu.apps| > ScrollbarThreshold
  }

  /** A category's submenu wants a scrollbar iff more than ten of its
      direct entries are shown. */
  lemma ScrollbarIffMoreThanTenApps(root: seq<TreeItem>, k: nat)
    requires k < |CategoryNames(root)|
    ensures |CategoryMenu(root)| == |CategoryNames(root)|
    ensures CategoryMenu(root)[k].SubMenu?
    ensures CategoryNames(root)[k] in CategoryIndex(root, false)
    ensures NeedsScrollbar(CategoryMenu(root)[k]) <==>
      |CategoryIndex(root, false)[CategoryNames(root)[k]]| > 10
  {
    CategoryIndexCovers(root, false);
    CategorySubMenusAt(CategoryNames(root), CategoryIndex(root, false), k);
    ReversedLength(CategoryIndex(root, false)[CategoryNames(root)[k]]);
  }

  class ApplicationsMenuButton {
    const menu: PopupMenu

    /** The button with its empty menu; `_init` goes on with BuildMenu. */
    constructor ()
      ensures fresh(menu) && menu.items == []
    {
      menu := new PopupMenu();
    }

    /** `_buildMenu`: the category submenus only (the session items are not added). */
    method BuildMenu(root: seq<TreeItem>) returns (r: Result<(), BuildError>)
      modifies menu
      ensures BuildFails(root, false) ==> r == Failure(AppListUndefined) && menu.items == old(menu.items)
      ensures !BuildFails(root, false) ==> r == Success(()) && menu.items == old(menu.items) + CategoryMenu(root)
    {
      var view := NewAppViewByCategories(Bool(false), root);
      if view.Failure? {
        return Failure(view.error);
      }
      var v := view.value;
      AddCategorySubMenus(menu, v);
      return Success(());
    }

    /** `_rebuildMenu`: the result does not depend on what the menu held, so a
        rebuild on an unchanged tree changes nothing. */
    method RebuildMenu(root: seq<TreeItem>) returns (r: Result<(), BuildError>)
      modifies menu
      ensures BuildFails(root, false) ==> r == Failure(AppListUndefined) && menu.items == []
      ensures !BuildFails(root, false) ==> r == Success(()) && menu.items == CategoryMenu(root)
    {
      menu.RemoveAll();
      r := BuildMenu(root);
    }
  }
}
