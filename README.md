# Applications menu extension: a Dafny model

The extension replaces the desktop shell's "Activities" button with an
applications menu. It builds the menu from the host's application tree. It
also patches the end-session dialog with Suspend and Hibernate buttons. This
project models the logic of two revisions of `extension.js`, the root
revision and the `src/` revision:

- **Category index** (`AppViewByCategories`, module `AppView`). The host tree
  is a value: `Directory(name, items) | Entry(app, nodisplay) | Other`. Each
  directory at the top of the root becomes a category, in iteration order.
  Its direct entries are listed when `showAll` is set or the entry is not
  `nodisplay`. Root-level entries and other items are skipped. A repeated name
  is listed twice, and the last list stored under it wins.
  The recursive call for a nested directory passes no list. Its entries
  therefore never reach the enclosing category: a shown nested entry makes
  `appList.push` throw, and the whole build fails (`Failure(AppListUndefined)`).
  A nested directory with only hidden entries changes nothing. Nested
  entries are not flattened into the enclosing category
  (`NestedChatEntryFails`).
- **Menu layout** (module `Menu`, shared by both buttons). There is one
  submenu per category, in category order. Each app is inserted at position
  0, so a submenu shows its apps in reverse order.
- **Root revision** (module `RootExtension`). The session items follow the
  submenus in a fixed order. They are bound to the user menu, which
  `getUserMenu` finds by scanning the panel's right box from its last child to
  its first, and then caches. If no user menu is found, `createSessionItems`
  throws (`Failure(UserMenuNull)`) after the submenus were added. Building
  the menu removes the user menu from the right box, so the cache is what lets
  every later rebuild find it again (`InstalledChanged`).
- **Src revision** (module `SrcExtension`). The menu has no session items,
  because that call is commented out. A submenu needs a scrollbar when it
  holds more than 10 items.
- **End-session buttons** (module `EndSession`, shared). `_updateButtons` is
  a rule from the dialog content and the power client to an ordered button
  list:
  - Suspend and Hibernate appear only when the client exists and reports the
    capability.
  - Every other secondary button always appears, in its given order.
  - Cancel, bound to Escape, comes next.
  - The confirm buttons follow.

The two revisions share `AppViewByCategories` and the `_updateButtons` rule.
They differ in three places. The root revision wraps each app in a forwarding
`AppInfoWrapper`, which is modelled as the app itself. The root index also gets
its app system from the module's `AppSystem.get_default()`, a singleton
forwarding `AppSystemWrapper`, where the src index calls
`Shell.AppSystem.get_default()` directly; both are modelled as the identity
(the tree is an input). The two copies of `_updateButtons` read the power
client and the screen-saver proxy from different objects: the root copy from
`getUserMenu()`, the src copy from `Main.panel._statusmenu`. The client is the
parameter `up` of `UpdateButtons`; the proxy is used only by the left-out
suspend and hibernate handlers. Otherwise the copies are the same, so each shared member has
one row below, which cites one of the two copies. The copies are: root lines 118-173 and src lines 41-94 for the
index, and root lines 394-440 and src lines 309-355 for the button rule.
`ShowAllOption` is line 120 of the root file and line 43 of the src file.

The tree, the panel's right box and the power client's capabilities are
parameters. Host widgets are plain values: `PopupMenu` is a class whose
`items` sequence `addMenuItem` extends and `removeAll` clears.

## Model

| member | source | states |
|---|---|---|
| `AppView.ShowAllOption` | Applications_Menu@rmy.pobox.com/extension.js:120 | `showAll` is true iff the argument is the boolean `true`. Any non-boolean, and `false`, gives false |
| `AppView.AppViewByCategories.constructor` | Applications_Menu@rmy.pobox.com/extension.js:119-122 | `showAll` is the normalised option; the index starts with no categories and no lists |
| `AppView.AppViewByCategories.GetCategories` | Applications_Menu@rmy.pobox.com/extension.js:127-129 | In a valid index, `get_applications` is defined for every category it returns |
| `AppView.AppViewByCategories.GetApplications` | Applications_Menu@rmy.pobox.com/extension.js:131-133 | Defined exactly for a name with a stored list, and then it is that list; `undefined` otherwise |
| `AppView.AppViewByCategories.LoadCategories` | Applications_Menu@rmy.pobox.com/extension.js:135-153 | Succeeds iff no category directory holds a shown entry inside a sub-directory. On success it appends the directory names in iteration order and stores each directory's list under its name, later directories overwriting earlier ones |
| `AppView.AppViewByCategories.LoadApplications` | Applications_Menu@rmy.pobox.com/extension.js:155-172 | Given a list: fails iff a nested directory holds a shown entry, else returns the list extended by the shown direct entries in order. Given no list: fails iff any entry at any depth is shown, else returns no list |
| `AppView.NewAppViewByCategories` | src/Applications_Menu@rmy.pobox.com/extension.js:42-48 | Construction fails exactly when loading fails. Otherwise it yields a fresh index whose categories are the directory names and whose lists are the category index |
| `AppView.DirectAppsAppend` | src/Applications_Menu@rmy.pobox.com/extension.js:83-88 | The listed apps of a concatenation are those of its parts, in order, so iteration order is kept |
| `AppView.DirectAppsMembers` | Applications_Menu@rmy.pobox.com/extension.js:160-167 | An app is listed iff it comes from a direct entry with `showAll` set or `nodisplay` false |
| `AppView.NestedDirectoryNotFlattened` | src/Applications_Menu@rmy.pobox.com/extension.js:89-90 | A sub-directory contributes nothing to the enclosing category's list |
| `AppView.CategoryNamesAppend` | src/Applications_Menu@rmy.pobox.com/extension.js:66-75 | The category names of a concatenation are those of its parts, in iteration order |
| `AppView.CategoryNamesMembers` | Applications_Menu@rmy.pobox.com/extension.js:143-151 | A name is a category iff some root item is a directory of that name. Root-level entries and other items give none |
| `AppView.IndexFromKeys` | Applications_Menu@rmy.pobox.com/extension.js:149-150 | A name has a stored list iff it was already stored or is a category name |
| `AppView.CategoryIndexLastWins` | Applications_Menu@rmy.pobox.com/extension.js:131-133 | `get_applications` of a repeated name returns the list of the last directory of that name |
| `AppView.EmptyCategoryListed` | src/Applications_Menu@rmy.pobox.com/extension.js:68-73 | If the last directory of a name has no shown direct entry, the name is still a category and its list is empty |
| `AppView.BuildFailsWitness` | Applications_Menu@rmy.pobox.com/extension.js:168-169 | The build fails iff some category directory has a sub-directory holding a shown entry at some depth |
| `AppView.ShownNestedEntryFails` | Applications_Menu@rmy.pobox.com/extension.js:165-169 | A shown entry below a sub-directory of a category makes the build fail |
| `AppView.HiddenNestedDirectoryIgnored` | src/Applications_Menu@rmy.pobox.com/extension.js:78-93 | Inserting a sub-directory whose entries are all hidden into a category changes neither failure, names nor lists |
| `AppView.InternetAndGames` | Applications_Menu@rmy.pobox.com/extension.js:143-167 | Internet [A, B hidden] and Games [C] give ["Internet", "Games"] with Internet = [A] and Games = [C]; with `showAll`, Internet = [A, B] |
| `AppView.NestedChatEntryFails` | src/Applications_Menu@rmy.pobox.com/extension.js:83-90 | Internet containing Chat containing a shown X: X is not in Internet's own list, and the build fails |
| `Menu.ReversedAt` | Applications_Menu@rmy.pobox.com/extension.js:243-248 | Inserting each app at position 0 shows the k-th app from the end at position k |
| `Menu.CategorySubMenusAt` | src/Applications_Menu@rmy.pobox.com/extension.js:152-166 | There is one submenu per category, in category order. Submenu k is labelled with category k and shows its list reversed |
| `Menu.AddCategorySubMenus` | Applications_Menu@rmy.pobox.com/extension.js:235-249 | It appends exactly one submenu per category of the index, in order, each holding the list `get_applications` returns, filled by index-0 insertion |
| `Menu.SubMenuOfLastDirectory` | Applications_Menu@rmy.pobox.com/extension.js:237-238 | Every submenu for a name shows, reversed, the shown entries of the last directory of that name |
| `RootExtension.Panel.GetUserMenu` | Applications_Menu@rmy.pobox.com/extension.js:271-287 | A cached result is returned without a scan. Otherwise the result is non-null iff the indicator's actor is among the right box's children. A hit is cached and a miss is not |
| `RootExtension.Without` | Applications_Menu@rmy.pobox.com/extension.js:447-449 | The children other than the actor all stay; a present actor shortens the list, an absent one leaves it unchanged |
| `RootExtension.Panel.RemoveActor` | Applications_Menu@rmy.pobox.com/extension.js:447-449 | The right box becomes its children without the user menu's actor |
| `RootExtension.CreateSessionItems` | Applications_Menu@rmy.pobox.com/extension.js:299-329 | With no user menu it throws and changes nothing. Otherwise it appends separator, Lock Screen, Switch User, Log Out..., separator, Power Off..., caches the user menu and removes its actor from the right box |
| `RootExtension.ApplicationsMenuButton.BuildMenu` | Applications_Menu@rmy.pobox.com/extension.js:230-252 | A failing index leaves the menu unchanged. Otherwise the category submenus and then the session items are appended; a missing user menu stops after the submenus |
| `RootExtension.ApplicationsMenuButton.RebuildMenu` | Applications_Menu@rmy.pobox.com/extension.js:254-257 | The resulting menu does not depend on what it held before: it equals a fresh build |
| `RootExtension.InstalledChanged` | Applications_Menu@rmy.pobox.com/extension.js:222-224 | The first build succeeds iff the tree loads and a user menu is found. If it fails, `_init` throws before the handler is connected and there is no rebuild. After a successful build, a rebuild on a loadable tree succeeds with the session items, although the user menu has left the right box |
| `SrcExtension.NeedsScrollbar` | src/Applications_Menu@rmy.pobox.com/extension.js:205-208 | A submenu needs a scrollbar iff it holds more than 10 items |
| `SrcExtension.ScrollbarIffMoreThanTenApps` | src/Applications_Menu@rmy.pobox.com/extension.js:205-208 | A category's submenu needs a scrollbar iff the category lists more than 10 apps |
| `SrcExtension.ApplicationsMenuButton.BuildMenu` | src/Applications_Menu@rmy.pobox.com/extension.js:147-169 | A failing index leaves the menu unchanged. Otherwise only the category submenus are appended, with no session items |
| `SrcExtension.ApplicationsMenuButton.RebuildMenu` | src/Applications_Menu@rmy.pobox.com/extension.js:171-174 | The menu becomes exactly the category menu of the tree, so a rebuild on an unchanged tree is idempotent |
| `EndSession.UpdateButtons` | Applications_Menu@rmy.pobox.com/extension.js:394-440 | The result is the filtered secondaries, then Cancel, then the confirm buttons. Missing secondaries give Cancel and the confirm buttons |
| `EndSession.SecondaryButtonsAppend` | src/Applications_Menu@rmy.pobox.com/extension.js:315-339 | The secondary buttons keep the order of their entries |
| `EndSession.PowerButtonsIff` | Applications_Menu@rmy.pobox.com/extension.js:405-416 | A Suspend (Hibernate) button is shown iff the client exists, reports the capability, and the entry is listed |
| `EndSession.OtherSecondariesAlwaysShown` | Applications_Menu@rmy.pobox.com/extension.js:400-423 | In any list of secondary entries, mixed or not, the Confirm buttons shown are exactly those of the entries other than Suspend and Hibernate, in order, whatever the client reports |
| `EndSession.SecondaryNonConfirmsArePower` | Applications_Menu@rmy.pobox.com/extension.js:405-416 | Every secondary button that does not confirm a signal is a Suspend or Hibernate button |
| `EndSession.ConfirmButtonsAt` | Applications_Menu@rmy.pobox.com/extension.js:430-437 | Every confirm entry yields its button, in the entries' order |
| `EndSession.CancelBetween` | src/Applications_Menu@rmy.pobox.com/extension.js:341-343 | Cancel sits right after the secondaries and right before the confirm buttons. It is the only Cancel and the only button bound to Escape |
| `EndSession.ShutdownDialogButtons` | Applications_Menu@rmy.pobox.com/extension.js:356-363 | With the installed shutdown content the buttons are [Suspend?, Hibernate?, Restart, Cancel, Power Off] |

## Left out

- Widgets are not modelled: St actors, labels, icon textures, the
  `ApplicationMenuItem` activate handler, and panel actor removal and
  insertion in `main`. They carry no logic beyond item order.
- `_themeChanged` is left out, because it is stylesheet file I/O on the host.
- `_onSuspend` and `_onHibernate` are left out, because they are D-Bus and
  host calls. Only the button that selects them is modelled.
- The monkey-patching itself is not modelled: the prototype overrides, the
  `DialogContent[1]` assignment, and `updateShutdownMenuItem`'s relabelling.
  The installed content is the constant `ShutdownDialogContent`, and the
  rule is `UpdateButtons`. In `createSessionItems` only the `getUserMenu`
  calls of these helpers are kept, since they decide whether it throws.
- `removeUserMenu` is modelled: it removes every occurrence of the actor from
  the right box. A host container holds each child once.
- Gettext translation is not modelled: labels are the untranslated strings.
- The application system and its wrappers are not modelled. The tree is an
  input, each entry carries the app that `lookup_app_by_tree_entry` returns,
  and `AppSystemWrapper` and `AppInfoWrapper` are identity forwarders.
- AppView.AppViewByCategories.LoadCategories: does not state the fields after
  a failure. The throwing constructor discards the object, so no caller sees
  them.
- Menu.AddCategorySubMenus: adds each submenu once it is filled. The source
  adds it first and then inserts into it, but nothing reads the menu in
  between.
- `_applications` is a plain JavaScript object, and this is not modelled.
  Looking up a missing name that an object inherits (such as `constructor`)
  would return that inherited value; the model returns `None`.
- `Main.panel._statusArea['userMenu']` is assumed to exist. It is the const
  `statusUserMenu`.
- In the end-session dialog, `confirmButtons` is assumed present in every
  content. Storing the client and proxy on the dialog and calling
  `setButtons` are host effects, and are not modelled.
- `ApplicationsMenuButton._init` is the empty-menu constructor followed by a
  call of `BuildMenu`. Its signal connections are host wiring;
  `InstalledChanged` models the installed-changed connection.
- In the src revision, `createSessionItems`, `updateShutdownMenuItem`,
  `updateEndSessionDialog` and `removeStatusMenu` are not modelled. They are
  dead code there, because the only call of `createSessionItems` is commented
  out, and the others are called only from it. This makes the src copy of
  `_updateButtons`, which `updateEndSessionDialog` installs, dead code too;
  `UpdateButtons` models the root copy, which is live.
- The root revision leaves the submenu scrollbar rule to the host, so it is
  not modelled there.
- Dead code is not modelled: the unused constants, `lastOpened`, the
  commented-out `get_section`, and the commented-out submenu auto-close block.
