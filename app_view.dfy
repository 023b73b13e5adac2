/** The category index of the applications menu: `AppViewByCategories`.
    The application tree of the host is given as a value; an application is
    an opaque id (the wrapper objects only forward to it). */
module AppView {
  import opened Results

  type AppId = string

  /** One item yielded by a directory iterator of the application tree. */
  datatype TreeItem =
    | Directory(name: string, items: seq<TreeItem>)
    | Entry(app: AppId, nodisplay: bool)
    | Other  // separators, headers, aliases: skipped everywhere

  /** A JavaScript value passed as the `showAll` argument. */
  datatype JsValue = Undefined | Null | Bool(b: bool) | Number(n: int) | Str(s: string) | Object

  /** The `showAll` option: a boolean argument is taken as given, any other
      value counts as false. */
  function ShowAllOption(arg: JsValue): (showAll: bool)
    ensures showAll <==> arg == Bool(true)
  {
    match arg
    case Bool(b) => b
    case _ => false
  }

  /** The apps that `item`, seen directly in a category, adds to that category's list. */
  function Kept(item: TreeItem, showAll: bool): (r: seq<AppId>) {
    if item.Entry? && (showAll || !item.nodisplay) then [item.app] else []
  }

  /** The apps of the direct entries of a directory that are listed, in iteration order. */
  function DirectApps(items: seq<TreeItem>, showAll: bool): (r: seq<AppId>) {
    if items == [] then []
    else DirectApps(items[..|items| - 1], showAll) + Kept(items[|items| - 1], showAll)
  }

  /** `item` is, or contains at any depth, an entry that would be pushed. */
  predicate HasShownEntry(item: TreeItem, showAll: bool) {
    match item
    case Entry(_, nodisplay) => showAll || !nodisplay
    case Directory(_, items) => exists it | it in items :: HasShownEntry(it, showAll)
    case Other => false
  }

  /** Some item of `items` holds an entry that would be pushed. */
  predicate AnyShown(items: seq<TreeItem>, showAll: bool) {
    exists it | it in items :: HasShownEntry(it, showAll)
  }

  /** Some sub-directory among `items` holds an entry that would be pushed. */
  predicate NestedShown(items: seq<TreeItem>, showAll: bool) {
    exists it | it in items :: it.Directory? && HasShownEntry(it, showAll)
  }

  /** Loading the categories of the root items throws. */
  predicate BuildFails(root: seq<TreeItem>, showAll: bool) {
    root != [] &&
    (BuildFails(root[..|root| - 1], showAll) ||
     (root[|root| - 1].Directory? && NestedShown(root[|root| - 1].items, showAll)))
  }

  /** A build that fails on a prefix of the root items fails on all of them. */
  lemma {:induction false} BuildFailsPrefix(root: seq<TreeItem>, k: nat, showAll: bool)
    requires k <= |root| && BuildFails(root[..k], showAll)
    ensures BuildFails(root, showAll)
  {
    if k < |root| {
      assert root[..|root| - 1][..k] == root[..k];
      BuildFailsPrefix(root[..|root| - 1], k, showAll);
    } else {
      assert root[..k] == root;
    }
  }

  /** The names of the directories among the root items, in iteration order. */
  function CategoryNames(root: seq<TreeItem>): (r: seq<string>) {
    if root == [] then []
    else
      var last := root[|root| - 1];
      CategoryNames(root[..|root| - 1]) + (if last.Directory? then [last.name] else [])
  }

  /** `m` after storing each directory's list under its name, in iteration order. */
  function IndexFrom(m: map<string, seq<AppId>>, root: seq<TreeItem>, showAll: bool): (r: map<string, seq<AppId>>) {
    if root == [] then m
    else
      var last := root[|root| - 1];
      var before := IndexFrom(m, root[..|root| - 1], showAll);
      if last.Directory? then before[last.name := DirectApps(last.items, showAll)] else before
  }

  function CategoryIndex(root: seq<TreeItem>, showAll: bool): (r: map<string, seq<AppId>>) {
    IndexFrom(map[], root, showAll)
  }

  // Properties of the category index.

  /** Listing is compositional: a directory's list is the lists of its parts, in order. */
  lemma {:induction false} DirectAppsAppend(s: seq<TreeItem>, t: seq<TreeItem>, showAll: bool)
    ensures DirectApps(s + t, showAll) == DirectApps(s, showAll) + DirectApps(t, showAll)
  {
    if t == [] {
      assert s + t == s;
    } else {
      assert (s + t)[..|s + t| - 1] == s + t[..|t| - 1];
      DirectAppsAppend(s, t[..|t| - 1], showAll);
    }
  }

  /** An app is listed iff it comes from a direct entry that is shown. */
  lemma {:induction false} DirectAppsMembers(items: seq<TreeItem>, showAll: bool, a: AppId)
    ensures a in DirectApps(items, showAll) <==>
      exists it | it in items :: it.Entry? && it.app == a && (showAll || !it.nodisplay)
  {
    if items != [] {
      var init := items[..|items| - 1];
      DirectAppsMembers(init, showAll, a);
      assert items == init + [items[|items| - 1]];
    }
  }

  /** Entries inside a nested directory never reach the enclosing category's list. */
  lemma NestedDirectoryNotFlattened(s: seq<TreeItem>, d: TreeItem, t: seq<TreeItem>, showAll: bool)
    requires d.Directory?
    ensures DirectApps(s + [d] + t, showAll) == DirectApps(s + t, showAll)
  {
    DirectAppsAppend(s + [d], t, showAll);
    DirectAppsAppend(s, [d], showAll);
    DirectAppsAppend(s, t, showAll);
    assert [d][..0] == [];
  }

  /** The category names are compositional over the root items. */
  lemma {:induction false} CategoryNamesAppend(s: seq<TreeItem>, t: seq<TreeItem>)
    ensures CategoryNames(s + t) == CategoryNames(s) + CategoryNames(t)
  {
    if t == [] {
      assert s + t == s;
    } else {
      assert (s + t)[..|s + t| - 1] == s + t[..|t| - 1];
      CategoryNamesAppend(s, t[..|t| - 1]);
    }
  }

  /** A name is a category iff some root item is a directory of that name. */
  lemma {:induction false} CategoryNamesMembers(root: seq<TreeItem>, c: string)
    ensures c in CategoryNames(root) <==> exists it | it in root :: it.Directory? && it.name == c
  {
    if root != [] {
      var init := root[..|root| - 1];
      CategoryNamesMembers(init, c);
      assert root == init + [root[|root| - 1]];
    }
  }

  /** The index has a list under exactly the old keys and the category names. */
  lemma {:induction false} IndexFromKeys(m: map<string, seq<AppId>>, root: seq<TreeItem>, showAll: bool, c: string)
    ensures c in IndexFrom(m, root, showAll) <==> c in m || c in CategoryNames(root)
  {
    if root != [] {
      IndexFromKeys(m, root[..|root| - 1], showAll, c);
    }
  }

  /** A name is looked up to the list of the LAST directory of that name. */
  lemma {:induction false} IndexFromLastWins(m: map<string, seq<AppId>>, root: seq<TreeItem>, j: nat, showAll: bool)
    requires j < |root| && root[j].Directory?
    requires forall k | j < k < |root| :: !(root[k].Directory? && root[k].name == root[j].name)
    ensures root[j].name in IndexFrom(m, root, showAll)
    ensures IndexFrom(m, root, showAll)[root[j].name] == DirectApps(root[j].items, showAll)
  {
    if j < |root| - 1 {
      IndexFromLastWins(m, root[..|root| - 1], j, showAll);
    }
  }

  /** `get_applications` of a category returns the list of its last directory. */
  lemma CategoryIndexLastWins(root: seq<TreeItem>, j: nat, showAll: bool)
    requires j < |root| && root[j].Directory?
    requires forall k | j < k < |root| :: !(root[k].Directory? && root[k].name == root[j].name)
    ensures root[j].name in CategoryNames(root)
    ensures root[j].name in CategoryIndex(root, showAll)
    ensures CategoryIndex(root, showAll)[root[j].name] == DirectApps(root[j].items, showAll)
  {
    CategoryNamesMembers(root, root[j].name);
    assert root[j] in root;
    IndexFromLastWins(map[], root, j, showAll);
  }

  /** A directory without a shown direct entry is still a category, with an empty list. */
  lemma EmptyCategoryListed(root: seq<TreeItem>, j: nat, showAll: bool)
    requires j < |root| && root[j].Directory?
    requires forall k | j < k < |root| :: !(root[k].Directory? && root[k].name == root[j].name)
    requires forall it | it in root[j].items :: !(it.Entry? && (showAll || !it.nodisplay))
    ensures root[j].name in CategoryNames(root) && root[j].name in CategoryIndex(root, showAll)
    ensures CategoryIndex(root, showAll)[root[j].name] == []
  {
    CategoryIndexLastWins(root, j, showAll);
    var apps := DirectApps(root[j].items, showAll);
    if apps != [] {
      DirectAppsMembers(root[j].items, showAll, apps[0]);
      assert false;
    }
  }

  /** The build fails iff some category directory holds a shown entry inside a sub-directory. */
  lemma {:induction false} BuildFailsWitness(root: seq<TreeItem>, showAll: bool)
    ensures BuildFails(root, showAll) <==>
      exists it | it in root :: it.Directory? && NestedShown(it.items, showAll)
  {
    if root != [] {
      var init := root[..|root| - 1];
      BuildFailsWitness(init, showAll);
      assert root == init + [root[|root| - 1]];
    }
  }

  /** A shown entry at any depth below a sub-directory of a category makes the build fail. */
  lemma ShownNestedEntryFails(root: seq<TreeItem>, j: nat, k: nat, showAll: bool)
    requires j < |root| && root[j].Directory?
    requires k < |root[j].items| && root[j].items[k].Directory?
    requires AnyShown(root[j].items[k].items, showAll)
    ensures BuildFails(root, showAll)
  {
    assert root[j].items[k] in root[j].items;
    assert root[j] in root;
    BuildFailsWitness(root, showAll);
  }

  /** Two root items that load to the same category (or both to none). */
  predicate SameCategory(a: TreeItem, b: TreeItem, showAll: bool) {
    a.Directory? == b.Directory? &&
    (a.Directory? ==>
      a.name == b.name &&
      DirectApps(a.items, showAll) == DirectApps(b.items, showAll) &&
      NestedShown(a.items, showAll) == NestedShown(b.items, showAll))
  }

  /** Root item lists that agree item by item load to the same outcome. */
  lemma {:induction false} BuildCongruent(r1: seq<TreeItem>, r2: seq<TreeItem>, m: map<string, seq<AppId>>, showAll: bool)
    requires |r1| == |r2|
    requires forall k | 0 <= k < |r1| :: SameCategory(r1[k], r2[k], showAll)
    ensures BuildFails(r1, showAll) == BuildFails(r2, showAll)
    ensures CategoryNames(r1) == CategoryNames(r2)
    ensures IndexFrom(m, r1, showAll) == IndexFrom(m, r2, showAll)
  {
    if r1 != [] {
      var n := |r1| - 1;
      assert SameCategory(r1[n], r2[n], showAll);
      BuildCongruent(r1[..n], r2[..n], m, showAll);
    }
  }

  /** A nested directory whose entries are all hidden leaves the build unchanged. */
  lemma HiddenNestedDirectoryIgnored(
    root: seq<TreeItem>, j: nat, name: string, s: seq<TreeItem>, sub: TreeItem, t: seq<TreeItem>, showAll: bool)
    requires j < |root| && sub.Directory? && !AnyShown(sub.items, showAll)
    ensures var with := root[j := Directory(name, s + [sub] + t)];
            var without := root[j := Directory(name, s + t)];
            BuildFails(with, showAll) == BuildFails(without, showAll) &&
            CategoryNames(with) == CategoryNames(without) &&
            CategoryIndex(with, showAll) == CategoryIndex(without, showAll)
  {
    var with := root[j := Directory(name, s + [sub] + t)];
    var without := root[j := Directory(name, s + t)];
    NestedDirectoryNotFlattened(s, sub, t, showAll);
    assert NestedShown(s + [sub] + t, showAll) == NestedShown(s + t, showAll) by {
      assert forall it :: it in s + [sub] + t <==> it in s + t || it == sub;
    }
    assert SameCategory(with[j], without[j], showAll);
    BuildCongruent(with, without, map[], showAll);
  }

  /** With `showAll` false, Internet = [A (shown), B (hidden)] and Games = [C]
      give two categories in order, B left out; with `showAll` true B is listed. */
  lemma InternetAndGames()
    ensures var root := [Directory("Internet", [Entry("A", false), Entry("B", true)]),
                         Directory("Games", [Entry("C", false)])];
            !BuildFails(root, false) &&
            CategoryNames(root) == ["Internet", "Games"] &&
            CategoryIndex(root, false) == map["Internet" := ["A"], "Games" := ["C"]] &&
            CategoryIndex(root, true)["Internet"] == ["A", "B"]
  {
    var internet := [Entry("A", false), Entry("B", true)];
    assert internet[..1] == [Entry("A", false)];
    assert DirectApps(internet, false) == ["A"];
    assert DirectApps(internet, true) == ["A", "B"];
    assert DirectApps([Entry("C", false)], false) == ["C"];
    var root := [Directory("Internet", internet), Directory("Games", [Entry("C", false)])];
    assert root[..1] == [root[0]] && root[..1][..0] == [];
    assert IndexFrom(map[], root[..1], false) == map[]["Internet" := DirectApps(internet, false)];
    assert IndexFrom(map[], root, false) ==
      map[]["Internet" := DirectApps(internet, false)]["Games" := DirectApps([Entry("C", false)], false)];
  }

  /** An entry in a sub-directory of a category is not in the category's own
      list, and the build fails. */
  lemma NestedChatEntryFails()
    ensures "X" !in DirectApps([Directory("Chat", [Entry("X", false)])], false)
    ensures BuildFails([Directory("Internet", [Directory("Chat", [Entry("X", false)])])], false)
  {
    var internet := [Directory("Chat", [Entry("X", false)])];
    assert internet[..0] == [];
    var root := [Directory("Internet", internet)];
    assert root[0].items[0].items[0] in root[0].items[0].items;
    ShownNestedEntryFails(root, 0, 0, false);
  }

  class AppViewByCategories {
    const showAll: bool
    var categories: seq<string>
    var applications: map<string, seq<AppId>>

    /** Every listed category has a list. */
    ghost predicate Valid()
      reads this
    {
      forall c | c in categories :: c in applications
    }

    /** The field initialisation of `_init`; loading follows in NewAppViewByCategories. */
    constructor (arg: JsValue)
      ensures showAll == ShowAllOption(arg) && categories == [] && applications == map[]
      ensures Valid()
    {
      showAll := ShowAllOption(arg);
      categories := [];
      applications := map[];
    }

    /** `get_categories`: the category names, each of which has a list in a
        valid index. */
    function GetCategories(): (r: seq<string>)
      reads this
      ensures Valid() ==> forall c | c in r :: GetApplications(c).Some?
    {
      categories
    }

    /** `get_applications`: the list stored under `category`, or `None`
        (JavaScript's `undefined`) for a name that has none. */
    function GetApplications(category: string): (r: Option<seq<AppId>>)
      reads this
      ensures r.Some? <==> category in applications
      ensures r.Some? ==> r.value == applications[category]
    {
      if category in applications then Some(applications[category]) else None
    }

    /** `_load_categories`: one category per directory among the root items. */
    method LoadCategories(root: seq<TreeItem>) returns (r: Result<(), BuildError>)
      requires Valid()
      modifies this
      ensures Valid()
      ensures r.Success? <==> !BuildFails(root, showAll)
      ensures r.Failure? ==> r.error == AppListUndefined
      ensures r.Success? ==>
        categories == old(categories) + CategoryNames(root) &&
        applications == IndexFrom(old(applications), root, showAll)
    {
      var i := 0;
      while i < |root|
        invariant 0 <= i <= |root|
        invariant Valid()
        invariant !BuildFails(root[..i], showAll)
        invariant categories == old(categories) + CategoryNames(root[..i])
        invariant applications == IndexFrom(old(applications), root[..i], showAll)
      {
        var item := root[i];
        assert root[..i + 1][..i] == root[..i];
        if item.Directory? {
          var appList := LoadApplications(item, Some([]));
          if appList.Failure? {
            assert BuildFails(root[..i + 1], showAll);
            BuildFailsPrefix(root, i + 1, showAll);
            return Failure(appList.error);
          }
          assert appList.value.value == DirectApps(item.items, showAll);
          categories := categories + [item.name];
          applications := applications[item.name := appList.value.value];
        }
        i := i + 1;
      }
      assert root[..i] == root;
      return Success(());
    }

    /** `_load_applications(dir, appList)`; `appList` is `None` for the
        recursive call, which passes no list. */
    method LoadApplications(dir: TreeItem, appList: Option<seq<AppId>>)
      returns (r: Result<Option<seq<AppId>>, BuildError>)
      requires dir.Directory?
      ensures appList.Some? ==>
        r == if NestedShown(dir.items, showAll) then Failure(AppListUndefined)
             else Success(Some(appList.value + DirectApps(dir.items, showAll)))
      ensures appList.None? ==>
        r == if AnyShown(dir.items, showAll) then Failure(AppListUndefined) else Success(None)
      decreases dir
    {
      var items := dir.items;
      var list := appList;
      var i := 0;
      assert appList.Some? ==> appList.value + DirectApps(items[..0], showAll) == appList.value;
      while i < |items|
        invariant 0 <= i <= |items|
        invariant appList.Some? ==> !NestedShown(items[..i], showAll)
        invariant appList.Some? ==> list == Some(appList.value + DirectApps(items[..i], showAll))
        invariant appList.None? ==> !AnyShown(items[..i], showAll) && list == None
      {
        var item := items[i];
        assert items[..i + 1] == items[..i] + [item];
        assert items[..i + 1][..i] == items[..i];
        assert DirectApps(items[..i + 1], showAll) == DirectApps(items[..i], showAll) + Kept(item, showAll);
        assert Kept(item, showAll) == [] ==> DirectApps(items[..i + 1], showAll) == DirectApps(items[..i], showAll);
        match item {
          case Entry(app, nodisplay) =>
            if showAll || !nodisplay {
              if list.None? {
                assert items[i] in items && HasShownEntry(items[i], showAll);
                return Failure(AppListUndefined);
              }
              assert list.value + [app] == appList.value + DirectApps(items[..i + 1], showAll);
              list := Some(list.value + [app]);
            }
          case Directory(_, _) =>
            var nested := LoadApplications(item, None);
            if nested.Failure? {
              assert items[i] in items && HasShownEntry(items[i], showAll);
              return Failure(nested.error);
            }
          case Other =>
        }
        i := i + 1;
      }
      assert items[..i] == items;
      return Success(list);
    }
  }

  /** `new AppViewByCategories(arg)`, which throws when loading throws. */
  method NewAppViewByCategories(arg: JsValue, root: seq<TreeItem>)
    returns (r: Result<AppViewByCategories, BuildError>)
    ensures r.Success? <==> !BuildFails(root, ShowAllOption(arg))
    ensures r.Failure? ==> r.error == AppListUndefined
    ensures r.Success? ==>
      fresh(r.value) && r.value.Valid() && r.value.showAll == ShowAllOption(arg) &&
      r.value.categories == CategoryNames(root) &&
      r.value.applications == CategoryIndex(root, ShowAllOption(arg))
  {
    var view := new AppViewByCategories(arg);
    var loaded := view.LoadCategories(root);
    if loaded.Failure? {
      return Failure(loaded.error);
    }
    return Success(view);
  }
}
