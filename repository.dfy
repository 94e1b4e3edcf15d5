/**
 * The launcher repository: the single stored home-screen layout (row 1 of
 * the `home_screen_layouts` table) and the edits the launcher makes to it.
 *
 * Each edit reads the stored layout, falls back to the default layout or
 * gives up when there is none, computes a new item or dock list by a pure
 * transform, and writes the result back with the DAO's `@Update`, which
 * writes only a row that already exists.
 */
module LayoutRepository {

  import opened Wrappers
  import opened HomeLayout

  // ===== Item-list transforms =====

  /** `filterNot`: the items `drop` rejects are removed, the rest kept in order. */
  function FilterNot(items: seq<DesktopItem>, drop: DesktopItem -> bool): (r: seq<DesktopItem>)
    ensures |r| <= |items|
    ensures forall x :: x in r <==> x in items && !drop(x)
  {
    if items == [] then []
    else
      var last := items[|items| - 1];
      FilterNot(items[..|items| - 1], drop) + (if drop(last) then [] else [last])
  }

  /** Filtering works piecewise, so the kept items keep their relative order. */
  lemma {:induction false} FilterNotConcat(a: seq<DesktopItem>, b: seq<DesktopItem>, drop: DesktopItem -> bool)
    ensures FilterNot(a + b, drop) == FilterNot(a, drop) + FilterNot(b, drop)
    decreases |b|
  {
    if b == [] {
      assert a + b == a;
    } else {
      var init, last := b[..|b| - 1], b[|b| - 1];
      var tail := if drop(last) then [] else [last];
      assert (a + b)[..|a + b| - 1] == a + init;
      assert (a + b)[|a + b| - 1] == last;
      calc {
        FilterNot(a + b, drop);
        FilterNot(a + init, drop) + tail;
        { FilterNotConcat(a, init, drop); }
        FilterNot(a, drop) + FilterNot(init, drop) + tail;
        FilterNot(a, drop) + FilterNot(b, drop);
      }
    }
  }

  /** Filtering out nothing keeps the list as it is. */
  lemma {:induction false} FilterNotKeepsAll(items: seq<DesktopItem>, drop: DesktopItem -> bool)
    requires forall i :: 0 <= i < |items| ==> !drop(items[i])
    ensures FilterNot(items, drop) == items
  {
    if items != [] {
      var init, last := items[..|items| - 1], items[|items| - 1];
      assert !drop(last);
      calc {
        FilterNot(items, drop);
        FilterNot(init, drop) + [last];
        { assert forall i :: 0 <= i < |init| ==> init[i] == items[i];
          FilterNotKeepsAll(init, drop); }
        init + [last];
        items;
      }
    }
  }

  predicate IsShortcutOf(item: DesktopItem, packageName: string) {
    item.AppShortcut? && item.packageName == packageName
  }

  predicate IsFolderWithId(item: DesktopItem, folderId: string) {
    item.Folder? && item.id == folderId
  }

  /** `addAppToHomeScreen`'s list: one shortcut appended, no duplicate check. */
  function AddShortcut(items: seq<DesktopItem>, packageName: string, position: GridPosition): (r: seq<DesktopItem>)
    ensures |r| == |items| + 1 && r[..|items|] == items
    ensures r[|items|] == AppShortcut(packageName, position)
  {
    items + [AppShortcut(packageName, position)]
  }

  /** `removeAppFromHomeScreen`'s list: every shortcut of the package goes. */
  function RemoveShortcuts(items: seq<DesktopItem>, packageName: string): seq<DesktopItem> {
    FilterNot(items, (item: DesktopItem) => IsShortcutOf(item, packageName))
  }

  /**
   * Removal leaves no shortcut of the package, keeps every other item
   * (folders and widgets included) and adds nothing.
   */
  lemma RemoveShortcutsSpec(items: seq<DesktopItem>, packageName: string)
    ensures var r := RemoveShortcuts(items, packageName);
      && |r| <= |items|
      && (forall i :: 0 <= i < |r| ==> !IsShortcutOf(r[i], packageName))
      && (forall x :: x in items && !IsShortcutOf(x, packageName) ==> x in r)
      && (forall x :: x in r ==> x in items)
  {
    var r := RemoveShortcuts(items, packageName);
    forall i | 0 <= i < |r| ensures !IsShortcutOf(r[i], packageName) {
      assert r[i] in r;
    }
  }

  /** Removing a package's shortcuts undoes adding one, whatever was there before. */
  lemma RemoveUndoesAdd(items: seq<DesktopItem>, packageName: string, position: GridPosition)
    ensures RemoveShortcuts(AddShortcut(items, packageName, position), packageName) == RemoveShortcuts(items, packageName)
  {
    var added := AddShortcut(items, packageName, position);
    assert added[..|added| - 1] == items;
  }

  /** Removal is idempotent. */
  lemma RemoveShortcutsIsIdempotent(items: seq<DesktopItem>, packageName: string)
    ensures RemoveShortcuts(RemoveShortcuts(items, packageName), packageName) == RemoveShortcuts(items, packageName)
  {
    RemoveShortcutsSpec(items, packageName);
    FilterNotKeepsAll(RemoveShortcuts(items, packageName), (item: DesktopItem) => IsShortcutOf(item, packageName));
  }

  /**
   * `createFolder`'s list: the shortcuts of the folder's packages go, the
   * other items stay in order, and the new folder comes last.
   */
  function CreateFolderItems(items: seq<DesktopItem>, folderId: string, name: string, apps: seq<string>,
                             position: GridPosition): seq<DesktopItem>
  {
    FilterNot(items, (item: DesktopItem) => item.AppShortcut? && item.packageName in apps)
      + [Folder(folderId, name, apps, position)]
  }

  /**
   * The new folder is the last item; before it, exactly the old items that
   * are not shortcuts of a package now in the folder.
   */
  lemma CreateFolderSpec(items: seq<DesktopItem>, folderId: string, name: string, apps: seq<string>, position: GridPosition)
    ensures var r := CreateFolderItems(items, folderId, name, apps, position);
      && 1 <= |r| <= |items| + 1
      && r[|r| - 1] == Folder(folderId, name, apps, position)
      && (forall x :: x in r[..|r| - 1] <==> x in items && !(x.AppShortcut? && x.packageName in apps))
      && (forall p :: p in apps ==> forall x :: x in r && x.AppShortcut? ==> x.packageName != p)
  {
    var kept := FilterNot(items, (item: DesktopItem) => item.AppShortcut? && item.packageName in apps);
    var r := CreateFolderItems(items, folderId, name, apps, position);
    assert r[..|r| - 1] == kept;
  }

  /** The folder with the package appended, for a folder with that id; any other item as it is. */
  function WithAppAdded(item: DesktopItem, folderId: string, packageName: string): DesktopItem {
    if IsFolderWithId(item, folderId) then item.(apps := item.apps + [packageName]) else item
  }

  /** `addAppToFolder`'s list. */
  function AddAppToFolderItems(items: seq<DesktopItem>, folderId: string, packageName: string): (r: seq<DesktopItem>)
    ensures |r| == |items|
    ensures forall i :: 0 <= i < |items| ==> r[i] == WithAppAdded(items[i], folderId, packageName)
  {
    seq(|items|, i requires 0 <= i < |items| => WithAppAdded(items[i], folderId, packageName))
  }

  /**
   * Adding to a folder keeps the item count and every position, appends the
   * package to each folder with that id (name and id unchanged), and leaves
   * every other item alone.
   */
  lemma AddAppToFolderSpec(items: seq<DesktopItem>, folderId: string, packageName: string)
    ensures var r := AddAppToFolderItems(items, folderId, packageName);
      && |r| == |items|
      && (forall i :: 0 <= i < |r| ==> r[i].position == items[i].position)
      && (forall i :: 0 <= i < |r| && IsFolderWithId(items[i], folderId) ==>
            IsFolderWithId(r[i], folderId) && r[i].name == items[i].name && r[i].apps == items[i].apps + [packageName])
      && (forall i :: 0 <= i < |r| && !IsFolderWithId(items[i], folderId) ==> r[i] == items[i])
  {
  }

  /** `List - element`: the first occurrence of `x` removed. */
  function RemoveFirst(s: seq<string>, x: string): (r: seq<string>)
    ensures x !in s ==> r == s
    ensures x in s ==> |r| == |s| - 1
    ensures multiset(r) == multiset(s) - multiset{x}
  {
    if s == [] then []
    else if s[0] == x then
      assert s == [s[0]] + s[1..];
      s[1..]
    else
      assert s == [s[0]] + s[1..];
      [s[0]] + RemoveFirst(s[1..], x)
  }

  /** Only the first occurrence of `x` goes: everything before it and everything after it stays. */
  lemma RemoveFirstIsFirstOccurrence(s: seq<string>, x: string)
    requires x in s
    ensures exists k :: 0 <= k < |s| && x !in s[..k] && s[k] == x && RemoveFirst(s, x) == s[..k] + s[k + 1..]
  {
    var k := FirstIndex(s, x);
    RemoveFirstAt(s, x, k);
  }

  /** The index of the first occurrence of `x`. */
  ghost function FirstIndex(s: seq<string>, x: string): (k: nat)
    requires x in s
    ensures k < |s| && s[k] == x && x !in s[..k]
  {
    if s[0] == x then 0
    else
      assert x in s[1..];
      var k := 1 + FirstIndex(s[1..], x);
      assert s[..k] == [s[0]] + s[1..][..k - 1];
      k
  }

  /** Removing `x` where its first occurrence is at `k` cuts out position `k`. */
  lemma {:induction false} RemoveFirstAt(s: seq<string>, x: string, k: nat)
    requires k < |s| && s[k] == x && x !in s[..k]
    ensures RemoveFirst(s, x) == s[..k] + s[k + 1..]
  {
    if k > 0 {
      assert s[0] in s[..k];
      assert s[1..][..k - 1] == s[1..k];
      assert x !in s[1..][..k - 1];
      RemoveFirstAt(s[1..], x, k - 1);
      assert s[..k] == [s[0]] + s[1..][..k - 1];
      assert s[k + 1..] == s[1..][k..];
    }
  }

  /** Removing an element just appended, when it was not already there, gives back the list. */
  lemma {:induction false} RemoveFirstOfAppended(s: seq<string>, x: string)
    requires x !in s
    ensures RemoveFirst(s + [x], x) == s
  {
    if s != [] {
      assert (s + [x])[1..] == s[1..] + [x];
      RemoveFirstOfAppended(s[1..], x);
      assert [s[0]] + s[1..] == s;
    }
  }

  /**
   * One item after `removeAppFromFolder`: a folder with that id loses the
   * package, and disappears when fewer than two apps remain; any other item
   * stays.
   */
  function WithAppRemoved(item: DesktopItem, folderId: string, packageName: string): (r: Option<DesktopItem>)
    ensures IsFolderWithId(item, folderId) ==>
      && (r.None? <==> |RemoveFirst(item.apps, packageName)| < 2)
      && (r.Some? ==> r.value == item.(apps := RemoveFirst(item.apps, packageName)))
    ensures !IsFolderWithId(item, folderId) ==> r == Some(item)
  {
    if IsFolderWithId(item, folderId) then
      var remaining := RemoveFirst(item.apps, packageName);
      if |remaining| < 2 then None else Some(item.(apps := remaining))
    else Some(item)
  }

  /** `removeAppFromFolder`'s list (`mapNotNull` of `WithAppRemoved`). */
  function RemoveAppFromFolderItems(items: seq<DesktopItem>, folderId: string, packageName: string)
    : (r: seq<DesktopItem>)
    ensures |r| <= |items|
    ensures forall x :: x in items && !IsFolderWithId(x, folderId) ==> x in r
    ensures forall x :: x in r && IsFolderWithId(x, folderId) ==> 2 <= |x.apps|
    ensures forall x :: x in r ==> exists y :: y in items && WithAppRemoved(y, folderId, packageName) == Some(x)
  {
    if items == [] then []
    else
      var last := items[|items| - 1];
      var init := RemoveAppFromFolderItems(items[..|items| - 1], folderId, packageName);
      assert forall x :: x in items ==> x in items[..|items| - 1] || x == last;
      match WithAppRemoved(last, folderId, packageName)
      case None => init
      case Some(kept) => init + [kept]
  }

  /**
   * The removal works item by item: on a list split in two it is the removal
   * on each part, in order.
   */
  lemma {:induction false} RemoveAppFromFolderConcat(a: seq<DesktopItem>, b: seq<DesktopItem>, folderId: string, packageName: string)
    ensures RemoveAppFromFolderItems(a + b, folderId, packageName)
         == RemoveAppFromFolderItems(a, folderId, packageName) + RemoveAppFromFolderItems(b, folderId, packageName)
  {
    if b == [] {
      assert a + b == a;
    } else {
      var init, last := b[..|b| - 1], b[|b| - 1];
      assert (a + b)[..|a + b| - 1] == a + init;
      assert (a + b)[|a + b| - 1] == last;
      RemoveAppFromFolderConcat(a, init, folderId, packageName);
    }
  }

  /** When the last item survives the removal as `kept`, the list ends in `kept`. */
  lemma RemoveAppFromFolderKeepsLast(items: seq<DesktopItem>, folderId: string, packageName: string, kept: DesktopItem)
    requires items != [] && WithAppRemoved(items[|items| - 1], folderId, packageName) == Some(kept)
    ensures RemoveAppFromFolderItems(items, folderId, packageName)
         == RemoveAppFromFolderItems(items[..|items| - 1], folderId, packageName) + [kept]
  {
  }

  /** On one item: removing the package just added to a folder gives back the item. */
  lemma WithAppRemovedUndoesAdded(item: DesktopItem, folderId: string, packageName: string)
    requires IsFolderWithId(item, folderId) ==> packageName !in item.apps && 2 <= |item.apps|
    ensures WithAppRemoved(WithAppAdded(item, folderId, packageName), folderId, packageName) == Some(item)
  {
    if IsFolderWithId(item, folderId) {
      RemoveFirstOfAppended(item.apps, packageName);
    }
  }

  /**
   * Adding a package to a folder and removing it again gives back the items,
   * when no folder with that id held the package and each had at least two apps.
   */
  lemma {:induction false} RemoveFromFolderUndoesAdd(items: seq<DesktopItem>, folderId: string, packageName: string)
    requires forall i :: 0 <= i < |items| && IsFolderWithId(items[i], folderId) ==>
      packageName !in items[i].apps && 2 <= |items[i].apps|
    ensures RemoveAppFromFolderItems(AddAppToFolderItems(items, folderId, packageName), folderId, packageName) == items
  {
    if items != [] {
      var init, last := items[..|items| - 1], items[|items| - 1];
      var added := AddAppToFolderItems(items, folderId, packageName);
      AddAppToFolderSplit(items, folderId, packageName);
      calc {
        RemoveAppFromFolderItems(added, folderId, packageName);
        == { WithAppRemovedUndoesAdded(last, folderId, packageName);
             RemoveAppFromFolderKeepsLast(added, folderId, packageName, last); }
        RemoveAppFromFolderItems(added[..|added| - 1], folderId, packageName) + [last];
        ==
        RemoveAppFromFolderItems(AddAppToFolderItems(init, folderId, packageName), folderId, packageName) + [last];
        == { assert forall i :: 0 <= i < |init| && IsFolderWithId(init[i], folderId) ==>
               packageName !in init[i].apps && 2 <= |init[i].apps| by {
               forall i | 0 <= i < |init| ensures init[i] == items[i] { }
             }
             RemoveFromFolderUndoesAdd(init, folderId, packageName); }
        init + [last];
        == { assert init + [last] == items; }
        items;
      }
    }
  }

  /** The added-to list, split into its first items and its last one. */
  lemma AddAppToFolderSplit(items: seq<DesktopItem>, folderId: string, packageName: string)
    requires items != []
    ensures var added := AddAppToFolderItems(items, folderId, packageName);
      && added[..|added| - 1] == AddAppToFolderItems(items[..|items| - 1], folderId, packageName)
      && added[|added| - 1] == WithAppAdded(items[|items| - 1], folderId, packageName)
  {
    var added := AddAppToFolderItems(items, folderId, packageName);
    assert added[..|added| - 1] == AddAppToFolderItems(items[..|items| - 1], folderId, packageName);
  }

  /** The folder renamed, for a folder with that id; any other item as it is. */
  function Renamed(item: DesktopItem, folderId: string, newName: string): DesktopItem {
    if IsFolderWithId(item, folderId) then item.(name := newName) else item
  }

  /** `renameFolder`'s list. */
  function RenameFolderItems(items: seq<DesktopItem>, folderId: string, newName: string): (r: seq<DesktopItem>)
    ensures |r| == |items|
    ensures forall i :: 0 <= i < |items| ==> r[i] == Renamed(items[i], folderId, newName)
  {
    seq(|items|, i requires 0 <= i < |items| => Renamed(items[i], folderId, newName))
  }

  /**
   * Renaming keeps the item count, every position and every app list, gives
   * each folder with that id the new name and leaves every other item alone.
   */
  lemma RenameFolderSpec(items: seq<DesktopItem>, folderId: string, newName: string)
    ensures var r := RenameFolderItems(items, folderId, newName);
      && |r| == |items|
      && (forall i :: 0 <= i < |r| ==> r[i].position == items[i].position)
      && (forall i :: 0 <= i < |r| && IsFolderWithId(items[i], folderId) ==>
            IsFolderWithId(r[i], folderId) && r[i].name == newName && r[i].apps == items[i].apps)
      && (forall i :: 0 <= i < |r| && !IsFolderWithId(items[i], folderId) ==> r[i] == items[i])
  {
  }

  /** Renaming twice is renaming once, to the second name. */
  lemma RenameTwice(items: seq<DesktopItem>, folderId: string, first: string, second: string)
    ensures RenameFolderItems(RenameFolderItems(items, folderId, first), folderId, second)
         == RenameFolderItems(items, folderId, second)
  {
  }

  /** The dock holds at most this many packages. */
  const MaxDockApps := 5

  /** `updateDockApps`'s list: `take(5)`. */
  function DockOf(packageNames: seq<string>): (r: seq<string>)
    ensures |r| == if |packageNames| < MaxDockApps then |packageNames| else MaxDockApps
    ensures forall i :: 0 <= i < |r| ==> r[i] == packageNames[i]
  {
    if |packageNames| <= MaxDockApps then packageNames else packageNames[..MaxDockApps]
  }

  /** A dock that fits is stored unchanged, and trimming twice trims once. */
  lemma DockOfFits(packageNames: seq<string>)
    ensures |packageNames| <= MaxDockApps ==> DockOf(packageNames) == packageNames
    ensures DockOf(DockOf(packageNames)) == DockOf(packageNames)
  {
  }

  // ===== Whole-layout edits =====

  /** The edits the repository offers. */
  datatype LayoutEdit =
    | AddApp(packageName: string, position: GridPosition)
    | RemoveApp(packageName: string)
    | CreateFolder(folderId: string, name: string, apps: seq<string>, position: GridPosition)
    | AddAppToFolder(folderId: string, packageName: string)
    | RemoveAppFromFolder(folderId: string, packageName: string)
    | RenameFolder(folderId: string, newName: string)
    | UpdateDock(packageNames: seq<string>)
  {
    /** These edits start from the default layout when none is stored; the others give up. */
    predicate StartsFromDefault() {
      AddApp? || CreateFolder? || UpdateDock?
    }
  }

  /** `getDefaultLayout`. */
  function DefaultLayout(): (l: HomeScreenLayout)
    ensures l.id == 1 && l.gridRows == 5 && l.gridCols == 4 && l.items == [] && l.dockApps == []
  {
    HomeScreenLayout(id := 1, gridRows := 5, gridCols := 4, items := [], dockApps := [])
  }

  /** The layout an edit computes from the current one (`currentLayout.copy(...)`). */
  function Edited(layout: HomeScreenLayout, edit: LayoutEdit): HomeScreenLayout {
    match edit
    case AddApp(packageName, position) => layout.(items := AddShortcut(layout.items, packageName, position))
    case RemoveApp(packageName) => layout.(items := RemoveShortcuts(layout.items, packageName))
    case CreateFolder(folderId, name, apps, position) =>
      layout.(items := CreateFolderItems(layout.items, folderId, name, apps, position))
    case AddAppToFolder(folderId, packageName) => layout.(items := AddAppToFolderItems(layout.items, folderId, packageName))
    case RemoveAppFromFolder(folderId, packageName) =>
      layout.(items := RemoveAppFromFolderItems(layout.items, folderId, packageName))
    case RenameFolder(folderId, newName) => layout.(items := RenameFolderItems(layout.items, folderId, newName))
    case UpdateDock(packageNames) => layout.(dockApps := DockOf(packageNames))
  }

  /** An edit changes the items or the dock and nothing else: id and grid size stay. */
  lemma EditedKeepsTheRest(layout: HomeScreenLayout, edit: LayoutEdit)
    ensures var l := Edited(layout, edit);
      && l.id == layout.id && l.gridRows == layout.gridRows && l.gridCols == layout.gridCols
      && (edit.UpdateDock? ==> l.items == layout.items)
      && (!edit.UpdateDock? ==> l.dockApps == layout.dockApps)
  {
  }

  /** The table, by primary key. */
  type Rows = map<int, HomeScreenLayout>

  /** Every row is stored under its own id. */
  ghost predicate WellKeyed(rows: Rows) {
    forall key :: key in rows ==> rows[key].id == key
  }

  /** `getLayoutOnce`: row 1, if stored. */
  function Stored(rows: Rows): Option<HomeScreenLayout> {
    if 1 in rows then Some(rows[1]) else None
  }

  /** `homeScreenLayout`: the stored layout, or the default when there is none. */
  function Displayed(rows: Rows): HomeScreenLayout {
    match Stored(rows)
    case Some(layout) => layout
    case None => DefaultLayout()
  }

  /** `@Update`: overwrite the row with the layout's id, if there is one; otherwise nothing. */
  function UpdateRow(rows: Rows, layout: HomeScreenLayout): (r: Rows)
    ensures layout.id in rows ==> r == rows[layout.id := layout]
    ensures layout.id !in rows ==> r == rows
  {
    if layout.id in rows then rows[layout.id := layout] else rows
  }

  /** One repository edit as written: read, fall back or give up, transform, `@Update`. */
  function Apply(rows: Rows, edit: LayoutEdit): Rows {
    match Stored(rows)
    case Some(current) => UpdateRow(rows, Edited(current, edit))
    case None => if edit.StartsFromDefault() then UpdateRow(rows, Edited(DefaultLayout(), edit)) else rows
  }

  /** With a layout stored, the next read sees the edited layout, and the table stays well keyed. */
  lemma StoredEditIsVisible(rows: Rows, edit: LayoutEdit)
    requires WellKeyed(rows) && 1 in rows
    ensures WellKeyed(Apply(rows, edit))
    ensures Displayed(Apply(rows, edit)) == Edited(Displayed(rows), edit)
  {
    EditedKeepsTheRest(rows[1], edit);
  }

  /**
   * As written, with no layout stored every edit leaves the table empty of
   * row 1: the edits that give up write nothing, and those that start from
   * the default lose their write, because `@Update` needs an existing row.
   */
  lemma EditOnEmptyStoreIsLost(rows: Rows, edit: LayoutEdit)
    requires WellKeyed(rows) && 1 !in rows
    ensures Apply(rows, edit) == rows
    ensures Displayed(Apply(rows, edit)) == DefaultLayout()
  {
    EditedKeepsTheRest(DefaultLayout(), edit);
  }

  /** The shortcut added to a fresh store is not on the home screen afterwards. */
  lemma AddedAppOnFreshStoreIsMissing(packageName: string, position: GridPosition)
    ensures Displayed(Apply(map[], AddApp(packageName, position))).items == []
  {
    EditOnEmptyStoreIsLost(map[], AddApp(packageName, position));
  }

  /** `@Insert(onConflict = REPLACE)`: write the row with the layout's id, replacing any. */
  function InsertRow(rows: Rows, layout: HomeScreenLayout): Rows {
    rows[layout.id := layout]
  }

  /** The evidently intended edit: the same read and transform, written with an upsert. */
  function ApplyUpserting(rows: Rows, edit: LayoutEdit): Rows {
    match Stored(rows)
    case Some(current) => InsertRow(rows, Edited(current, edit))
    case None => if edit.StartsFromDefault() then InsertRow(rows, Edited(DefaultLayout(), edit)) else rows
  }

  /**
   * With the upsert, an edit that applies (a layout is stored, or the edit
   * starts from the default) is always visible to the next read, and the
   * table stays well keyed.
   */
  lemma UpsertedEditIsVisible(rows: Rows, edit: LayoutEdit)
    requires WellKeyed(rows)
    requires 1 in rows || edit.StartsFromDefault()
    ensures WellKeyed(ApplyUpserting(rows, edit))
    ensures Displayed(ApplyUpserting(rows, edit)) == Edited(Displayed(rows), edit)
  {
    EditedKeepsTheRest(Displayed(rows), edit);
  }

  /** Once a layout is stored, the written and the intended edit agree. */
  lemma UpsertingAgreesWhenStored(rows: Rows, edit: LayoutEdit)
    requires WellKeyed(rows) && 1 in rows
    ensures ApplyUpserting(rows, edit) == Apply(rows, edit)
  {
    EditedKeepsTheRest(rows[1], edit);
  }

  // ===== The DAO and the repository =====

  /** `HomeScreenDao` over the `home_screen_layouts` table. */
  class HomeScreenDao {
    var rows: Rows

    constructor ()
      ensures rows == map[]
    {
      rows := map[];
    }

    /** `getLayoutOnce` (and the value `getLayout` emits). */
    function LayoutOnce(): Option<HomeScreenLayout>
      reads this
    {
      Stored(rows)
    }

    /** `insertLayout`. */
    method InsertLayout(layout: HomeScreenLayout)
      modifies this
      ensures rows == InsertRow(old(rows), layout)
    {
      rows := rows[layout.id := layout];
    }

    /** `updateLayout`. */
    method UpdateLayout(layout: HomeScreenLayout)
      modifies this
      ensures rows == UpdateRow(old(rows), layout)
    {
      if layout.id in rows {
        rows := rows[layout.id := layout];
      }
    }

    /** `deleteAll`. */
    method DeleteAll()
      modifies this
      ensures rows == map[]
    {
      rows := map[];
    }
  }

  /** `LauncherRepository`: each edit is a read-modify-write of the stored layout. */
  class LauncherRepository {
    const dao: HomeScreenDao

    constructor ()
      ensures fresh(dao) && dao.rows == map[]
    {
      dao := new HomeScreenDao();
    }

    /** `homeScreenLayout`: what the launcher shows. */
    function CurrentLayout(): HomeScreenLayout
      reads this, dao
    {
      Displayed(dao.rows)
    }

    method UpdateLayout(layout: HomeScreenLayout)
      modifies dao
      ensures dao.rows == UpdateRow(old(dao.rows), layout)
    {
      dao.UpdateLayout(layout);
    }

    method InsertLayout(layout: HomeScreenLayout)
      modifies dao
      ensures dao.rows == InsertRow(old(dao.rows), layout)
    {
      dao.InsertLayout(layout);
    }

    method AddAppToHomeScreen(packageName: string, position: GridPosition)
      modifies dao
      ensures dao.rows == Apply(old(dao.rows), AddApp(packageName, position))
    {
      var stored := dao.LayoutOnce();
      var currentLayout := if stored.Some? then stored.value else DefaultLayout();
      var updatedItems := currentLayout.items + [AppShortcut(packageName, position)];
      dao.UpdateLayout(currentLayout.(items := updatedItems));
    }

    method RemoveAppFromHomeScreen(packageName: string)
      modifies dao
      ensures dao.rows == Apply(old(dao.rows), RemoveApp(packageName))
    {
      var stored := dao.LayoutOnce();
      if stored.None? {
        return;
      }
      var currentLayout := stored.value;
      var updatedItems := RemoveShortcuts(currentLayout.items, packageName);
      dao.UpdateLayout(currentLayout.(items := updatedItems));
    }

    /** `createFolder`; `folderId` is the random UUID the source draws. */
    method CreateFolder(name: string, apps: seq<string>, position: GridPosition, folderId: string)
      modifies dao
      ensures dao.rows == Apply(old(dao.rows), LayoutEdit.CreateFolder(folderId, name, apps, position))
    {
      var stored := dao.LayoutOnce();
      var currentLayout := if stored.Some? then stored.value else DefaultLayout();
      var updatedItems := CreateFolderItems(currentLayout.items, folderId, name, apps, position);
      dao.UpdateLayout(currentLayout.(items := updatedItems));
    }

    method AddAppToFolder(folderId: string, packageName: string)
      modifies dao
      ensures dao.rows == Apply(old(dao.rows), LayoutEdit.AddAppToFolder(folderId, packageName))
    {
      var stored := dao.LayoutOnce();
      if stored.None? {
        return;
      }
      var currentLayout := stored.value;
      var updatedItems := AddAppToFolderItems(currentLayout.items, folderId, packageName);
      dao.UpdateLayout(currentLayout.(items := updatedItems));
    }

    method RemoveAppFromFolder(folderId: string, packageName: string)
      modifies dao
      ensures dao.rows == Apply(old(dao.rows), LayoutEdit.RemoveAppFromFolder(folderId, packageName))
    {
      var stored := dao.LayoutOnce();
      if stored.None? {
        return;
      }
      var currentLayout := stored.value;
      var updatedItems := RemoveAppFromFolderItems(currentLayout.items, folderId, packageName);
      dao.UpdateLayout(currentLayout.(items := updatedItems));
    }

    method RenameFolder(folderId: string, newName: string)
      modifies dao
      ensures dao.rows == Apply(old(dao.rows), LayoutEdit.RenameFolder(folderId, newName))
    {
      var stored := dao.LayoutOnce();
      if stored.None? {
        return;
      }
      var currentLayout := stored.value;
      var updatedItems := RenameFolderItems(currentLayout.items, folderId, newName);
      dao.UpdateLayout(currentLayout.(items := updatedItems));
    }

    method UpdateDockApps(packageNames: seq<string>)
      modifies dao
      ensures dao.rows == Apply(old(dao.rows), UpdateDock(packageNames))
    {
      var stored := dao.LayoutOnce();
      var currentLayout := if stored.Some? then stored.value else DefaultLayout();
      dao.UpdateLayout(currentLayout.(dockApps := DockOf(packageNames)));
    }
  }
}
