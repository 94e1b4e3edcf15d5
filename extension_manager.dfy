/**
 * The extension manager: which extensions are loaded (by id), which of them
 * are enabled, and the operations that install, uninstall, enable, disable
 * and bulk-load extensions, fan launcher events out to the enabled ones, and
 * gather their AI answers and UI contributions.
 *
 * Each state change is specified by a pure step function on `ManagerState`
 * that also returns the hook calls it makes; the properties are proved about
 * the step functions, and the class's methods are proved to perform them.
 */
module ExtensionManagement {

  import opened Wrappers
  import opened Text
  import opened Sorting
  import opened ExtensionContract
  import opened ExtensionLoading

  // ===== Hooks, errors, steps =====

  /** The extension hooks the manager calls. */
  datatype Hook =
    | OnInstall
    | OnEnable
    | OnDisable
    | OnUninstall
    | OnEvent(event: LauncherEvent)
    | OnAIQuery(query: string)

  /** One call of a hook of the extension with id `extensionId`. */
  datatype HookCall = HookCall(extensionId: string, hook: Hook)

  /** Why an install or uninstall failed. */
  datatype ManagerError =
    | LoadFailed
    | BlankId
    | AlreadyInstalled(id: string)
    | CopyFailed
    | NotFound(id: string)
    | HookThrew(id: string, hook: Hook)

  /** An entry of the extensions directory. */
  datatype FileEntry = FileEntry(name: string, isFile: bool)

  /**
   * The manager's two collections: the loaded extensions by id, and the ids
   * of the enabled ones in the order they were enabled (a Kotlin `Set`
   * iterates in insertion order).
   */
  datatype ManagerState = ManagerState(loaded: map<string, LauncherExtension>, enabled: seq<string>)
  {
    /** Every enabled id is loaded, none twice, and each extension is filed under its own id. */
    ghost predicate Valid() {
      && (forall i :: 0 <= i < |enabled| ==> enabled[i] in loaded)
      && NoDuplicates(enabled)
      && (forall id :: id in loaded ==> loaded[id].id == id)
    }
  }

  /** What an operation returns, the state after it, and the hook calls it made, in order. */
  datatype Step<+T> = Step(result: T, after: ManagerState, calls: seq<HookCall>)

  ghost predicate NoDuplicates(s: seq<string>) {
    forall i, j :: 0 <= i < j < |s| ==> s[i] != s[j]
  }

  // ===== The enabled set =====

  /** `Set - element`: `s` without `x`, the rest in order. */
  function Remove(s: seq<string>, x: string): (r: seq<string>)
    ensures forall y :: y in r <==> y in s && y != x
    ensures |r| <= |s|
  {
    if s == [] then []
    else (if s[0] == x then [] else [s[0]]) + Remove(s[1..], x)
  }

  /** Removing keeps a sequence free of duplicates. */
  lemma {:induction false} RemoveKeepsDistinct(s: seq<string>, x: string)
    requires NoDuplicates(s)
    ensures NoDuplicates(Remove(s, x))
  {
    if s != [] {
      RemoveKeepsDistinct(s[1..], x);
      assert s[0] !in s[1..] by {
        forall j | 0 <= j < |s[1..]| ensures s[1..][j] != s[0] {
          assert s[1..][j] == s[j + 1];
        }
      }
    }
  }

  /** Removing what was just added gives back the original, when it was not there before. */
  lemma {:induction false} RemoveLastAdded(s: seq<string>, x: string)
    requires x !in s
    ensures Remove(s + [x], x) == s
  {
    if s == [] {
      assert Remove([x], x) == [] + Remove([], x);
    } else {
      assert (s + [x])[1..] == s[1..] + [x];
      RemoveLastAdded(s[1..], x);
      assert [s[0]] + s[1..] == s;
    }
  }

  /** `enableExtension` calls the hook only for a loaded extension that is not yet enabled. */
  predicate WillEnable(s: ManagerState, id: string) {
    id in s.loaded && id !in s.enabled
  }

  /** `disableExtension` calls the hook only for a loaded extension that is enabled. */
  predicate WillDisable(s: ManagerState, id: string) {
    id in s.loaded && id in s.enabled
  }

  /**
   * `enableExtension`: the id joins the enabled set, then `onEnable` runs; an
   * exception it throws escapes, the set already updated. Otherwise nothing.
   */
  function Enabling(s: ManagerState, id: string): (t: Step<Outcome<()>>)
    ensures t.after.loaded == s.loaded
    ensures id in t.after.enabled <==> id in s.enabled || id in s.loaded
    ensures forall other :: other != id ==> (other in t.after.enabled <==> other in s.enabled)
    ensures forall c :: c in t.calls ==> c == HookCall(id, OnEnable)
  {
    if WillEnable(s, id) then
      Step(s.loaded[id].onEnable, s.(enabled := s.enabled + [id]), [HookCall(id, OnEnable)])
    else Step(Ok(()), s, [])
  }

  /** `disableExtension`: the mirror image of `Enabling`. */
  function Disabling(s: ManagerState, id: string): (t: Step<Outcome<()>>)
    ensures t.after.loaded == s.loaded
    ensures id in t.after.enabled <==> id in s.enabled && id !in s.loaded
    ensures forall other :: other != id ==> (other in t.after.enabled <==> other in s.enabled)
    ensures forall c :: c in t.calls ==> c == HookCall(id, OnDisable)
  {
    if WillDisable(s, id) then
      Step(s.loaded[id].onDisable, s.(enabled := Remove(s.enabled, id)), [HookCall(id, OnDisable)])
    else Step(Ok(()), s, [])
  }

  /**
   * Enabling leaves the loaded map alone, keeps the state valid, makes `id`
   * enabled exactly when it is loaded, and leaves every other id as it was;
   * a newly enabled id goes last in the enabling order; it calls `onEnable`
   * once if it had to, and returns what that call gave, and calls nothing
   * otherwise.
   */
  lemma EnablingSpec(s: ManagerState, id: string)
    requires s.Valid()
    ensures var t := Enabling(s, id);
      && t.after.loaded == s.loaded
      && t.after.Valid()
      && (id in t.after.enabled <==> id in s.loaded)
      && (forall other :: other != id ==> (other in t.after.enabled <==> other in s.enabled))
      && t.calls == (if WillEnable(s, id) then [HookCall(id, OnEnable)] else [])
      && (WillEnable(s, id) ==> t.after.enabled == s.enabled + [id] && t.result == s.loaded[id].onEnable)
      && (!WillEnable(s, id) ==> t.result == Ok(()) && t.after == s)
  {
  }

  /**
   * Disabling leaves the loaded map alone, keeps the state valid, makes `id`
   * not enabled, and leaves every other id as it was, in its order; it calls
   * `onDisable` once if it had to, and returns what that call gave, and calls
   * nothing otherwise.
   */
  lemma DisablingSpec(s: ManagerState, id: string)
    requires s.Valid()
    ensures var t := Disabling(s, id);
      && t.after.loaded == s.loaded
      && t.after.Valid()
      && id !in t.after.enabled
      && (forall other :: other != id ==> (other in t.after.enabled <==> other in s.enabled))
      && t.calls == (if WillDisable(s, id) then [HookCall(id, OnDisable)] else [])
      && (WillDisable(s, id) ==> t.after.enabled == Remove(s.enabled, id) && t.result == s.loaded[id].onDisable)
      && (!WillDisable(s, id) ==> t.result == Ok(()) && t.after == s)
  {
    if WillDisable(s, id) {
      RemoveKeepsDistinct(s.enabled, id);
      var e := Remove(s.enabled, id);
      forall i | 0 <= i < |e| ensures e[i] in s.loaded {
        assert e[i] in e;
      }
    }
  }

  /** Enabling twice is enabling once: the second call changes nothing and calls no hook. */
  lemma EnablingIsIdempotent(s: ManagerState, id: string)
    ensures var once := Enabling(s, id).after;
      Enabling(once, id) == Step(Ok(()), once, [])
  {
  }

  /** Disabling twice is disabling once: the second call changes nothing and calls no hook. */
  lemma DisablingIsIdempotent(s: ManagerState, id: string)
    ensures var once := Disabling(s, id).after;
      Disabling(once, id) == Step(Ok(()), once, [])
  {
  }

  /** Disabling an extension that was just enabled restores the state. */
  lemma DisablingUndoesEnabling(s: ManagerState, id: string)
    requires WillEnable(s, id)
    ensures Disabling(Enabling(s, id).after, id).after == s
  {
    RemoveLastAdded(s.enabled, id);
  }

  // ===== Installation =====

  /**
   * `installExtension`: load the file through the registry, reject a missing
   * extension, a blank id and an id already loaded, copy the file, then file
   * the extension under its id and call `onInstall`. A throwing `onInstall`
   * fails the install after the extension was filed.
   */
  function Installing(s: ManagerState, registry: Registry, fileName: string, copy: Outcome<()>)
    : (t: Step<Result<string, ManagerError>>)
    ensures t.after.enabled == s.enabled
    ensures s.loaded.Keys <= t.after.loaded.Keys
    ensures t.result.Success? ==> t.result.value !in s.loaded && t.result.value in t.after.loaded
  {
    match LoadFrom(registry, fileName)
    case None => Step(Failure(LoadFailed), s, [])
    case Some(extension) =>
      var id := extension.id;
      if IsBlank(id) then Step(Failure(BlankId), s, [])
      else if id in s.loaded then Step(Failure(AlreadyInstalled(id)), s, [])
      else if copy.Throws? then Step(Failure(CopyFailed), s, [])
      else
        var after := s.(loaded := s.loaded[id := extension]);
        if extension.onInstall.Throws? then Step(Failure(HookThrew(id, OnInstall)), after, [HookCall(id, OnInstall)])
        else Step(Success(id), after, [HookCall(id, OnInstall)])
  }

  /**
   * Each rejection, in the order `installExtension` checks them, fails with
   * its own error and leaves the state as it was and calls nothing: no
   * extension loads, its id is blank, its id is already loaded, the copy
   * fails. Past them the extension is filed under its id and `onInstall`
   * runs once; the install succeeds with that id exactly when `onInstall`
   * does not throw. The state stays valid throughout.
   */
  lemma InstallingSpec(s: ManagerState, registry: Registry, fileName: string, copy: Outcome<()>)
    requires s.Valid()
    ensures var t, loaded := Installing(s, registry, fileName, copy), LoadFrom(registry, fileName);
      && t.after.Valid()
      && (loaded.None? ==> t == Step(Failure(LoadFailed), s, []))
      && (loaded.Some? && IsBlank(loaded.value.id) ==> t == Step(Failure(BlankId), s, []))
      && (loaded.Some? && !IsBlank(loaded.value.id) && loaded.value.id in s.loaded ==>
            t == Step(Failure(AlreadyInstalled(loaded.value.id)), s, []))
      && (loaded.Some? && !IsBlank(loaded.value.id) && loaded.value.id !in s.loaded && copy.Throws? ==>
            t == Step(Failure(CopyFailed), s, []))
      && (loaded.Some? && !IsBlank(loaded.value.id) && loaded.value.id !in s.loaded && copy.Ok? ==>
            var id := loaded.value.id;
            && t.after == s.(loaded := s.loaded[id := loaded.value])
            && t.calls == [HookCall(id, OnInstall)]
            && (loaded.value.onInstall.Ok? <==> t.result == Success(id))
            && (loaded.value.onInstall.Throws? <==> t.result == Failure(HookThrew(id, OnInstall))))
      && (t.result.Success? <==>
            loaded.Some? && !IsBlank(loaded.value.id) && loaded.value.id !in s.loaded && copy.Ok?
            && loaded.value.onInstall.Ok?)
  {
  }

  /**
   * When every factory creates an extension with its own registry id, the
   * file an install writes (`<id>.kts`) loads the installed extension again.
   */
  lemma InstalledFileReloads(s: ManagerState, registry: Registry, fileName: string, copy: Outcome<()>)
    requires forall key :: key in registry && registry[key].Call().Ok? ==> registry[key].Call().value.id == key
    requires Installing(s, registry, fileName, copy).result.Success?
    ensures var t := Installing(s, registry, fileName, copy);
      LoadFrom(registry, InstalledFileName(t.result.value)) == Some(t.after.loaded[t.result.value])
  {
    var key := NameWithoutExtension(fileName);
    var id := LoadFrom(registry, fileName).value.id;
    assert registry[key].Call().value.id == key;
    InstalledFileLoads(registry, id);
  }

  /**
   * `uninstallExtension`: fail for an id that is not loaded; otherwise disable
   * it first if enabled, call `onUninstall`, then drop it. An exception from
   * either hook fails the uninstall with the extension still loaded, though
   * already disabled.
   */
  function Uninstalling(s: ManagerState, id: string): (t: Step<Result<(), ManagerError>>)
    ensures t.after.loaded.Keys <= s.loaded.Keys
    ensures id in s.loaded ==> id !in t.after.enabled
    ensures t.result.Success? <==> id in s.loaded && id !in t.after.loaded
  {
    if id !in s.loaded then Step(Failure(NotFound(id)), s, [])
    else
      var disabled := Disabling(s, id);
      if disabled.result.Throws? then Step(Failure(HookThrew(id, OnDisable)), disabled.after, disabled.calls)
      else
        var calls := disabled.calls + [HookCall(id, OnUninstall)];
        if s.loaded[id].onUninstall.Throws? then Step(Failure(HookThrew(id, OnUninstall)), disabled.after, calls)
        else Step(Success(()), disabled.after.(loaded := disabled.after.loaded - {id}), calls)
  }

  /**
   * Uninstalling an unknown id changes nothing; otherwise the id ends up
   * disabled whatever happens; `onDisable` runs first if the id was enabled,
   * and `onUninstall` runs after it unless `onDisable` threw; the uninstall
   * succeeds exactly when neither hook throws, and a success removes exactly
   * that id while a failure keeps it loaded, naming the hook that threw; the
   * state stays valid.
   */
  lemma UninstallingSpec(s: ManagerState, id: string)
    requires s.Valid()
    ensures var t := Uninstalling(s, id);
      && t.after.Valid()
      && (id !in s.loaded ==> t == Step(Failure(NotFound(id)), s, []))
      && (id in s.loaded ==> id !in t.after.enabled)
      && (forall other :: other != id ==> (other in t.after.enabled <==> other in s.enabled))
      && (id in s.loaded ==>
            var disableThrows := WillDisable(s, id) && s.loaded[id].onDisable.Throws?;
            && t.calls == (if WillDisable(s, id) then [HookCall(id, OnDisable)] else [])
                          + (if disableThrows then [] else [HookCall(id, OnUninstall)])
            && (disableThrows ==> t.result == Failure(HookThrew(id, OnDisable)))
            && (!disableThrows && s.loaded[id].onUninstall.Throws? ==> t.result == Failure(HookThrew(id, OnUninstall)))
            && (t.result.Success? <==> !disableThrows && s.loaded[id].onUninstall.Ok?))
      && (t.result.Success? ==> t.after.loaded == s.loaded - {id} && id !in t.after.loaded)
      && (t.result.Failure? ==> t.after.loaded == s.loaded)
  {
    DisablingSpec(s, id);
  }

  /** Installing an extension and uninstalling it again, with hooks that do not throw, restores the state. */
  lemma UninstallingUndoesInstalling(s: ManagerState, registry: Registry, fileName: string, copy: Outcome<()>)
    requires s.Valid()
    requires Installing(s, registry, fileName, copy).result.Success?
    requires LoadFrom(registry, fileName).value.onUninstall.Ok?
    ensures var installed := Installing(s, registry, fileName, copy);
      Uninstalling(installed.after, installed.result.value).after == s
  {
    var installed := Installing(s, registry, fileName, copy);
    var id := installed.result.value;
    assert id !in s.enabled;
    assert installed.after.loaded - {id} == s.loaded;
  }

  // ===== Bulk loading =====

  /** The directory entries `loadInstalledExtensions` considers: files whose extension is "kts". */
  function KtsFiles(entries: seq<FileEntry>): (r: seq<string>)
    ensures |r| <= |entries|
    ensures forall i :: (0 <= i < |entries| && entries[i].isFile && FileExtension(entries[i].name) == "kts"
                         ==> entries[i].name in r)
    ensures forall name :: name in r ==> FileExtension(name) == "kts"
    ensures forall name :: name in r ==> exists i :: 0 <= i < |entries| && entries[i] == FileEntry(name, true)
  {
    if entries == [] then []
    else
      var rest := KtsFiles(entries[1..]);
      assert forall i :: 1 <= i < |entries| ==> entries[1..][i - 1] == entries[i];
      if entries[0].isFile && FileExtension(entries[0].name) == "kts" then [entries[0].name] + rest else rest
  }

  /** Loading one file: a loaded extension is filed under its own id, replacing any earlier one. */
  function LoadOne(loaded: map<string, LauncherExtension>, registry: Registry, fileName: string)
    : map<string, LauncherExtension>
  {
    match LoadFrom(registry, fileName)
    case None => loaded
    case Some(extension) => loaded[extension.id := extension]
  }

  /** Loading the files in order; a file that does not load is skipped. */
  function LoadAll(loaded: map<string, LauncherExtension>, registry: Registry, names: seq<string>)
    : (r: map<string, LauncherExtension>)
    ensures loaded.Keys <= r.Keys
  {
    if names == [] then loaded
    else LoadOne(LoadAll(loaded, registry, names[..|names| - 1]), registry, names[|names| - 1])
  }

  /**
   * Bulk loading never drops an id, files every loaded extension under its
   * own id, adds an id only for a file that loads an extension with that id,
   * and keeps "each extension filed under its own id".
   */
  lemma {:induction false} LoadAllSpec(loaded: map<string, LauncherExtension>, registry: Registry, names: seq<string>)
    requires forall id :: id in loaded ==> loaded[id].id == id
    ensures var r := LoadAll(loaded, registry, names);
      && loaded.Keys <= r.Keys
      && (forall id :: id in r ==> r[id].id == id)
      && (forall i :: 0 <= i < |names| && LoadFrom(registry, names[i]).Some? ==> LoadFrom(registry, names[i]).value.id in r)
      && (forall id :: id in r && id !in loaded ==>
            exists i :: 0 <= i < |names| && LoadFrom(registry, names[i]).Some? && LoadFrom(registry, names[i]).value.id == id)
  {
    if names != [] {
      var init := names[..|names| - 1];
      LoadAllSpec(loaded, registry, init);
      var r := LoadAll(loaded, registry, names);
      forall id | id in r && id !in loaded
        ensures exists i :: 0 <= i < |names| && LoadFrom(registry, names[i]).Some? && LoadFrom(registry, names[i]).value.id == id
      {
        if id in LoadAll(loaded, registry, init) {
          var i :| 0 <= i < |init| && LoadFrom(registry, init[i]).Some? && LoadFrom(registry, init[i]).value.id == id;
          assert names[i] == init[i];
        } else {
          assert LoadFrom(registry, names[|names| - 1]).Some?;
        }
      }
      forall i | 0 <= i < |names| && LoadFrom(registry, names[i]).Some?
        ensures LoadFrom(registry, names[i]).value.id in r
      {
        if i < |init| {
          assert names[i] == init[i];
        }
      }
    }
  }

  /** A file that loads an extension files it under its id, replacing whatever the earlier files filed there. */
  lemma LoadAllOverwrites(loaded: map<string, LauncherExtension>, registry: Registry, names: seq<string>)
    requires names != [] && LoadFrom(registry, names[|names| - 1]).Some?
    ensures var e := LoadFrom(registry, names[|names| - 1]).value;
      LoadAll(loaded, registry, names)[e.id] == e
  {
  }

  // ===== Fan-out =====

  /** `getEnabledExtensions`: the extensions of the given ids, in order, skipping ids not loaded. */
  function LiveExtensions(loaded: map<string, LauncherExtension>, ids: seq<string>): (r: seq<LauncherExtension>)
    ensures |r| <= |ids|
    ensures (forall i :: 0 <= i < |ids| ==> ids[i] in loaded) ==>
      |r| == |ids| && forall i :: 0 <= i < |ids| ==> r[i] == loaded[ids[i]]
  {
    if ids == [] then []
    else
      var rest := LiveExtensions(loaded, ids[1..]);
      assert forall i :: 1 <= i < |ids| ==> ids[1..][i - 1] == ids[i];
      (if ids[0] in loaded then [loaded[ids[0]]] else []) + rest
  }

  /**
   * In a valid state an id is enabled exactly when its loaded extension is
   * among those `getEnabledExtensions` gives.
   */
  lemma EnabledIffReached(s: ManagerState, id: string)
    ensures s.Valid() ==> (id in s.enabled <==> id in s.loaded && s.loaded[id] in LiveExtensions(s.loaded, s.enabled))
  {
    if s.Valid() {
      var live := LiveExtensions(s.loaded, s.enabled);
      if id in s.loaded && s.loaded[id] in live {
        var i :| 0 <= i < |live| && live[i] == s.loaded[id];
        assert s.loaded[s.enabled[i]].id == s.enabled[i];
      }
      if id in s.enabled {
        var i :| 0 <= i < |s.enabled| && s.enabled[i] == id;
        assert live[i] == s.loaded[id];
      }
    }
  }

  /**
   * In a valid state a UI contribution collects, at most one per enabled id,
   * the contribution of every enabled extension whose hook gives one, and
   * nothing else.
   */
  lemma CollectOverEnabled<T>(s: ManagerState, hook: LauncherExtension -> Outcome<Option<T>>)
    ensures var r := Collect(LiveExtensions(s.loaded, s.enabled), hook);
      && |r| <= |s.enabled|
      && (s.Valid() ==>
         && (forall i :: 0 <= i < |s.enabled| && hook(s.loaded[s.enabled[i]]).Ok? && hook(s.loaded[s.enabled[i]]).value.Some?
               ==> hook(s.loaded[s.enabled[i]]).value.value in r)
         && (forall x :: x in r ==> exists i :: 0 <= i < |s.enabled| && Yields(hook(s.loaded[s.enabled[i]]), x)))
  {
    var live := LiveExtensions(s.loaded, s.enabled);
    var r := Collect(live, hook);
    if s.Valid() {
      forall x | x in r ensures exists i :: 0 <= i < |s.enabled| && Yields(hook(s.loaded[s.enabled[i]]), x) {
        var i :| 0 <= i < |live| && Yields(hook(live[i]), x);
        assert live[i] == s.loaded[s.enabled[i]];
      }
    }
  }

  /** One call of `hook` per extension, in order. */
  function CallsOf(extensions: seq<LauncherExtension>, hook: Hook): (r: seq<HookCall>)
    ensures |r| == |extensions|
    ensures forall i :: 0 <= i < |extensions| ==> r[i] == HookCall(extensions[i].id, hook)
  {
    seq(|extensions|, i requires 0 <= i < |extensions| => HookCall(extensions[i].id, hook))
  }

  /** In a valid state, a fan-out calls the hook exactly once per enabled id, in enabling order. */
  lemma FanOutCallsEachEnabledOnce(s: ManagerState, hook: Hook)
    requires s.Valid()
    ensures var calls := CallsOf(LiveExtensions(s.loaded, s.enabled), hook);
      && |calls| == |s.enabled|
      && (forall i :: 0 <= i < |calls| ==> calls[i] == HookCall(s.enabled[i], hook))
      && (forall i, j :: 0 <= i < j < |calls| ==> calls[i] != calls[j])
  {
  }

  /** One more extension adds one more call. */
  lemma CallsOfSnoc(extensions: seq<LauncherExtension>, e: LauncherExtension, hook: Hook)
    ensures CallsOf(extensions + [e], hook) == CallsOf(extensions, hook) + [HookCall(e.id, hook)]
  {
  }

  /** The ids of the extensions whose handler of `event` throws, in order; dispatch only logs them. */
  function FailedOn(extensions: seq<LauncherExtension>, event: LauncherEvent): (r: seq<string>)
    ensures |r| <= |extensions|
    ensures forall i :: 0 <= i < |extensions| && extensions[i].EventHook(event).Throws? ==> extensions[i].id in r
    ensures forall id :: id in r ==>
      exists i :: 0 <= i < |extensions| && extensions[i].id == id && extensions[i].EventHook(event).Throws?
  {
    if extensions == [] then []
    else
      var last := extensions[|extensions| - 1];
      var rest := FailedOn(extensions[..|extensions| - 1], event);
      rest + (if last.EventHook(event).Throws? then [last.id] else [])
  }

  /** One more step of an event dispatch: one more call, and one more failure if that handler throws. */
  lemma DispatchStep(extensions: seq<LauncherExtension>, i: nat, event: LauncherEvent)
    requires i < |extensions|
    ensures CallsOf(extensions[..i + 1], OnEvent(event))
         == CallsOf(extensions[..i], OnEvent(event)) + [HookCall(extensions[i].id, OnEvent(event))]
    ensures FailedOn(extensions[..i + 1], event)
         == FailedOn(extensions[..i], event) + (if extensions[i].EventHook(event).Throws? then [extensions[i].id] else [])
  {
    assert extensions[..i + 1][..i] == extensions[..i];
    assert extensions[..i] + [extensions[i]] == extensions[..i + 1];
    CallsOfSnoc(extensions[..i], extensions[i], OnEvent(event));
  }

  /** The outcome of `hook` on each extension. */
  function Outcomes<T>(extensions: seq<LauncherExtension>, hook: LauncherExtension -> Outcome<Option<T>>)
    : (r: seq<Outcome<Option<T>>>)
    ensures |r| == |extensions|
    ensures forall i :: 0 <= i < |extensions| ==> r[i] == hook(extensions[i])
  {
    seq(|extensions|, i requires 0 <= i < |extensions| => hook(extensions[i]))
  }

  /**
   * `mapNotNull { try { hook(it) } catch { null } }` over the extensions:
   * exactly the non-null results of the hooks that did not throw, in order.
   */
  function Collect<T>(extensions: seq<LauncherExtension>, hook: LauncherExtension -> Outcome<Option<T>>)
    : (r: seq<T>)
    ensures |r| <= |extensions|
    ensures forall i :: (0 <= i < |extensions| && hook(extensions[i]).Ok? && hook(extensions[i]).value.Some?
                         ==> hook(extensions[i]).value.value in r)
    ensures forall x :: x in r ==> exists i :: 0 <= i < |extensions| && Yields(hook(extensions[i]), x)
  {
    var outcomes := Outcomes(extensions, hook);
    var r := Values(outcomes);
    assert forall x :: x in r ==> exists i :: 0 <= i < |outcomes| && Yields(outcomes[i], x);
    r
  }

  /** Collecting over one more extension appends what that extension contributes. */
  lemma CollectSnoc<T>(extensions: seq<LauncherExtension>, e: LauncherExtension, hook: LauncherExtension -> Outcome<Option<T>>)
    ensures Collect(extensions + [e], hook)
         == Collect(extensions, hook) + (if hook(e).Ok? && hook(e).value.Some? then [hook(e).value.value] else [])
  {
    var all := Outcomes(extensions + [e], hook);
    assert all[..|all| - 1] == Outcomes(extensions, hook);
  }

  /**
   * Fault isolation: an extension whose hook throws contributes nothing, and
   * the extensions before and after it contribute as if it were absent.
   */
  lemma ThrowingHookIsIsolated<T>(before: seq<LauncherExtension>, e: LauncherExtension, after: seq<LauncherExtension>,
                                  hook: LauncherExtension -> Outcome<Option<T>>)
    requires hook(e).Throws?
    ensures Collect(before + [e] + after, hook) == Collect(before, hook) + Collect(after, hook)
  {
    assert Outcomes(before + [e] + after, hook) == Outcomes(before, hook) + [Throws] + Outcomes(after, hook);
    ValuesSkipThrows(Outcomes(before, hook), Outcomes(after, hook));
  }

  /** Extensions that keep the default of a hook contribute nothing through it. */
  lemma InertExtensionsContributeNothing<T>(extensions: seq<LauncherExtension>, hook: LauncherExtension -> Outcome<Option<T>>)
    requires forall i :: 0 <= i < |extensions| ==> hook(extensions[i]) == Ok(None)
    ensures Collect(extensions, hook) == []
  {
    ValuesOfSilent(Outcomes(extensions, hook));
  }

  /** One more step of a query: one more call, and one more answer if that extension gives one. */
  lemma QueryStep(extensions: seq<LauncherExtension>, i: nat, query: string, context: LauncherContext)
    requires i < |extensions|
    ensures CallsOf(extensions[..i + 1], OnAIQuery(query))
         == CallsOf(extensions[..i], OnAIQuery(query)) + [HookCall(extensions[i].id, OnAIQuery(query))]
    ensures var answer := extensions[i].onAIQuery(query, context);
      Collect(extensions[..i + 1], AnswerOf(query, context))
      == Collect(extensions[..i], AnswerOf(query, context)) + (if answer.Ok? && answer.value.Some? then [answer.value.value] else [])
  {
    assert extensions[..i] + [extensions[i]] == extensions[..i + 1];
    CallsOfSnoc(extensions[..i], extensions[i], OnAIQuery(query));
    CollectSnoc(extensions[..i], extensions[i], AnswerOf(query, context));
  }

  function WidgetOf(e: LauncherExtension): Outcome<Option<ExtensionWidget>> {
    e.provideWidget
  }

  function SearchProviderOf(e: LauncherExtension): Outcome<Option<SearchProvider>> {
    e.provideSearchProvider
  }

  function ThemeOf(e: LauncherExtension): Outcome<Option<ExtensionTheme>> {
    e.provideTheme
  }

  /** The AI hook applied to one query and context. */
  function AnswerOf(query: string, context: LauncherContext): LauncherExtension -> Outcome<Option<ExtensionResponse>> {
    (e: LauncherExtension) => e.onAIQuery(query, context)
  }

  /** The sort key of `queryExtensions`. */
  function Priority(r: ExtensionResponse): int {
    r.priority
  }

  /** `queryExtensions`: the collected answers, highest priority first, none lost and none invented. */
  function QueryResponses(extensions: seq<LauncherExtension>, query: string, context: LauncherContext)
    : (r: seq<ExtensionResponse>)
    ensures SortedDesc(r, Priority)
    ensures multiset(r) == multiset(Collect(extensions, AnswerOf(query, context)))
  {
    var collected := Collect(extensions, AnswerOf(query, context));
    SortedBySort(collected, Priority);
    SortIsPermutation(collected, Priority);
    SortByDescending(collected, Priority)
  }

  /**
   * The answers come highest priority first, are exactly the collected
   * answers (none lost, none invented), keep the extensions' order among
   * equal priorities, and are no more than the extensions asked.
   */
  lemma QueryResponsesSpec(extensions: seq<LauncherExtension>, query: string, context: LauncherContext)
    ensures var r, collected := QueryResponses(extensions, query, context), Collect(extensions, AnswerOf(query, context));
      && SortedDesc(r, Priority)
      && multiset(r) == multiset(collected)
      && (forall p :: WithKey(r, Priority, p) == WithKey(collected, Priority, p))
      && |r| <= |extensions|
  {
    var collected := Collect(extensions, AnswerOf(query, context));
    SortedBySort(collected, Priority);
    SortIsPermutation(collected, Priority);
    forall p ensures WithKey(SortByDescending(collected, Priority), Priority, p) == WithKey(collected, Priority, p) {
      SortIsStable(collected, Priority, p);
    }
  }

  // ===== The manager =====

  class ExtensionManager {
    var loaded: map<string, LauncherExtension>
    var enabled: seq<string>
    /** Every hook call made so far, in order. */
    ghost var hookCalls: seq<HookCall>
    const loader: ExtensionLoader

    function Current(): ManagerState
      reads this
    {
      ManagerState(loaded, enabled)
    }

    ghost predicate Valid()
      reads this
    {
      Current().Valid()
    }

    /** A new manager has nothing loaded or enabled and a loader holding the built-in factories. */
    constructor ()
      ensures loaded == map[] && enabled == [] && hookCalls == []
      ensures fresh(loader) && loader.registry == SampleRegistry()
      ensures Valid()
    {
      loaded := map[];
      enabled := [];
      hookCalls := [];
      loader := new ExtensionLoader();
    }

    /** `installExtension`; `copy` is what copying the file into the extensions directory gives. */
    method Install(fileName: string, copy: Outcome<()>) returns (result: Result<string, ManagerError>)
      requires Valid()
      modifies this
      ensures Valid()
      ensures var step := Installing(old(Current()), loader.registry, fileName, copy);
        result == step.result && Current() == step.after && hookCalls == old(hookCalls) + step.calls
    {
      InstallingSpec(Current(), loader.registry, fileName, copy);
      var loadedExtension := loader.LoadFromFile(fileName);
      if loadedExtension.None? {
        return Failure(LoadFailed);
      }
      var extension := loadedExtension.value;
      if IsBlank(extension.id) {
        return Failure(BlankId);
      }
      if extension.id in loaded {
        return Failure(AlreadyInstalled(extension.id));
      }
      if copy.Throws? {
        return Failure(CopyFailed);
      }
      loaded := loaded[extension.id := extension];
      hookCalls := hookCalls + [HookCall(extension.id, OnInstall)];
      if extension.onInstall.Throws? {
        return Failure(HookThrew(extension.id, OnInstall));
      }
      return Success(extension.id);
    }

    /** `uninstallExtension`. */
    method Uninstall(id: string) returns (result: Result<(), ManagerError>)
      requires Valid()
      modifies this
      ensures Valid()
      ensures var step := Uninstalling(old(Current()), id);
        result == step.result && Current() == step.after && hookCalls == old(hookCalls) + step.calls
    {
      UninstallingSpec(Current(), id);
      if id !in loaded {
        return Failure(NotFound(id));
      }
      var extension := loaded[id];
      if id in enabled {
        var disabled := Disable(id);
        if disabled.Throws? {
          return Failure(HookThrew(id, OnDisable));
        }
      }
      hookCalls := hookCalls + [HookCall(id, OnUninstall)];
      if extension.onUninstall.Throws? {
        return Failure(HookThrew(id, OnUninstall));
      }
      loaded := loaded - {id};
      return Success(());
    }

    /** `enableExtension`; the returned outcome is what `onEnable` gave, if it ran. */
    method Enable(id: string) returns (outcome: Outcome<()>)
      requires Valid()
      modifies this
      ensures Valid()
      ensures var step := Enabling(old(Current()), id);
        outcome == step.result && Current() == step.after && hookCalls == old(hookCalls) + step.calls
    {
      EnablingSpec(Current(), id);
      if id !in loaded {
        return Ok(());
      }
      var extension := loaded[id];
      if id in enabled {
        return Ok(());
      }
      enabled := enabled + [id];
      hookCalls := hookCalls + [HookCall(id, OnEnable)];
      return extension.onEnable;
    }

    /** `disableExtension`; the returned outcome is what `onDisable` gave, if it ran. */
    method Disable(id: string) returns (outcome: Outcome<()>)
      requires Valid()
      modifies this
      ensures Valid()
      ensures var step := Disabling(old(Current()), id);
        outcome == step.result && Current() == step.after && hookCalls == old(hookCalls) + step.calls
    {
      DisablingSpec(Current(), id);
      if id !in loaded {
        return Ok(());
      }
      var extension := loaded[id];
      if id !in enabled {
        return Ok(());
      }
      enabled := Remove(enabled, id);
      hookCalls := hookCalls + [HookCall(id, OnDisable)];
      return extension.onDisable;
    }

    /** `isEnabled`. */
    function IsEnabled(id: string): (r: bool)
      reads this
      ensures Valid() ==> (r <==> id in loaded && loaded[id] in EnabledExtensions())
    {
      EnabledIffReached(Current(), id);
      id in enabled
    }

    /** `getEnabledExtensions`. */
    function EnabledExtensions(): (r: seq<LauncherExtension>)
      reads this
      ensures |r| <= |enabled|
      ensures Valid() ==> |r| == |enabled| && forall i :: 0 <= i < |r| ==> r[i] == loaded[enabled[i]] && r[i].id == enabled[i]
    {
      LiveExtensions(loaded, enabled)
    }

    /**
     * `onLauncherStart`, `onAppLaunched`, `onAppDrawerOpened` and
     * `onHomeScreenLongPress`: each enabled extension's handler of the event
     * is called once, in order; one that throws is logged (here: returned)
     * and the rest still run.
     */
    method DispatchEvent(event: LauncherEvent) returns (failed: seq<string>)
      modifies this
      ensures loaded == old(loaded) && enabled == old(enabled)
      ensures hookCalls == old(hookCalls) + CallsOf(EnabledExtensions(), OnEvent(event))
      ensures failed == FailedOn(EnabledExtensions(), event)
    {
      var extensions := EnabledExtensions();
      failed := [];
      var i := 0;
      while i < |extensions|
        invariant 0 <= i <= |extensions|
        invariant loaded == old(loaded) && enabled == old(enabled)
        invariant hookCalls == old(hookCalls) + CallsOf(extensions[..i], OnEvent(event))
        invariant failed == FailedOn(extensions[..i], event)
      {
        DispatchStep(extensions, i, event);
        var call := HookCall(extensions[i].id, OnEvent(event));
        assert hookCalls + [call] == old(hookCalls) + (CallsOf(extensions[..i], OnEvent(event)) + [call]);
        hookCalls := hookCalls + [call];
        if extensions[i].EventHook(event).Throws? {
          failed := failed + [extensions[i].id];
        }
        i := i + 1;
      }
      assert extensions[..i] == extensions;
    }

    /** `queryExtensions`: every enabled extension is asked once; the answers, highest priority first. */
    method QueryExtensions(query: string, context: LauncherContext) returns (responses: seq<ExtensionResponse>)
      modifies this
      ensures loaded == old(loaded) && enabled == old(enabled)
      ensures hookCalls == old(hookCalls) + CallsOf(EnabledExtensions(), OnAIQuery(query))
      ensures responses == QueryResponses(EnabledExtensions(), query, context)
    {
      var extensions := EnabledExtensions();
      var collected := [];
      var i := 0;
      while i < |extensions|
        invariant 0 <= i <= |extensions|
        invariant loaded == old(loaded) && enabled == old(enabled)
        invariant hookCalls == old(hookCalls) + CallsOf(extensions[..i], OnAIQuery(query))
        invariant collected == Collect(extensions[..i], AnswerOf(query, context))
      {
        QueryStep(extensions, i, query, context);
        var answer := extensions[i].onAIQuery(query, context);
        var call := HookCall(extensions[i].id, OnAIQuery(query));
        assert hookCalls + [call] == old(hookCalls) + (CallsOf(extensions[..i], OnAIQuery(query)) + [call]);
        hookCalls := hookCalls + [call];
        if answer.Ok? && answer.value.Some? {
          collected := collected + [answer.value.value];
        }
        i := i + 1;
      }
      assert extensions[..i] == extensions;
      responses := SortByDescending(collected, Priority);
    }

    /** `getExtensionWidgets`. */
    function ExtensionWidgets(): (r: seq<ExtensionWidget>)
      reads this
      ensures |r| <= |enabled|
      ensures Valid() ==>
        forall i :: 0 <= i < |enabled| && WidgetOf(loaded[enabled[i]]).Ok? && WidgetOf(loaded[enabled[i]]).value.Some?
          ==> WidgetOf(loaded[enabled[i]]).value.value in r
      ensures Valid() ==> forall x :: x in r ==> exists i :: 0 <= i < |enabled| && Yields(WidgetOf(loaded[enabled[i]]), x)
    {
      CollectOverEnabled(Current(), WidgetOf);
      Collect(EnabledExtensions(), WidgetOf)
    }

    /** `getSearchProviders`. */
    function SearchProviders(): (r: seq<SearchProvider>)
      reads this
      ensures |r| <= |enabled|
      ensures Valid() ==>
        forall i :: 0 <= i < |enabled| && SearchProviderOf(loaded[enabled[i]]).Ok? && SearchProviderOf(loaded[enabled[i]]).value.Some?
          ==> SearchProviderOf(loaded[enabled[i]]).value.value in r
      ensures Valid() ==> forall x :: x in r ==> exists i :: 0 <= i < |enabled| && Yields(SearchProviderOf(loaded[enabled[i]]), x)
    {
      CollectOverEnabled(Current(), SearchProviderOf);
      Collect(EnabledExtensions(), SearchProviderOf)
    }

    /** `getExtensionThemes`. */
    function ExtensionThemes(): (r: seq<ExtensionTheme>)
      reads this
      ensures |r| <= |enabled|
      ensures Valid() ==>
        forall i :: 0 <= i < |enabled| && ThemeOf(loaded[enabled[i]]).Ok? && ThemeOf(loaded[enabled[i]]).value.Some?
          ==> ThemeOf(loaded[enabled[i]]).value.value in r
      ensures Valid() ==> forall x :: x in r ==> exists i :: 0 <= i < |enabled| && Yields(ThemeOf(loaded[enabled[i]]), x)
    {
      CollectOverEnabled(Current(), ThemeOf);
      Collect(EnabledExtensions(), ThemeOf)
    }

    /**
     * `loadInstalledExtensions`; `listing` is the directory listing, `None`
     * when the directory is missing or cannot be listed. Each ".kts" file that
     * loads is filed under its extension's id; the enabled set is untouched.
     */
    method LoadInstalledExtensions(listing: Option<seq<FileEntry>>)
      requires Valid()
      modifies this
      ensures Valid()
      ensures enabled == old(enabled) && hookCalls == old(hookCalls)
      ensures loaded == (if listing.None? then old(loaded) else LoadAll(old(loaded), loader.registry, KtsFiles(listing.value)))
    {
      if listing.None? {
        return;
      }
      var names := KtsFiles(listing.value);
      var i := 0;
      while i < |names|
        invariant 0 <= i <= |names|
        invariant enabled == old(enabled) && hookCalls == old(hookCalls)
        invariant loaded == LoadAll(old(loaded), loader.registry, names[..i])
        invariant Valid()
      {
        assert names[..i + 1][..i] == names[..i];
        var extension := loader.LoadFromFile(names[i]);
        if extension.Some? {
          loaded := loaded[extension.value.id := extension.value];
        }
        i := i + 1;
      }
      assert names[..i] == names;
    }
  }
}
