/**
 * The state customtab.py keeps: the window manager shared by every add-on
 * that ships a copy of the module (the tab registry, the user count, the
 * per-space tab properties), and each copy's own lists of the tabs and
 * panels it added. Blender's spaces are plain values here.
 */
module Host {
  import opened Options
  import opened Tabs
  import opened Registry
  import opened Panels

  // ---------------------------------------------------------------------
  // Keeping spaces and tab properties in step

  /** The tab a Properties space shows for a selected enum value: a native tab itself, a custom tab through the Tool tab. */
  function SpaceTabFor(selected: string): (r: string)
    ensures r in NativeIds()
    ensures r == selected || r == ToolTab
    ensures selected in NativeIds() ==> r == selected
    ensures selected !in NativeIds() ==> r == ToolTab
  {
    if selected in NativeIds() then selected else ToolTab
  }

  /** One space after `sync_spacecontext` for the property `propname`. */
  function Resync(s: Space, propname: string, tab: string): Space
  {
    if PropName(s) == Some(propname) then s.(context := Some(tab)) else s
  }

  /** The spaces after `sync_spacecontext`. */
  function SyncedSpaces(spaces: seq<Space>, propname: string, tab: string): (r: seq<Space>)
    ensures |r| == |spaces|
    ensures forall k :: 0 <= k < |r| && PropName(spaces[k]) == Some(propname) ==>
              r[k] == spaces[k].(context := Some(tab))
    ensures forall k :: 0 <= k < |r| && PropName(spaces[k]) != Some(propname) ==> r[k] == spaces[k]
  {
    seq(|spaces|, k requires 0 <= k < |spaces| => Resync(spaces[k], propname, tab))
  }

  /** The tab properties after `sync_customtab(space)`, when it returns normally. */
  function SyncedValues(values: map<string, string>, space: Space): map<string, string>
  {
    if space.context.Some? && space.kind == Properties && PropName(space).value in values then
      values[PropName(space).value := space.context.value]
    else values
  }

  /**
   * Selecting a tab in one editor's enum switches that editor, and only
   * that editor: every Properties space at the same address gets the tab,
   * every other space is left alone.
   */
  lemma SyncTouchesOneEditor(spaces: seq<Space>, editor: Space, selected: string, k: nat)
    requires editor.kind == Properties
    requires k < |spaces|
    ensures var r := SyncedSpaces(spaces, PropName(editor).value, SpaceTabFor(selected));
      && (spaces[k].kind == Properties && spaces[k].pointer == editor.pointer ==>
            r[k] == spaces[k].(context := Some(SpaceTabFor(selected))))
      && (!(spaces[k].kind == Properties && spaces[k].pointer == editor.pointer) ==> r[k] == spaces[k])
  {
    if spaces[k].kind == Properties {
      PropNameInjective(spaces[k], editor);
    }
  }

  /**
   * `sync_customtab` makes the space's property follow its `context`, and
   * leaves the property of every editor at another address alone.
   */
  lemma SyncedValuesFollowSpace(values: map<string, string>, space: Space, other: Space)
    requires space.kind == Properties && space.context.Some?
    requires PropName(space).value in values
    ensures TabValue(SyncedValues(values, space), space) == space.context
    ensures SyncedValues(values, space).Keys == values.Keys
    ensures other.pointer != space.pointer ==> TabValue(SyncedValues(values, space), other) == TabValue(values, other)
  {
    if other.kind == Properties {
      PropNameInjective(other, space);
    }
  }

  /**
   * Syncing a space from a native selection and then the property from the
   * space is a round trip: the property keeps its value. For a custom
   * selection the space shows the Tool tab, so the second sync would
   * overwrite the selection with the Tool tab.
   */
  lemma SyncRoundTrip(values: map<string, string>, space: Space)
    requires space.kind == Properties
    requires PropName(space).value in values
    ensures var propname := PropName(space).value;
      var selected := values[propname];
      var synced := Resync(space, propname, SpaceTabFor(selected));
      && (selected in NativeIds() ==> SyncedValues(values, synced) == values)
      && (selected !in NativeIds() ==> SyncedValues(values, synced) == values[propname := ToolTab])
  {
    var propname := PropName(space).value;
    var selected := values[propname];
    var synced := Resync(space, propname, SpaceTabFor(selected));
    assert synced == space.(context := Some(SpaceTabFor(selected)));
    assert PropName(synced) == PropName(space);
  }

  // ---------------------------------------------------------------------
  // Counting the add-ons that use the module

  /** The window manager's user count, whether the global hooks are installed, and how often they were. */
  datatype Counting = Counting(usercount: Option<int>, hooksInstalled: bool, installs: nat)

  const Unused := Counting(None, false, 0)

  /** `register()`: count one more user; the first one creates the count and installs the hooks. */
  function AfterRegister(c: Counting): (r: Counting)
    ensures r.usercount == Some(if c.usercount.Some? then c.usercount.value + 1 else 1)
    ensures c.usercount.None? ==> r.hooksInstalled && r.installs == c.installs + 1
    ensures c.usercount.Some? ==> r.hooksInstalled == c.hooksInstalled && r.installs == c.installs
  {
    match c.usercount
    case Some(n) => c.(usercount := Some(n + 1))
    case None => Counting(Some(1), true, c.installs + 1)
  }

  /** `unregister()`: count one user less, or fail without a count; the hooks stay in place. */
  function AfterUnregister(c: Counting): (r: Counting)
    ensures r.hooksInstalled == c.hooksInstalled && r.installs == c.installs
    ensures r.usercount.Some? <==> c.usercount.Some?
  {
    match c.usercount
    case Some(n) => c.(usercount := Some(n - 1))
    case None => c
  }

  datatype Call = RegisterCall | UnregisterCall

  function Replay(c: Counting, calls: seq<Call>): Counting
  {
    if calls == [] then c
    else
      var prev := Replay(c, calls[..|calls| - 1]);
      if calls[|calls| - 1] == RegisterCall then AfterRegister(prev) else AfterUnregister(prev)
  }

  function Occurrences(calls: seq<Call>, call: Call): nat
  {
    if calls == [] then 0
    else Occurrences(calls[..|calls| - 1], call) + (if calls[|calls| - 1] == call then 1 else 0)
  }

  /**
   * Before any add-on registers, unregistering changes nothing; once one has,
   * the hooks are installed exactly once and never removed.
   */
  lemma {:induction false} HooksInstalledOnce(calls: seq<Call>)
    ensures RegisterCall !in calls ==> Replay(Unused, calls) == Unused
    ensures RegisterCall in calls ==>
      && Replay(Unused, calls).hooksInstalled
      && Replay(Unused, calls).installs == 1
      && Replay(Unused, calls).usercount.Some?
  {
    if calls != [] {
      var init := calls[..|calls| - 1];
      HooksInstalledOnce(init);
      assert calls == init + [calls[|calls| - 1]];
    }
  }

  /** Starting from a first `register()`, the count is the number of registrations minus unregistrations. */
  lemma {:induction false} UserCountBalance(calls: seq<Call>)
    requires calls != [] && calls[0] == RegisterCall
    ensures Replay(Unused, calls).usercount ==
              Some(Occurrences(calls, RegisterCall) - Occurrences(calls, UnregisterCall))
  {
    if |calls| > 1 {
      var init := calls[..|calls| - 1];
      assert init[0] == RegisterCall;
      UserCountBalance(init);
    }
  }

  // ---------------------------------------------------------------------
  // The shared window manager

  class WindowManager {
    /** The shared tab registry. */
    var registry: Entries
    /** The user count; absent until the first `register()`. */
    var usercount: Option<int>
    /** Whether the timers, handlers and drawing impostors are installed. */
    var hooksInstalled: bool
    ghost var installs: nat
    /** The per-space tab properties, by property name. */
    var tabValues: map<string, string>

    constructor()
      ensures registry == [] && usercount.None? && !hooksInstalled && installs == 0 && tabValues == map[]
    {
      registry := [];
      usercount := None;
      hooksInstalled := false;
      installs := 0;
      tabValues := map[];
    }

    ghost function State(): Counting
      reads this
    {
      Counting(usercount, hooksInstalled, installs)
    }

    /** `_append_registry`. */
    method AppendRegistry(t: Tab)
      modifies this`registry
      ensures registry == old(registry) + [Some(t)]
    {
      registry := registry + [Some(t)];
    }

    /** `_remove_from_registry`: find the first entry with the id, then remove it. */
    method RemoveFromRegistry(uniqueid: string)
      modifies this`registry
      ensures registry == RemoveFirst(old(registry), uniqueid)
    {
      var torem: Option<nat> := None;
      var i := 0;
      while i < |registry|
        invariant 0 <= i <= |registry|
        invariant forall j :: 0 <= j < i ==> !(registry[j].Some? && registry[j].value.id == uniqueid)
      {
        if registry[i].Some? && registry[i].value.id == uniqueid {
          torem := Some(i);
          break;
        }
        i := i + 1;
      }
      assert torem == FirstMatch(registry, uniqueid);
      if torem.Some? {
        registry := registry[..torem.value] + registry[torem.value + 1..];
      }
    }

    /** The loop of `unregister()` that removes a module's ids one by one. */
    method RemoveIds(ids: seq<string>)
      modifies this`registry
      ensures registry == RemoveAll(old(registry), ids)
    {
      var k := 0;
      while k < |ids|
        invariant 0 <= k <= |ids|
        invariant registry == RemoveAll(old(registry), ids[..k])
      {
        assert ids[..k + 1][..k] == ids[..k];
        RemoveFromRegistry(ids[k]);
        k := k + 1;
      }
      assert ids[..k] == ids;
    }

    /**
     * `sync_spacecontext`: switch every space of the editor that owns
     * `propname` to the selected tab, custom tabs going through the Tool
     * tab. `None` where reading the missing property raises.
     */
    method SyncSpaceContext(propname: string, spaces: seq<Space>) returns (updated: Option<seq<Space>>)
      ensures updated.Some? <==> propname in tabValues
      ensures updated.Some? ==> updated.value == SyncedSpaces(spaces, propname, SpaceTabFor(tabValues[propname]))
    {
      if propname !in tabValues {
        return None;
      }
      var selected := tabValues[propname];
      if selected !in NativeIds() {
        selected := ToolTab;
      }
      var out: seq<Space> := [];
      var k := 0;
      while k < |spaces|
        invariant 0 <= k <= |spaces|
        invariant |out| == k
        invariant forall j :: 0 <= j < k ==> out[j] == Resync(spaces[j], propname, selected)
      {
        var s := spaces[k];
        if PropName(s) == Some(propname) {
          s := s.(context := Some(selected));
        }
        out := out + [s];
        k := k + 1;
      }
      return Some(out);
    }

    /**
     * `sync_customtab`: copy the space's `context` into its tab property.
     * Returns false where the source raises (a non-Properties space that
     * has a `context`); a missing property is only warned about.
     */
    method SyncCustomTab(space: Space) returns (ok: bool)
      modifies this`tabValues
      ensures ok <==> space.context.None? || space.kind == Properties
      ensures tabValues == SyncedValues(old(tabValues), space)
    {
      if space.context.None? {
        return true;
      }
      var dynpropname := PropName(space);
      if dynpropname.None? {
        return false;
      }
      if dynpropname.value !in tabValues {
        return true;
      }
      if tabValues[dynpropname.value] != space.context.value {
        tabValues := tabValues[dynpropname.value := space.context.value];
      }
      return true;
    }
  }

  // ---------------------------------------------------------------------
  // One add-on's copy of the module

  /** What `append_tab` does with a call. */
  datatype AppendOutcome = Appended | Refused(check: AppendCheck) | PanelRefused(index: nat, error: PanelError)

  /** How many of `panels`, from the front, `_reg_userpanel` accepts before the first it refuses. */
  function ValidPrefix(panels: seq<PanelClass>): (n: nat)
    ensures n <= |panels|
    ensures forall k :: 0 <= k < n ==> CheckUserPanel(panels[k]).None?
    ensures n < |panels| ==> CheckUserPanel(panels[n]).Some?
  {
    if panels == [] then 0
    else if CheckUserPanel(panels[0]).Some? then 0
    else
      var n := ValidPrefix(panels[1..]);
      assert forall k :: 0 < k <= n ==> panels[k] == panels[1..][k - 1];
      n + 1
  }

  function PatchAll(panels: seq<PanelClass>, uniqueid: string): (r: seq<UserPanel>)
    ensures |r| == |panels|
    ensures forall k :: 0 <= k < |r| ==> r[k] == Patch(panels[k], uniqueid)
  {
    seq(|panels|, k requires 0 <= k < |panels| => Patch(panels[k], uniqueid))
  }

  lemma PatchAllSnoc(panels: seq<PanelClass>, k: nat, uniqueid: string)
    requires k < |panels|
    ensures PatchAll(panels[..k + 1], uniqueid) == PatchAll(panels[..k], uniqueid) + [Patch(panels[k], uniqueid)]
  {
    assert panels[..k + 1] == panels[..k] + [panels[k]];
  }

  /** Every user panel belongs to a custom tab, never to the native Tool tab. */
  predicate CustomPanels(panels: seq<UserPanel>)
  {
    forall k :: 0 <= k < |panels| ==> panels[k].tabId != ToolTab
  }

  class TabModule {
    const wm: WindowManager
    /** The ids this copy added to the shared registry. */
    var appended: seq<string>
    /** The patched panels this copy registered. */
    var userPanels: seq<UserPanel>

    constructor(wm: WindowManager)
      ensures this.wm == wm && appended == [] && userPanels == []
    {
      this.wm := wm;
      appended := [];
      userPanels := [];
    }

    /** `_reg_userpanel`: check a panel and register its patched subclass. */
    method RegisterUserPanel(panel: PanelClass, uniqueid: string) returns (error: Option<PanelError>)
      modifies this`userPanels
      ensures error == CheckUserPanel(panel)
      ensures error.Some? ==> userPanels == old(userPanels)
      ensures error.None? ==> userPanels == old(userPanels) + [Patch(panel, uniqueid)]
    {
      error := CheckUserPanel(panel);
      if error.None? {
        userPanels := userPanels + [Patch(panel, uniqueid)];
      }
    }

    /**
     * `append_tab`: refuse a missing id or icon, a native id or a taken id;
     * otherwise add the tab to the shared registry, remember its id, and
     * register its panels up to the first invalid one.
     */
    method AppendTab(uniqueid: string, icon: Icon, name: string, description: string, poll: Option<PollFn>,
                     header: Option<nat>, draw: Option<nat>, panels: seq<PanelClass>, group: string)
      returns (outcome: AppendOutcome)
      modifies this, wm`registry
      ensures var check := CheckAppend(uniqueid, icon, old(wm.registry));
        check != Accepted ==>
          outcome == Refused(check) && wm.registry == old(wm.registry)
          && appended == old(appended) && userPanels == old(userPanels)
      ensures var check := CheckAppend(uniqueid, icon, old(wm.registry));
        var n := ValidPrefix(panels);
        check == Accepted ==>
          && wm.registry == old(wm.registry) + [Some(Tab(uniqueid, name, description, icon, poll, header, draw, group))]
          && appended == old(appended) + [uniqueid]
          && userPanels == old(userPanels) + PatchAll(panels[..n], uniqueid)
          && outcome == (if n == |panels| then Appended else PanelRefused(n, CheckUserPanel(panels[n]).value))
      ensures UniqueIds(old(wm.registry)) ==> UniqueIds(wm.registry)
      ensures CustomPanels(old(userPanels)) ==> CustomPanels(userPanels)
    {
      var check := CheckAppend(uniqueid, icon, wm.registry);
      if check != Accepted {
        return Refused(check);
      }
      var t := Tab(uniqueid, name, description, icon, poll, header, draw, group);
      if UniqueIds(wm.registry) {
        AppendKeepsUnique(wm.registry, t);
      }
      wm.AppendRegistry(t);
      appended := appended + [uniqueid];
      outcome := RegisterPanels(panels, uniqueid);
    }

    /** The panel loop of `append_tab`: register each panel, stopping at the first one refused. */
    method RegisterPanels(panels: seq<PanelClass>, uniqueid: string) returns (outcome: AppendOutcome)
      modifies this`userPanels
      ensures var n := ValidPrefix(panels);
        && userPanels == old(userPanels) + PatchAll(panels[..n], uniqueid)
        && outcome == (if n == |panels| then Appended else PanelRefused(n, CheckUserPanel(panels[n]).value))
    {
      var k := 0;
      while k < |panels|
        invariant 0 <= k <= ValidPrefix(panels)
        invariant userPanels == old(userPanels) + PatchAll(panels[..k], uniqueid)
      {
        var error := RegisterUserPanel(panels[k], uniqueid);
        if error.Some? {
          assert k == ValidPrefix(panels);
          return PanelRefused(k, error.value);
        }
        PatchAllSnoc(panels, k, uniqueid);
        k := k + 1;
      }
      return Appended;
    }

    /** `register()`. */
    method Register()
      modifies wm`usercount, wm`hooksInstalled, wm`installs
      ensures wm.State() == AfterRegister(old(wm.State()))
    {
      if wm.usercount.Some? {
        wm.usercount := Some(wm.usercount.value + 1);
      } else {
        wm.usercount := Some(1);
        wm.hooksInstalled := true;
        wm.installs := wm.installs + 1;
      }
    }

    /**
     * `unregister()`: fails without a user count; otherwise counts one user
     * less, removes this copy's tabs from the shared registry and forgets its
     * panels. The hooks stay installed.
     */
    method Unregister() returns (ok: bool)
      modifies this, wm`registry, wm`usercount
      ensures wm.State() == AfterUnregister(old(wm.State()))
      ensures ok <==> old(wm.usercount).Some?
      ensures !ok ==> wm.registry == old(wm.registry) && appended == old(appended) && userPanels == old(userPanels)
      ensures ok ==> wm.registry == RemoveAll(old(wm.registry), old(appended)) && appended == [] && userPanels == []
    {
      if wm.usercount.None? {
        return false;
      }
      wm.usercount := Some(wm.usercount.value - 1);
      wm.RemoveIds(appended);
      appended := [];
      userPanels := [];
      return true;
    }
  }
}
