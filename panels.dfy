/**
 * The visibility rules the module installs on panels: native Tool-tab
 * panels are hidden while a custom tab is selected, and a user panel is
 * shown only in the Tool tab while its own tab is selected.
 */
module Panels {
  import opened Options
  import opened Tabs
  import opened TextOps

  /** A panel class's own `poll`, given the context and the space it is drawn in. */
  type PanelPoll = (Context, Space) -> bool

  /**
   * A panel class handed to `append_tab`: its class name, whether it derives
   * from `bpy.types.Panel`, whether it already carries the patch marker, and
   * its `poll`, if it has one.
   */
  datatype PanelClass = PanelClass(className: string, isPanel: bool, patched: bool, poll: Option<PanelPoll>)

  /** The subclass `_reg_userpanel` registers in place of a user panel. */
  datatype UserPanel = UserPanel(className: string, tabId: string, originalPoll: Option<PanelPoll>)

  /** Why `_reg_userpanel` refuses a panel. */
  datatype PanelError = NotAPanel | MissingPanelKeyword | AlreadyPatched

  /** The class name of the one native panel drawn as the Tool tab's header. */
  const HeaderPanel := "VIEW3D_PT_active_tool_duplicate"

  const PanelKeyword := "_PT_"

  /** The checks of `_reg_userpanel`, in the order it makes them. */
  function CheckUserPanel(panel: PanelClass): (r: Option<PanelError>)
    ensures r.None? <==> panel.isPanel && IndexOf(panel.className, PanelKeyword).Some? && !panel.patched
    ensures r == Some(AlreadyPatched) ==> panel.isPanel && IndexOf(panel.className, PanelKeyword).Some?
  {
    if !panel.isPanel then Some(NotAPanel)
    else if !IndexOf(panel.className, PanelKeyword).Some? then Some(MissingPanelKeyword)
    else if panel.patched then Some(AlreadyPatched)
    else None
  }

  /** The patched subclass registered for a valid user panel of tab `uniqueid`. */
  function Patch(panel: PanelClass, uniqueid: string): UserPanel
  {
    UserPanel(panel.className, uniqueid, panel.poll)
  }

  /** The panel's own poll; a panel without one always passes. */
  predicate OriginalHolds(poll: Option<PanelPoll>, ctx: Context, space: Space)
  {
    poll.None? || poll.value(ctx, space)
  }

  /**
   * The `poll` of a patched native panel: its own poll, and, while the
   * space shows the Tool tab, either it is the header panel or the selected
   * tab is the native Tool tab (or no tab property exists yet).
   */
  function NativePanelVisible(className: string, originalPoll: Option<PanelPoll>, ctx: Context, space: Space,
                              values: map<string, string>): (r: bool)
    ensures !InToolTab(space) ==> (r <==> OriginalHolds(originalPoll, ctx, space))
    ensures className == HeaderPanel ==> (r <==> OriginalHolds(originalPoll, ctx, space))
    ensures InToolTab(space) && className != HeaderPanel ==>
      (r <==> OriginalHolds(originalPoll, ctx, space)
              && (TabValue(values, space) == Some(ToolTab) || TabValue(values, space).None?))
  {
    var originalCond := OriginalHolds(originalPoll, ctx, space);
    var addedCond :=
      if space.kind == Properties && space.context == Some(ToolTab) then
        var tabval := TabValue(values, space);
        if className == HeaderPanel then true else tabval == Some(ToolTab) || tabval == None
      else true;
    originalCond && addedCond
  }

  /**
   * The `poll` of a patched user panel: only in a Properties space showing
   * the Tool tab, only when its own poll holds, and only when its tab is
   * the one selected for that space.
   */
  function UserPanelVisible(panel: UserPanel, ctx: Context, space: Space, values: map<string, string>): (r: bool)
    ensures r ==> InToolTab(space)
    ensures r ==> TabValue(values, space) == Some(panel.tabId)
    ensures InToolTab(space) && TabValue(values, space) == Some(panel.tabId) ==>
              (r <==> OriginalHolds(panel.originalPoll, ctx, space))
  {
    if space.kind != Properties then false
    else if space.context != Some(ToolTab) then false
    else
      var originalCond := OriginalHolds(panel.originalPoll, ctx, space);
      originalCond && TabValue(values, space) == Some(panel.tabId)
  }

  /**
   * A custom tab's panels and the native Tool-tab panels are never shown
   * together: whenever a user panel of a non-native tab is visible, every
   * native panel except the header is hidden.
   */
  lemma CustomTabHidesNativePanels(panel: UserPanel, className: string, originalPoll: Option<PanelPoll>,
                                   ctx: Context, space: Space, values: map<string, string>)
    requires panel.tabId != ToolTab
    requires UserPanelVisible(panel, ctx, space, values)
    requires className != HeaderPanel
    ensures !NativePanelVisible(className, originalPoll, ctx, space, values)
  {
  }

  /** User panels of two different tabs are never visible in the same space at once. */
  lemma OneCustomTabAtATime(p: UserPanel, q: UserPanel, ctx: Context, space: Space, values: map<string, string>)
    requires UserPanelVisible(p, ctx, space, values) && UserPanelVisible(q, ctx, space, values)
    ensures p.tabId == q.tabId
  {
  }

  /** Outside the Tool tab every user panel is hidden and every native panel behaves as unpatched. */
  lemma PatchTransparentOutsideTool(panel: UserPanel, className: string, originalPoll: Option<PanelPoll>,
                                    ctx: Context, space: Space, values: map<string, string>)
    requires !InToolTab(space)
    ensures !UserPanelVisible(panel, ctx, space, values)
    ensures NativePanelVisible(className, originalPoll, ctx, space, values) == OriginalHolds(originalPoll, ctx, space)
  {
  }

  /** While the native Tool tab is selected, the native panels show exactly as they would unpatched. */
  lemma ToolSelectedShowsNative(className: string, originalPoll: Option<PanelPoll>,
                                ctx: Context, space: Space, values: map<string, string>)
    requires TabValue(values, space) == Some(ToolTab)
    ensures NativePanelVisible(className, originalPoll, ctx, space, values) == OriginalHolds(originalPoll, ctx, space)
  {
  }
}
