# Custom Properties tabs — a verified model

`customtab.py` is a module that Blender add-ons ship to add their own tabs
to the Properties editor's tab bar. Each tab is listed in one registry
shared on the window manager by every add-on that carries a copy of the
module. For every Properties editor the module builds an enum of tabs:
the native tabs the editor currently offers, merged with the registered
user tabs group by group, filtered by context and polls, and separated
into groups by `None` spacers. Selecting a user tab switches the editor to
its native Tool tab. Patched panel `poll`s then hide the native Tool panels
and show only that tab's panels.

This project models that core in Dafny and proves its properties:

- `options.dfy`: the `Option` type.
- `textops.dfy`: the Python string operations the module relies on. It covers `find`, `split`, `replace` and the decimal rendering of an address.
- `tabs.dfy`: the data model (context, spaces, tab entries) and the native tab table. It also holds the context polls, the data-icon lookup and the per-space property name and value.
- `available.dfy`: recovering the available native tabs from Blender's error message.
- `merge.dfy`: merging registry tabs into the native list by group. It has a specification function and the in-place loop with its group-to-last-index table.
- `emit.dfy`: filtering and emitting enum tuples with consecutive numbers and group spacers, plus the whole `_generate_enumitems`.
- `registry.dfy`: the registry lookups and edits, and the checks `append_tab` makes.
- `panels.dfy`: the visibility rules of patched native panels and of user panels.
- `host.dfy`: two classes.
  - `WindowManager` holds the shared registry, the user count and the per-space tab properties.
  - `TabModule` is one add-on's copy of the module: `append_tab`, `register` and `unregister`.
  - It also holds the two sync functions.

The host is plain data:
- The context is reduced to the active object and whether the context collection is the scene's master collection.
- A space is its type, its address and its `context` value.
- A tab poll is a function that returns true or false, or raises.
- The error message and the list of spaces are inputs.

## Model

| member | source | states |
|---|---|---|
| Tabs.NativeIds | customtab.py:197-201 | the native ids are those of the native tab table, in order, and the first is the Tool tab |
| Tabs.NativeIdsDistinct | customtab.py:172-201 | no two native tabs share an id |
| Tabs.PollObject | customtab.py:130-131 | the Object group is available exactly when there is an active object |
| Tabs.PollCollection | customtab.py:127-128 | the Collection group is available exactly when the context collection is not the scene's master collection |
| Tabs.DataIcon | customtab.py:236-269 | no object or an unknown type gives QUESTION; an empty holding an image gives IMAGE_DATA, and exactly then; any other known type, an empty without an image included, gives its table icon |
| Tabs.PropName | customtab.py:280-292 | a name exists exactly for Properties spaces, and it starts with `TabCustv1_enum` |
| Tabs.PropNameInjective | customtab.py:289-292 | two Properties spaces get the same property name if and only if they have the same address |
| Tabs.TabValue | customtab.py:294-305 | no value for a non-Properties space; otherwise the stored property value, present exactly when the property exists |
| TextOps.IndexOf | customtab.py:367 | the position of the first occurrence of the pattern, or none when it does not occur |
| TextOps.RemoveChar | customtab.py:367-368 | removing a character leaves no occurrence of it and keeps every other character |
| TextOps.Split | customtab.py:368 | splitting yields at least one token and no token holds the separator |
| TextOps.JoinSplit | customtab.py:368 | joining the tokens of a split with the separator gives back the string |
| TextOps.SplitJoin | customtab.py:368 | splitting a join of separator-free tokens gives back the tokens |
| TextOps.DecimalRoundTrip | customtab.py:289-292 | the decimal rendering of an address reads back as that address |
| TextOps.DecimalInjective | customtab.py:289-292 | distinct addresses render differently |
| Available.Segment | customtab.py:367 | the text after the first marker exists exactly when the message contains the marker |
| Available.SegmentBetweenMarkers | customtab.py:367 | the segment is the second field of splitting at the marker: it starts right after the first marker, holds no marker, and ends at the next marker or at the end of the message |
| Available.AvailableTabs | customtab.py:366-368 | a set is produced exactly when the message contains `not found in (`; its tokens hold no comma |
| Available.ParseRoundTrip | customtab.py:366-368 | for a message ending in Blender's rendering of a tuple of plain ids, the parsed set is exactly those ids |
| GroupMerge.Merge | customtab.py:371-399 | the merged list holds the native items plus one item per non-`None` registry entry |
| GroupMerge.MergeProjections | customtab.py:371-399 | the merge keeps the native items in their order, and each group's items are its native items followed by its registry tabs in registry order |
| GroupMerge.StepPlacement | customtab.py:386-399 | a registry tab goes right after the last item of its group, or at the end when the group is new, and becomes the last item of its group |
| GroupMerge.LastOfGroup | customtab.py:376-379 | the index found holds the group and no later item does; none is found only when the group is absent |
| GroupMerge.ShiftFrom | customtab.py:391-393 | every recorded index at or after the insertion point moves up by one, the others stay |
| GroupMerge.StepOfGroup | customtab.py:386-399 | one insertion appends the new tab to its own group's items and leaves every other group's items as they were |
| GroupMerge.StepNatives | customtab.py:386-399 | one insertion keeps the native items in their order |
| GroupMerge.IndexGroups | customtab.py:375-379 | the first loop records, for every group of the native list, the index of its last item |
| GroupMerge.InsertTab | customtab.py:385-399 | placing one registry tab by the index table is one merge step, and the table stays exact |
| GroupMerge.MergeRegistry | customtab.py:371-399 | the in-place insertion loop with its index table computes the merge |
| Emit.KeptExactly | customtab.py:407-426 | a tab is kept exactly when it is not an unavailable native tab, not an Object-group tab without an active object, not a Collection-group tab in the scene collection, and its poll neither returns false nor raises |
| Emit.ResolveIcon | customtab.py:435-437 | the data-icon placeholder becomes the active object's data icon; every other icon is kept |
| Emit.LayoutTuples | customtab.py:428-440 | the emitted tuples are the kept tabs in order, numbered 0, 1, 2, … |
| Emit.LayoutSpacersInside | customtab.py:428-431 | a spacer never starts or ends the list and always sits between two tuples |
| Emit.SpacerBetween | customtab.py:428-440 | consecutive kept tabs of the same group are adjacent; of different groups they are separated by exactly one spacer |
| Emit.LayoutLength | customtab.py:428-440 | the list has one entry per kept tab plus one per group change |
| Emit.LayoutBounds | customtab.py:428-440 | the first kept tab opens the list and the last closes it |
| Emit.Passes | customtab.py:407-426 | the skip checks pass exactly when the tab is kept by the filter |
| Emit.EmitItems | customtab.py:401-443 | the filtering and emitting loop yields the layout of the kept tabs |
| Emit.GenerateEnumItems | customtab.py:349-443 | nothing is generated without a Properties space that has a context; a message without the marker fails; otherwise the layout of the filtered merge |
| Emit.GeneratedShape | customtab.py:349-443 | every generated list numbers its tuples consecutively from 0 and has spacers only between tuples |
| Emit.DefaultIndex | customtab.py:455 | the default is the number of the first tuple whose id is the current tab, and exists exactly when such a tuple exists |
| Registry.ExistingIds | customtab.py:508-511 | the ids listed are exactly those of the tab entries |
| Registry.FirstMatch | customtab.py:496-504 | the first entry with the id, or none when the id is not registered |
| Registry.RemoveFirst | customtab.py:496-506 | one entry fewer when the id is registered, the same registry otherwise |
| Registry.RemoveFirstShape | customtab.py:496-506 | only the first entry with the id is removed; all others, `None`s included, stay in order |
| Registry.RemoveFirstOtherIds | customtab.py:496-506 | removing an id keeps every other id registered and registers no new one |
| Registry.RemoveFirstGone | customtab.py:496-506 | with unique ids, the removed id is no longer registered |
| Registry.RemoveFirstUnique | customtab.py:496-506 | removing an entry keeps ids unique |
| Registry.RemoveFirstIds | customtab.py:496-506 | with unique ids, the removed id is gone, every other id stays, and ids stay unique |
| Registry.RemoveAllLeavesOthers | customtab.py:1011-1013 | with unique ids, removing a module's ids leaves exactly the other ids, still unique |
| Registry.FirstMatchIsFirst | customtab.py:497-502 | an entry with the id and none before it is exactly the entry the search stops at |
| Registry.GetFromRegistry | customtab.py:513-517 | an unregistered id gives `None`; a registered id gives the attribute of its first entry |
| Registry.GetAfterAppend | customtab.py:513-517 | after a new tab is appended, looking its id up returns that tab's attribute |
| Registry.AppendKeepsUnique | customtab.py:956-971 | appending a tab whose id is not registered keeps ids unique and adds its id at the end |
| Registry.CheckAppend | customtab.py:950-958 | a tab is accepted exactly when id and icon are given, the id is not native and not yet registered; a missing id or icon, a native id and a taken id each give their own refusal, checked in that order; an accepted id is never the Tool tab |
| Panels.CheckUserPanel | customtab.py:813-822 | a panel is accepted exactly when it derives from Panel, its name holds `_PT_`, and it is not already patched |
| Panels.NativePanelVisible | customtab.py:739-759 | outside the Tool tab, and for the header panel, only the panel's own poll counts; otherwise it also needs the Tool tab or no tab to be selected |
| Panels.UserPanelVisible | customtab.py:839-854 | visible only in the Tool tab of a Properties space with its own tab selected, and then exactly when its own poll holds |
| Panels.CustomTabHidesNativePanels | customtab.py:739-759 | while a user panel of a custom tab shows, every native panel except the header is hidden |
| Panels.OneCustomTabAtATime | customtab.py:839-854 | user panels of two different tabs are never visible at once |
| Panels.PatchTransparentOutsideTool | customtab.py:745-759 | outside the Tool tab user panels are hidden and native panels behave as unpatched |
| Panels.ToolSelectedShowsNative | customtab.py:751-759 | with the Tool tab selected, native panels behave as unpatched |
| Host.SpaceTabFor | customtab.py:316-319 | a space always gets a native tab: the selection itself when native, the Tool tab otherwise |
| Host.SyncedSpaces | customtab.py:321-325 | each space is switched exactly when its property name is the given one |
| Host.SyncTouchesOneEditor | customtab.py:321-325 | selecting in one editor's enum switches the spaces at that editor's address and leaves every other space alone |
| Host.SyncedValuesFollowSpace | customtab.py:329-346 | the space's property takes the space's context; other editors' properties are untouched |
| Host.SyncRoundTrip | customtab.py:307-346 | syncing a native selection into the space and back leaves the property unchanged; a custom selection would come back as the Tool tab |
| Host.AfterRegister | customtab.py:981-994 | the first registration creates the count at 1 and installs the hooks; later ones only count up |
| Host.AfterUnregister | customtab.py:998-1009 | unregistering never removes the hooks and keeps the count present or absent |
| Host.HooksInstalledOnce | customtab.py:981-1019 | over any sequence of calls the hooks are installed exactly once if someone registered, and nothing changes otherwise |
| Host.UserCountBalance | customtab.py:981-1009 | after a first registration the count is registrations minus unregistrations |
| Host.ValidPrefix | customtab.py:973-976 | the panels registered are the ones before the first refused panel |
| Host.WindowManager.AppendRegistry | customtab.py:492-494 | the entry is added at the end |
| Host.WindowManager.RemoveFromRegistry | customtab.py:496-506 | the search loop removes the first entry with the id |
| Host.WindowManager.RemoveIds | customtab.py:1011-1013 | removing each of the given ids in turn leaves the registry `RemoveAll` describes |
| Host.WindowManager.SyncSpaceContext | customtab.py:307-327 | fails when the property is missing; otherwise returns the spaces synced to the selection |
| Host.WindowManager.SyncCustomTab | customtab.py:329-346 | fails only for a non-Properties space that has a context; otherwise the property follows the space's context when it exists |
| Host.TabModule.RegisterUserPanel | customtab.py:808-859 | a refused panel changes nothing; an accepted one is registered as a patched panel of its tab |
| Host.TabModule.RegisterPanels | customtab.py:973-976 | registers the panels up to the first refused one and reports that one |
| Host.TabModule.AppendTab | customtab.py:933-978 | a refused call changes nothing; otherwise the tab is appended once, its id remembered and its valid panels registered; ids stay unique and user panels never belong to the Tool tab |
| Host.TabModule.Register | customtab.py:981-996 | the shared count and hooks change as the register step says |
| Host.TabModule.Unregister | customtab.py:998-1019 | fails without a count; otherwise counts down, removes this copy's ids from the registry, and clears its lists |

## Left out

- Class patching and registration are left out: `_reg_tool_impostors`, `_reg_nav_impostors` and `bpy.utils.register_class`. Only the patched `poll` rules are modelled, in `Panels`.
- Unregistering the user panel classes and restoring native ones are host class plumbing. `Unregister` only clears the list of user panels.
- Timers, app handlers and the per-space `EnumProperty` creation are tied to Blender's event loop and property system. Only the default index of the property is modelled, as `DefaultIndex`.
- Drawing is not modelled: the tab bar, the Tool-tab header and the user `header`/`draw` callbacks. Those callbacks are opaque handles in a tab entry.
- The available-tab message is taken as an input. Setting `space.context` to an invalid value to provoke it is not modelled, and neither is enumerating windows, areas and spaces.
- Printed warnings and debug output are not modelled.
- The commented-out teardown in `unregister` and the commented-out native polls are left out.
- `_del_registry` is never called from the core and is left out.
- The `native` tag is a flag on the merged item. The global native table is not mutated.
- Spaces are values: `SyncSpaceContext` returns the updated spaces instead of assigning `space.context` in place.
- `RemoveIds` holds the loop of `unregister` over the ids this copy appended. With unique ids, `RemoveAllLeavesOthers` states what that loop leaves.
- `RemoveFromRegistry` removes by index. The source remembers the dict and calls `list.remove`, which removes the first equal entry. That is the same entry, because an earlier equal dict would carry the same id.
- DataIcon: when no object is given, the source falls back to the global context's active object. The model uses the context it is given, so that case yields QUESTION.
- NativePanelVisible: a native panel's own poll is a total boolean function. Exceptions raised by it are not modelled.
- UserPanelVisible: a user panel's own poll is a total boolean function. Exceptions raised by it are not modelled.
- AfterRegister: the user count is an unbounded integer. Blender stores it in a 32-bit integer property.
- AvailableTabs: its own contract only states which messages parse and that tokens hold no comma. The exact set is stated by `ParseRoundTrip` for messages that end in Blender's rendering of a tuple of plain ids.
- The case of a registry entry that is neither `None` nor a dict is not modelled. Registry entries are `None` or tab entries.
