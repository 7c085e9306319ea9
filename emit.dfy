/**
 * The second half of `_generate_enumitems`: filtering the merged tab list
 * against the current context, and emitting the enum items with
 * consecutive indices and one `None` spacer wherever the group changes.
 */
module Emit {
  import opened Options
  import opened Tabs
  import opened Available
  import opened GroupMerge

  /** One `(identifier, name, description, icon, number)` enum tuple. */
  datatype EnumItem = EnumItem(id: string, name: string, description: string, icon: Icon, index: nat)

  /** What `_generate_enumitems` returns: `None`, an exception, or the item list. */
  datatype Generated = NotApplicable | ParseFailure | Items(items: seq<Option<EnumItem>>)

  /** A tab is shown when it is available, its group's context poll holds and its own poll returns true. */
  predicate Keep(item: MergedItem, ctx: Context, available: set<string>)
  {
    && !(item.native && item.tab.id !in available)
    && (item.tab.group == "OBJECT" ==> PollObject(ctx))
    && (item.tab.group == "COLLECTION" ==> PollCollection(ctx))
    && (item.tab.poll.Some? ==> item.tab.poll.value(ctx) == Returned(true))
  }

  /** The merged items that pass the filter, in order. */
  function Kept(s: seq<MergedItem>, ctx: Context, available: set<string>): (r: seq<MergedItem>)
    ensures |r| <= |s|
  {
    if s == [] then []
    else
      var last := s[|s| - 1];
      Kept(s[..|s| - 1], ctx, available) + (if Keep(last, ctx, available) then [last] else [])
  }

  /** The `*DATAICON*` placeholder resolves to the active object's data icon. */
  function ResolveIcon(icon: Icon, ctx: Context): (r: Icon)
    ensures icon != IconName(DataIconMarker) ==> r == icon
    ensures icon == IconName(DataIconMarker) ==> r == IconName(DataIcon(ctx.activeObject))
  {
    if icon == IconName(DataIconMarker) then IconName(DataIcon(ctx.activeObject)) else icon
  }

  function ToEnumItem(t: Tab, index: nat, ctx: Context): EnumItem
  {
    EnumItem(t.id, t.name, t.description, ResolveIcon(t.icon, ctx), index)
  }

  /**
   * The emitted list for the kept items: the k-th kept tab numbered k, and a
   * spacer before a tab whose group differs from the previous tab's.
   */
  function Layout(kept: seq<MergedItem>, ctx: Context): seq<Option<EnumItem>>
  {
    if kept == [] then []
    else
      var init := kept[..|kept| - 1];
      var e := kept[|kept| - 1];
      Layout(init, ctx)
        + (if init != [] && init[|init| - 1].tab.group != e.tab.group then [None] else [])
        + [Some(ToEnumItem(e.tab, |kept| - 1, ctx))]
  }

  /** `_generate_enumitems` as a whole. */
  function EnumItems(ctx: Context, space: Option<Space>, msg: string, registry: seq<Option<Tab>>): Generated
  {
    if space.None? || space.value.kind != Properties || space.value.context.None? then NotApplicable
    else match AvailableTabs(msg)
      case None => ParseFailure
      case Some(available) =>
        Items(Layout(Kept(Merge(Tagged(NativeItems), registry), ctx, available), ctx))
  }

  /** The enum tuples of an emitted list, without the spacers. */
  function Tuples(r: seq<Option<EnumItem>>): seq<EnumItem>
  {
    if r == [] then [] else (if r[0].Some? then [r[0].value] else []) + Tuples(r[1..])
  }

  /** Number of adjacent pairs of `s` whose groups differ. */
  function Changes(s: seq<MergedItem>): nat
  {
    if |s| <= 1 then 0
    else Changes(s[..|s| - 1]) + (if s[|s| - 2].tab.group != s[|s| - 1].tab.group then 1 else 0)
  }

  /** Position of the k-th kept tab in the emitted list. */
  function Pos(s: seq<MergedItem>, k: nat): nat
    requires k < |s|
  {
    k + Changes(s[..k + 1])
  }

  /** `_reg_enumproperty_for_space`'s default: the number of the first tuple whose id is `tab`. */
  function DefaultIndex(items: seq<Option<EnumItem>>, tab: string): (r: Option<nat>)
    ensures r.Some? <==> exists j :: 0 <= j < |items| && items[j].Some? && items[j].value.id == tab
    ensures r.Some? ==> exists j :: 0 <= j < |items| && items[j].Some? && items[j].value.id == tab
                                    && items[j].value.index == r.value
                                    && forall i :: 0 <= i < j ==> !(items[i].Some? && items[i].value.id == tab)
  {
    if items == [] then None
    else if items[0].Some? && items[0].value.id == tab then Some(items[0].value.index)
    else
      var rest := DefaultIndex(items[1..], tab);
      assert forall j :: 0 < j < |items| ==> items[j] == items[1..][j - 1];
      rest
  }

  // ---------------------------------------------------------------------
  // Filtering

  lemma {:induction false} KeptAppend(a: seq<MergedItem>, b: seq<MergedItem>, ctx: Context, available: set<string>)
    ensures Kept(a + b, ctx, available) == Kept(a, ctx, available) + Kept(b, ctx, available)
  {
    if b == [] {
      assert a + b == a;
    } else {
      assert (a + b)[..|a + b| - 1] == a + b[..|b| - 1];
      KeptAppend(a, b[..|b| - 1], ctx, available);
    }
  }

  /**
   * Filtering drops a native tab that is not available, any Object-group tab
   * without an active object, any Collection-group tab while the context
   * collection is the scene collection, and any tab whose poll returns false
   * or raises; it keeps everything else.
   */
  lemma {:induction false} KeptExactly(s: seq<MergedItem>, ctx: Context, available: set<string>, x: MergedItem)
    ensures x in Kept(s, ctx, available) <==>
      && x in s
      && !(x.native && x.tab.id !in available)
      && !(x.tab.group == "OBJECT" && ctx.activeObject.None?)
      && !(x.tab.group == "COLLECTION" && ctx.collectionIsScene)
      && !(x.tab.poll.Some? && x.tab.poll.value(ctx) == Returned(false))
      && !(x.tab.poll.Some? && x.tab.poll.value(ctx) == Raised)
  {
    if s != [] {
      KeptExactly(s[..|s| - 1], ctx, available, x);
      assert s == s[..|s| - 1] + [s[|s| - 1]];
    }
  }

  // ---------------------------------------------------------------------
  // Shape of the emitted list

  lemma {:induction false} TuplesAppend(a: seq<Option<EnumItem>>, b: seq<Option<EnumItem>>)
    ensures Tuples(a + b) == Tuples(a) + Tuples(b)
  {
    if a == [] {
      assert a + b == b;
    } else {
      assert (a + b)[1..] == a[1..] + b;
      assert (a + b)[0] == a[0];
      TuplesAppend(a[1..], b);
    }
  }

  /** The tuples of the emitted list are the kept tabs, numbered 0, 1, 2, ... in order. */
  lemma {:induction false} LayoutTuples(kept: seq<MergedItem>, ctx: Context)
    ensures |Tuples(Layout(kept, ctx))| == |kept|
    ensures forall k :: 0 <= k < |kept| ==> Tuples(Layout(kept, ctx))[k] == ToEnumItem(kept[k].tab, k, ctx)
    ensures forall k :: 0 <= k < |kept| ==> Tuples(Layout(kept, ctx))[k].index == k
  {
    if kept != [] {
      var init := kept[..|kept| - 1];
      var e := kept[|kept| - 1];
      var sep: seq<Option<EnumItem>> := if init != [] && init[|init| - 1].tab.group != e.tab.group then [None] else [];
      var last := [Some(ToEnumItem(e.tab, |kept| - 1, ctx))];
      LayoutTuples(init, ctx);
      LayoutStep(init, e, ctx);
      assert kept == init + [e];
      TuplesAppend(Layout(init, ctx) + sep, last);
      TuplesAppend(Layout(init, ctx), sep);
      assert Tuples(sep) == [];
      assert Tuples(last) == [ToEnumItem(e.tab, |kept| - 1, ctx)];
      var t := Tuples(Layout(kept, ctx));
      assert t == Tuples(Layout(init, ctx)) + [ToEnumItem(e.tab, |kept| - 1, ctx)];
      forall k | 0 <= k < |kept| ensures t[k] == ToEnumItem(kept[k].tab, k, ctx) {
        if k < |init| {
          assert kept[k] == init[k];
        }
      }
    }
  }

  /** The emitted list is non-empty exactly when something was kept, and then it ends with a tuple. */
  lemma LayoutEnds(kept: seq<MergedItem>, ctx: Context)
    ensures |Layout(kept, ctx)| == 0 <==> kept == []
    ensures kept != [] ==> Layout(kept, ctx)[|Layout(kept, ctx)| - 1].Some?
  {
  }

  /**
   * Spacers never start or end the list and never come two in a row: each
   * sits between two tuples.
   */
  lemma {:induction false} LayoutSpacersInside(kept: seq<MergedItem>, ctx: Context)
    ensures forall j :: 0 <= j < |Layout(kept, ctx)| && Layout(kept, ctx)[j].None? ==>
      0 < j < |Layout(kept, ctx)| - 1 && Layout(kept, ctx)[j - 1].Some? && Layout(kept, ctx)[j + 1].Some?
  {
    if kept != [] {
      var init := kept[..|kept| - 1];
      var e := kept[|kept| - 1];
      LayoutSpacersInside(init, ctx);
      LayoutEnds(init, ctx);
      var prev := Layout(init, ctx);
      var r := Layout(kept, ctx);
      assert forall j :: 0 <= j < |prev| ==> r[j] == prev[j];
    }
  }

  /** The emitted list has one entry per kept tab plus one spacer per group change. */
  lemma {:induction false} LayoutLength(kept: seq<MergedItem>, ctx: Context)
    ensures |Layout(kept, ctx)| == |kept| + Changes(kept)
  {
    if kept != [] {
      LayoutLength(kept[..|kept| - 1], ctx);
    }
  }

  /** The layout of a prefix of the kept tabs is a prefix of the layout. */
  lemma {:induction false} LayoutPrefix(kept: seq<MergedItem>, m: nat, ctx: Context)
    requires m <= |kept|
    ensures |Layout(kept[..m], ctx)| <= |Layout(kept, ctx)|
    ensures Layout(kept[..m], ctx) == Layout(kept, ctx)[..|Layout(kept[..m], ctx)|]
  {
    if m < |kept| {
      var init := kept[..|kept| - 1];
      assert init[..m] == kept[..m];
      LayoutPrefix(init, m, ctx);
    } else {
      assert kept[..m] == kept;
    }
  }

  /** The k-th kept tab sits at position `Pos(kept, k)`. */
  lemma LayoutAt(kept: seq<MergedItem>, k: nat, ctx: Context)
    requires k < |kept|
    ensures Pos(kept, k) < |Layout(kept, ctx)|
    ensures Layout(kept, ctx)[Pos(kept, k)] == Some(ToEnumItem(kept[k].tab, k, ctx))
  {
    var pre := kept[..k + 1];
    LayoutPrefix(kept, k + 1, ctx);
    LayoutLength(pre, ctx);
    assert pre == kept[..k] + [kept[k]];
    LayoutStep(kept[..k], kept[k], ctx);
    var lay := Layout(pre, ctx);
    assert lay[|lay| - 1] == Some(ToEnumItem(kept[k].tab, k, ctx));
    assert Layout(kept, ctx)[|lay| - 1] == lay[|lay| - 1];
  }

  /**
   * A spacer stands exactly between consecutive kept tabs of different
   * groups: the next tab follows directly when the group is the same, and
   * one position later, after a `None`, when it differs.
   */
  lemma SpacerBetween(kept: seq<MergedItem>, k: nat, ctx: Context)
    requires k + 1 < |kept|
    ensures kept[k].tab.group == kept[k + 1].tab.group ==> Pos(kept, k + 1) == Pos(kept, k) + 1
    ensures Pos(kept, k + 1) < |Layout(kept, ctx)|
    ensures kept[k].tab.group != kept[k + 1].tab.group ==>
      Pos(kept, k + 1) == Pos(kept, k) + 2 && Layout(kept, ctx)[Pos(kept, k) + 1] == None
  {
    var pre := kept[..k + 2];
    assert pre[..|pre| - 1] == kept[..k + 1];
    LayoutPrefix(kept, k + 2, ctx);
    LayoutLength(kept[..k + 1], ctx);
  }

  /** The first kept tab opens the list and the last one closes it. */
  lemma LayoutBounds(kept: seq<MergedItem>, ctx: Context)
    requires kept != []
    ensures Pos(kept, 0) == 0
    ensures Pos(kept, |kept| - 1) == |Layout(kept, ctx)| - 1
  {
    LayoutLength(kept, ctx);
    assert kept[..|kept|] == kept;
  }

  // ---------------------------------------------------------------------
  // The emission loop and the whole generator

  /** Filtering one more item extends the kept list by that item exactly when it passes. */
  lemma KeptStep(s: seq<MergedItem>, n: nat, ctx: Context, available: set<string>)
    requires n < |s|
    ensures Kept(s[..n + 1], ctx, available) ==
              Kept(s[..n], ctx, available) + (if Keep(s[n], ctx, available) then [s[n]] else [])
  {
    assert s[..n + 1][..n] == s[..n];
  }

  /** Laying out one more kept tab appends a spacer on a group change, then the tab. */
  lemma LayoutStep(kept: seq<MergedItem>, v: MergedItem, ctx: Context)
    ensures Layout(kept + [v], ctx) == Layout(kept, ctx)
      + (if kept != [] && kept[|kept| - 1].tab.group != v.tab.group then [None] else [])
      + [Some(ToEnumItem(v.tab, |kept|, ctx))]
  {
    assert (kept + [v])[..|kept|] == kept;
  }

  /** The checks that make the emit loop skip a tab, in the order it makes them. */
  method Passes(v: MergedItem, ctx: Context, available: set<string>) returns (ok: bool)
    ensures ok == Keep(v, ctx, available)
  {
    if v.native && v.tab.id !in available {
      return false;
    }
    if v.tab.group == "OBJECT" && !PollObject(ctx) {
      return false;
    }
    if v.tab.group == "COLLECTION" && !PollCollection(ctx) {
      return false;
    }
    if v.tab.poll.Some? {
      var outcome := v.tab.poll.value(ctx);
      if outcome != Returned(true) {
        return false;
      }
    }
    return true;
  }

  /** The filter-and-emit loop of `_generate_enumitems`. */
  method EmitItems(merged: seq<MergedItem>, ctx: Context, available: set<string>) returns (r: seq<Option<EnumItem>>)
    ensures r == Layout(Kept(merged, ctx, available), ctx)
  {
    r := [];
    var i: nat := 0;
    var activeGroup: Option<string> := None;
    ghost var kept: seq<MergedItem> := [];
    var n := 0;
    while n < |merged|
      invariant 0 <= n <= |merged|
      invariant kept == Kept(merged[..n], ctx, available)
      invariant r == Layout(kept, ctx)
      invariant i == |kept|
      invariant activeGroup.None? <==> kept == []
      invariant activeGroup.Some? ==> activeGroup.value == kept[|kept| - 1].tab.group
      invariant r != [] <==> kept != []
      invariant r != [] ==> r[|r| - 1].Some?
    {
      var v := merged[n];
      KeptStep(merged, n, ctx, available);
      n := n + 1;
      // filter out tabs that are not available in the current context
      var passes := Passes(v, ctx, available);
      if !passes {
        continue;
      }
      LayoutStep(kept, v, ctx);
      // a spacer when the group changes, never two in a row
      if activeGroup.Some? && v.tab.group != activeGroup.value {
        if |r| > 0 && r[|r| - 1].Some? {
          r := r + [None];
        }
      }
      activeGroup := Some(v.tab.group);
      r := r + [Some(ToEnumItem(v.tab, i, ctx))];
      i := i + 1;
      kept := kept + [v];
    }
    assert merged[..n] == merged;
  }


  /** `_generate_enumitems`, given the editor's error message for an unknown tab. */
  method GenerateEnumItems(ctx: Context, space: Option<Space>, msg: string, registry: seq<Option<Tab>>)
    returns (g: Generated)
    ensures g == EnumItems(ctx, space, msg, registry)
  {
    if space.None? || space.value.kind != Properties || space.value.context.None? {
      return NotApplicable;
    }
    var available := AvailableTabs(msg);
    if available.None? {
      return ParseFailure;
    }
    var merged := MergeRegistry(NativeItems, registry);
    var items := EmitItems(merged, ctx, available.value);
    return Items(items);
  }

  /**
   * Every list `_generate_enumitems` emits has its tuples numbered 0, 1, 2, ...
   * and spacers only between two tuples.
   */
  lemma GeneratedShape(ctx: Context, space: Option<Space>, msg: string, registry: seq<Option<Tab>>)
    ensures EnumItems(ctx, space, msg, registry).Items? ==>
      var r := EnumItems(ctx, space, msg, registry).items;
      && (forall k :: 0 <= k < |Tuples(r)| ==> Tuples(r)[k].index == k)
      && (forall j :: 0 <= j < |r| && r[j].None? ==> 0 < j < |r| - 1 && r[j - 1].Some? && r[j + 1].Some?)
  {
    if EnumItems(ctx, space, msg, registry).Items? {
      var available := AvailableTabs(msg).value;
      var kept := Kept(Merge(Tagged(NativeItems), registry), ctx, available);
      LayoutTuples(kept, ctx);
      LayoutSpacersInside(kept, ctx);
    }
  }
}
