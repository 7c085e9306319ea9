/**
 * The first half of `_generate_enumitems`: merging the shared registry's
 * user tabs into the native tab list, group by group. A user tab goes
 * right after the last tab of its group placed so far, or at the end when
 * its group is new; `None` registry entries are skipped.
 */
module GroupMerge {
  import opened Options
  import opened Tabs

  /** A tab in the merged list, tagged `native` when it comes from the native list. */
  datatype MergedItem = Item(tab: Tab, native: bool)

  /** The native tabs, each tagged as native. */
  function Tagged(tabs: seq<Tab>): (r: seq<MergedItem>)
    ensures |r| == |tabs|
    ensures forall k :: 0 <= k < |r| ==> r[k] == Item(tabs[k], true)
  {
    seq(|tabs|, k requires 0 <= k < |tabs| => Item(tabs[k], true))
  }

  /** Index of the last item of group `g` in `s`, if any. */
  function LastOfGroup(s: seq<MergedItem>, g: string): (r: Option<nat>)
    ensures r.Some? ==> r.value < |s| && s[r.value].tab.group == g
    ensures r.Some? ==> forall j :: r.value < j < |s| ==> s[j].tab.group != g
    ensures r.None? ==> forall j :: 0 <= j < |s| ==> s[j].tab.group != g
  {
    if s == [] then None
    else if s[|s| - 1].tab.group == g then Some(|s| - 1)
    else LastOfGroup(s[..|s| - 1], g)
  }

  /** Where a tab of group `g` is inserted: after the last item of `g`, or at the end. */
  function InsertionPoint(s: seq<MergedItem>, g: string): (p: nat)
    ensures p <= |s|
  {
    match LastOfGroup(s, g)
    case Some(k) => k + 1
    case None => |s|
  }

  /** Inserting one registry tab into the merged list. */
  function Step(s: seq<MergedItem>, t: Tab): (r: seq<MergedItem>)
    ensures |r| == |s| + 1
  {
    var p := InsertionPoint(s, t.group);
    s[..p] + [Item(t, false)] + s[p..]
  }

  /** The merged list after processing the registry entries in order. */
  function Merge(base: seq<MergedItem>, registry: seq<Option<Tab>>): (r: seq<MergedItem>)
    ensures |r| == |base| + PresentCount(registry)
  {
    if registry == [] then base
    else
      var prev := Merge(base, registry[..|registry| - 1]);
      match registry[|registry| - 1]
      case None => prev
      case Some(t) => Step(prev, t)
  }

  /** Number of non-`None` registry entries. */
  function PresentCount(registry: seq<Option<Tab>>): nat
  {
    if registry == [] then 0
    else PresentCount(registry[..|registry| - 1]) + (if registry[|registry| - 1].Some? then 1 else 0)
  }

  /** The items of `s` in group `g`, in order. */
  function OfGroup(s: seq<MergedItem>, g: string): seq<MergedItem>
  {
    if s == [] then [] else (if s[0].tab.group == g then [s[0]] else []) + OfGroup(s[1..], g)
  }

  /** The tabs of the native items of `s`, in order. */
  function Natives(s: seq<MergedItem>): seq<Tab>
  {
    if s == [] then [] else (if s[0].native then [s[0].tab] else []) + Natives(s[1..])
  }

  /** The registry's tabs of group `g`, in registry order, as untagged items. */
  function RegistryOfGroup(registry: seq<Option<Tab>>, g: string): seq<MergedItem>
  {
    if registry == [] then []
    else
      var last := registry[|registry| - 1];
      RegistryOfGroup(registry[..|registry| - 1], g)
        + (if last.Some? && last.value.group == g then [Item(last.value, false)] else [])
  }

  lemma {:induction false} OfGroupAppend(a: seq<MergedItem>, b: seq<MergedItem>, g: string)
    ensures OfGroup(a + b, g) == OfGroup(a, g) + OfGroup(b, g)
  {
    if a == [] {
      assert a + b == b;
    } else {
      assert (a + b)[1..] == a[1..] + b;
      assert (a + b)[0] == a[0];
      OfGroupAppend(a[1..], b, g);
    }
  }

  lemma {:induction false} NativesAppend(a: seq<MergedItem>, b: seq<MergedItem>)
    ensures Natives(a + b) == Natives(a) + Natives(b)
  {
    if a == [] {
      assert a + b == b;
    } else {
      assert (a + b)[1..] == a[1..] + b;
      assert (a + b)[0] == a[0];
      NativesAppend(a[1..], b);
    }
  }

  lemma {:induction false} OfGroupNone(s: seq<MergedItem>, g: string)
    requires forall j :: 0 <= j < |s| ==> s[j].tab.group != g
    ensures OfGroup(s, g) == []
  {
    if s != [] {
      OfGroupNone(s[1..], g);
    }
  }

  /** The group projection of a list with one item inserted at `p`. */
  lemma OfGroupInsert(s: seq<MergedItem>, p: nat, x: MergedItem, h: string)
    requires p <= |s|
    ensures OfGroup(s, h) == OfGroup(s[..p], h) + OfGroup(s[p..], h)
    ensures OfGroup(s[..p] + [x] + s[p..], h) ==
              OfGroup(s[..p], h) + (if x.tab.group == h then [x] else []) + OfGroup(s[p..], h)
  {
    assert s == s[..p] + s[p..];
    OfGroupAppend(s[..p] + [x], s[p..], h);
    OfGroupAppend(s[..p], [x], h);
    OfGroupAppend(s[..p], s[p..], h);
    assert OfGroup([x], h) == (if x.tab.group == h then [x] else []) + OfGroup([], h);
  }

  /** One insertion puts the new tab after every item of its own group and leaves other groups alone. */
  lemma StepOfGroup(s: seq<MergedItem>, t: Tab, h: string)
    ensures OfGroup(Step(s, t), h) == OfGroup(s, h) + (if h == t.group then [Item(t, false)] else [])
  {
    var p := InsertionPoint(s, t.group);
    OfGroupInsert(s, p, Item(t, false), h);
    if h == t.group {
      forall j | 0 <= j < |s[p..]| ensures s[p..][j].tab.group != h {
        assert s[p..][j] == s[p + j];
      }
      OfGroupNone(s[p..], h);
    }
  }

  /** One insertion keeps every native item, in order. */
  lemma StepNatives(s: seq<MergedItem>, t: Tab)
    ensures Natives(Step(s, t)) == Natives(s)
  {
    var p := InsertionPoint(s, t.group);
    var x := Item(t, false);
    assert s == s[..p] + s[p..];
    NativesAppend(s[..p] + [x], s[p..]);
    NativesAppend(s[..p], [x]);
    NativesAppend(s[..p], s[p..]);
    assert Natives([x]) == [] + Natives([]);
  }

  /**
   * The merge keeps the native items in their original order, and the items
   * of each group are that group's items of `base` followed by the
   * registry's tabs of that group in registry order.
   */
  lemma {:induction false} MergeProjections(base: seq<MergedItem>, registry: seq<Option<Tab>>, g: string)
    ensures Natives(Merge(base, registry)) == Natives(base)
    ensures OfGroup(Merge(base, registry), g) == OfGroup(base, g) + RegistryOfGroup(registry, g)
  {
    if registry != [] {
      var init := registry[..|registry| - 1];
      MergeProjections(base, init, g);
      var prev := Merge(base, init);
      match registry[|registry| - 1]
      case None =>
      case Some(t) =>
        StepOfGroup(prev, t, g);
        StepNatives(prev, t);
    }
  }

  /**
   * A new tab lands right after the last item of its group, or at the end of
   * the list when no item of its group is there yet; it is then the last
   * item of its group.
   */
  lemma StepPlacement(s: seq<MergedItem>, t: Tab) returns (p: nat)
    ensures p <= |s| && Step(s, t) == s[..p] + [Item(t, false)] + s[p..]
    ensures (forall j :: 0 <= j < |s| ==> s[j].tab.group != t.group) ==> p == |s|
    ensures (exists j :: 0 <= j < |s| && s[j].tab.group == t.group) ==> 0 < p && s[p - 1].tab.group == t.group
    ensures forall j :: p <= j < |s| ==> s[j].tab.group != t.group
    ensures LastOfGroup(Step(s, t), t.group) == Some(p)
  {
    p := InsertionPoint(s, t.group);
    var r := Step(s, t);
    forall j | p < j < |r| ensures r[j].tab.group != t.group {
      assert r[j] == s[j - 1];
    }
    assert r[p] == Item(t, false);
  }

  /** The native list as the merge starts from it: every item tagged native. */
  lemma NativesOfTagged(tabs: seq<Tab>)
    ensures Natives(Tagged(tabs)) == tabs
  {
    if tabs != [] {
      assert Tagged(tabs)[1..] == Tagged(tabs[1..]);
      NativesOfTagged(tabs[1..]);
    }
  }

  /** `gridx` records, for every group present in `s`, the index of its last item. */
  ghost predicate IndexesGroups(gridx: map<string, nat>, s: seq<MergedItem>)
  {
    forall g :: LastOfGroup(s, g) == (if g in gridx then Some(gridx[g]) else None)
  }

  /** The `gridx` update loop: bump every recorded index at or after `at`. */
  method ShiftFrom(gridx: map<string, nat>, at: nat) returns (shifted: map<string, nat>)
    ensures shifted.Keys == gridx.Keys
    ensures forall g :: g in gridx ==> shifted[g] == if gridx[g] >= at then gridx[g] + 1 else gridx[g]
  {
    shifted := gridx;
    var todo := gridx.Keys;
    while todo != {}
      invariant todo <= gridx.Keys && shifted.Keys == gridx.Keys
      invariant forall g :: g in gridx && g !in todo ==>
                  shifted[g] == if gridx[g] >= at then gridx[g] + 1 else gridx[g]
      invariant forall g :: g in todo ==> shifted[g] == gridx[g]
      decreases todo
    {
      var g :| g in todo;
      if shifted[g] >= at {
        shifted := shifted[g := shifted[g] + 1];
      }
      todo := todo - {g};
    }
  }

  /** How the last index of another group moves when an item is inserted at `p`. */
  lemma LastAfterInsert(s: seq<MergedItem>, p: nat, x: MergedItem, h: string)
    requires p <= |s|
    ensures h != x.tab.group ==>
      LastOfGroup(s[..p] + [x] + s[p..], h) ==
        match LastOfGroup(s, h)
        case None => None
        case Some(m) => Some(if m >= p then m + 1 else m)
    ensures h == x.tab.group && (forall j :: p <= j < |s| ==> s[j].tab.group != h) ==>
      LastOfGroup(s[..p] + [x] + s[p..], h) == Some(p)
  {
    var r := s[..p] + [x] + s[p..];
    if h != x.tab.group {
      // every item of r other than x is an item of s, shifted past p
      forall j | 0 <= j < |r| && j != p
        ensures r[j] == s[if j < p then j else j - 1]
      {
      }
      match LastOfGroup(s, h)
      case None =>
      case Some(m) =>
        var m' := if m >= p then m + 1 else m;
        assert r[m'] == s[m];
    } else if forall j :: p <= j < |s| ==> s[j].tab.group != h {
      forall j | p < j < |r| ensures r[j].tab.group != h {
        assert r[j] == s[j - 1];
      }
      assert r[p] == x;
    }
  }

  /** The bookkeeping of an insertion after the last item of an existing group keeps `gridx` exact. */
  lemma InsertKeepsIndex(gridx: map<string, nat>, shifted: map<string, nat>, s: seq<MergedItem>, x: MergedItem)
    requires IndexesGroups(gridx, s)
    requires x.tab.group in gridx
    requires shifted.Keys == gridx.Keys
    requires forall g :: g in gridx ==>
               shifted[g] == if gridx[g] >= gridx[x.tab.group] + 1 then gridx[g] + 1 else gridx[g]
    ensures gridx[x.tab.group] + 1 <= |s|
    ensures IndexesGroups(shifted[x.tab.group := gridx[x.tab.group] + 1],
                          s[..gridx[x.tab.group] + 1] + [x] + s[gridx[x.tab.group] + 1..])
  {
    var g := x.tab.group;
    assert LastOfGroup(s, g) == Some(gridx[g]);
    var p := gridx[g] + 1;
    var m := shifted[g := p];
    var r := s[..p] + [x] + s[p..];
    forall h ensures LastOfGroup(r, h) == (if h in m then Some(m[h]) else None) {
      LastAfterInsert(s, p, x, h);
      if h != g {
        assert LastOfGroup(s, h) == (if h in gridx then Some(gridx[h]) else None);
      }
    }
  }

  /** Appending an item makes it the last of its group and leaves the other groups alone. */
  lemma AppendKeepsIndex(gridx: map<string, nat>, s: seq<MergedItem>, x: MergedItem)
    requires IndexesGroups(gridx, s)
    ensures IndexesGroups(gridx[x.tab.group := |s|], s + [x])
  {
    assert (s + [x])[..|s|] == s;
    forall h ensures LastOfGroup(s + [x], h) == if h == x.tab.group then Some(|s|) else LastOfGroup(s, h) {
    }
  }

  /** The first loop of `_generate_enumitems`: the last index of every group of the native list. */
  method IndexGroups(items: seq<MergedItem>) returns (gridx: map<string, nat>)
    ensures IndexesGroups(gridx, items)
  {
    gridx := map[];
    var i := 0;
    while i < |items|
      invariant 0 <= i <= |items|
      invariant IndexesGroups(gridx, items[..i])
    {
      assert items[..i + 1] == items[..i] + [items[i]];
      AppendKeepsIndex(gridx, items[..i], items[i]);
      gridx := gridx[items[i].tab.group := i];
      i := i + 1;
    }
    assert items[..i] == items;
  }

  /** One registry tab placed by `_generate_enumitems`, with `gridx` kept up to date. */
  method InsertTab(merged: seq<MergedItem>, gridx: map<string, nat>, t: Tab)
    returns (merged': seq<MergedItem>, gridx': map<string, nat>)
    requires IndexesGroups(gridx, merged)
    ensures merged' == Step(merged, t)
    ensures IndexesGroups(gridx', merged')
  {
    var x := Item(t, false);
    var g := t.group;
    if g in gridx {
      var insertIndex := gridx[g] + 1;
      assert LastOfGroup(merged, g) == Some(gridx[g]);
      var shifted := ShiftFrom(gridx, insertIndex);
      InsertKeepsIndex(gridx, shifted, merged, x);
      merged' := merged[..insertIndex] + [x] + merged[insertIndex..];
      gridx' := shifted[g := insertIndex];
    } else {
      assert LastOfGroup(merged, g).None?;
      AppendKeepsIndex(gridx, merged, x);
      merged' := merged + [x];
      gridx' := gridx[g := |merged|];
    }
  }

  /** The merge loop of `_generate_enumitems`. */
  method MergeRegistry(native: seq<Tab>, registry: seq<Option<Tab>>) returns (merged: seq<MergedItem>)
    ensures merged == Merge(Tagged(native), registry)
  {
    merged := Tagged(native);
    var gridx := IndexGroups(merged);
    ghost var base := merged;
    var j := 0;
    while j < |registry|
      invariant 0 <= j <= |registry|
      invariant merged == Merge(base, registry[..j])
      invariant IndexesGroups(gridx, merged)
    {
      assert registry[..j + 1][..j] == registry[..j];
      if registry[j].Some? {
        merged, gridx := InsertTab(merged, gridx, registry[j].value);
      }
      j := j + 1;
    }
    assert registry[..j] == registry;
  }
}
