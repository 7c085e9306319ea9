/**
 * The shared tab registry kept on the window manager: a list holding tab
 * entries (the dicts `append_tab` builds) or `None`. These are the pure
 * lookups and edits the registry helpers of customtab.py perform.
 */
module Registry {
  import opened Options
  import opened Tabs

  type Entries = seq<Option<Tab>>

  /** `_existing_registry_ids`: the ids of the tab entries, in registry order. */
  function ExistingIds(reg: Entries): (r: seq<string>)
    ensures |r| <= |reg|
    ensures forall id :: id in r <==> exists i :: 0 <= i < |reg| && reg[i].Some? && reg[i].value.id == id
  {
    if reg == [] then []
    else
      var rest := ExistingIds(reg[1..]);
      assert forall i :: 0 < i < |reg| ==> reg[i] == reg[1..][i - 1];
      (if reg[0].Some? then [reg[0].value.id] else []) + rest
  }

  /** No two tab entries share an id. */
  predicate UniqueIds(reg: Entries)
  {
    forall i, j :: 0 <= i < j < |reg| && reg[i].Some? && reg[j].Some? ==> reg[i].value.id != reg[j].value.id
  }

  /** Index of the first tab entry with the given id. */
  function FirstMatch(reg: Entries, uniqueid: string): (r: Option<nat>)
    ensures r.Some? ==> r.value < |reg| && reg[r.value].Some? && reg[r.value].value.id == uniqueid
    ensures r.Some? ==> forall i :: 0 <= i < r.value ==> !(reg[i].Some? && reg[i].value.id == uniqueid)
    ensures r.None? <==> uniqueid !in ExistingIds(reg)
  {
    if reg == [] then None
    else if reg[0].Some? && reg[0].value.id == uniqueid then Some(0)
    else
      match FirstMatch(reg[1..], uniqueid)
      case None =>
        assert forall i :: 0 < i < |reg| ==> reg[i] == reg[1..][i - 1];
        None
      case Some(k) => Some(k + 1)
  }

  /** `_remove_from_registry`: drop the first tab entry with the id, if there is one. */
  function RemoveFirst(reg: Entries, uniqueid: string): (r: Entries)
    ensures |r| == |reg| - (if uniqueid in ExistingIds(reg) then 1 else 0)
    ensures uniqueid !in ExistingIds(reg) ==> r == reg
  {
    match FirstMatch(reg, uniqueid)
    case None => reg
    case Some(k) => reg[..k] + reg[k + 1..]
  }

  /** `_get_from_registry`: the requested attribute of the first entry with the id, or `None`. */
  function GetFromRegistry<A>(reg: Entries, uniqueid: string, attribute: Tab -> Option<A>): (r: Option<A>)
    ensures uniqueid !in ExistingIds(reg) ==> r.None?
    ensures r.Some? ==> exists i :: 0 <= i < |reg| && reg[i].Some? && reg[i].value.id == uniqueid
                                    && attribute(reg[i].value) == r
    ensures forall i :: 0 <= i < |reg| && reg[i].Some? && reg[i].value.id == uniqueid
                        && (forall j :: 0 <= j < i ==> !(reg[j].Some? && reg[j].value.id == uniqueid)) ==>
                          r == attribute(reg[i].value)
  {
    FirstMatchIsFirst(reg, uniqueid);
    match FirstMatch(reg, uniqueid)
    case None => None
    case Some(k) => attribute(reg[k].value)
  }

  /** An entry with the id and none before it is the one `FirstMatch` finds. */
  lemma FirstMatchIsFirst(reg: Entries, uniqueid: string)
    ensures forall i :: 0 <= i < |reg| && reg[i].Some? && reg[i].value.id == uniqueid
                        && (forall j :: 0 <= j < i ==> !(reg[j].Some? && reg[j].value.id == uniqueid)) ==>
                          FirstMatch(reg, uniqueid) == Some(i)
  {
    forall i | 0 <= i < |reg| && reg[i].Some? && reg[i].value.id == uniqueid
               && (forall j :: 0 <= j < i ==> !(reg[j].Some? && reg[j].value.id == uniqueid))
      ensures FirstMatch(reg, uniqueid) == Some(i)
    {
      assert uniqueid in ExistingIds(reg);
      var k := FirstMatch(reg, uniqueid).value;
      assert !(k < i);
      assert !(i < k);
    }
  }

  /** The registry after removing each of `ids` in turn (the loop of `unregister`). */
  function RemoveAll(reg: Entries, ids: seq<string>): Entries
  {
    if ids == [] then reg else RemoveFirst(RemoveAll(reg, ids[..|ids| - 1]), ids[|ids| - 1])
  }

  /** Removing an id keeps every other entry, `None`s included, in order. */
  lemma RemoveFirstShape(reg: Entries, uniqueid: string) returns (k: nat)
    requires uniqueid in ExistingIds(reg)
    ensures k < |reg| && reg[k].Some? && reg[k].value.id == uniqueid
    ensures forall i :: 0 <= i < k ==> !(reg[i].Some? && reg[i].value.id == uniqueid)
    ensures RemoveFirst(reg, uniqueid) == reg[..k] + reg[k + 1..]
  {
    k := FirstMatch(reg, uniqueid).value;
  }

  /** The entries left after removing index `k`, each at its new position. */
  lemma RemovedAt(reg: Entries, k: nat, r: Entries)
    requires k < |reg| && r == reg[..k] + reg[k + 1..]
    ensures |r| == |reg| - 1
    ensures forall i :: 0 <= i < |r| ==> r[i] == reg[if i < k then i else i + 1]
  {
  }

  /** Removing an entry from a registry with unique ids keeps them unique. */
  lemma RemoveFirstUnique(reg: Entries, uniqueid: string)
    requires UniqueIds(reg)
    ensures UniqueIds(RemoveFirst(reg, uniqueid))
  {
    if uniqueid in ExistingIds(reg) {
      var k := RemoveFirstShape(reg, uniqueid);
      RemovedAt(reg, k, RemoveFirst(reg, uniqueid));
    }
  }

  /** Removing an id keeps every other id and adds none. */
  lemma RemoveFirstOtherIds(reg: Entries, uniqueid: string, x: string)
    requires x != uniqueid
    ensures x in ExistingIds(RemoveFirst(reg, uniqueid)) <==> x in ExistingIds(reg)
  {
    if uniqueid in ExistingIds(reg) {
      var k := RemoveFirstShape(reg, uniqueid);
      var r := RemoveFirst(reg, uniqueid);
      RemovedAt(reg, k, RemoveFirst(reg, uniqueid));
      if x in ExistingIds(r) {
        var i :| 0 <= i < |r| && r[i].Some? && r[i].value.id == x;
        assert reg[if i < k then i else i + 1] == r[i];
      }
      if x in ExistingIds(reg) {
        var i :| 0 <= i < |reg| && reg[i].Some? && reg[i].value.id == x;
        assert r[if i < k then i else i - 1] == reg[i];
      }
    }
  }

  /** With unique ids, the removed id is gone. */
  lemma RemoveFirstGone(reg: Entries, uniqueid: string)
    requires UniqueIds(reg)
    ensures uniqueid !in ExistingIds(RemoveFirst(reg, uniqueid))
  {
    if uniqueid in ExistingIds(reg) {
      var k := RemoveFirstShape(reg, uniqueid);
      var r := RemoveFirst(reg, uniqueid);
      RemovedAt(reg, k, RemoveFirst(reg, uniqueid));
      forall i | 0 <= i < |r| && r[i].Some? ensures r[i].value.id != uniqueid {
        assert r[i] == reg[if i < k then i else i + 1];
      }
    }
  }

  /** With unique ids, removing an id leaves every other id and no other, still unique. */
  lemma RemoveFirstIds(reg: Entries, uniqueid: string)
    requires UniqueIds(reg)
    ensures UniqueIds(RemoveFirst(reg, uniqueid))
    ensures forall x :: x in ExistingIds(RemoveFirst(reg, uniqueid)) <==> x in ExistingIds(reg) && x != uniqueid
  {
    RemoveFirstUnique(reg, uniqueid);
    RemoveFirstGone(reg, uniqueid);
    forall x | x != uniqueid
      ensures x in ExistingIds(RemoveFirst(reg, uniqueid)) <==> x in ExistingIds(reg)
    {
      RemoveFirstOtherIds(reg, uniqueid, x);
    }
  }

  /** With unique ids, `unregister` leaves exactly the ids it did not append, still unique. */
  lemma {:induction false} RemoveAllLeavesOthers(reg: Entries, ids: seq<string>)
    requires UniqueIds(reg)
    ensures UniqueIds(RemoveAll(reg, ids))
    ensures forall x :: x in ExistingIds(RemoveAll(reg, ids)) <==> x in ExistingIds(reg) && x !in ids
  {
    if ids != [] {
      var init := ids[..|ids| - 1];
      RemoveAllLeavesOthers(reg, init);
      RemoveFirstIds(RemoveAll(reg, init), ids[|ids| - 1]);
      assert forall x :: x in ids <==> x in init || x == ids[|ids| - 1] by {
        assert ids == init + [ids[|ids| - 1]];
      }
    }
  }

  /** Appending an entry whose id is not yet registered keeps the ids unique. */
  lemma AppendKeepsUnique(reg: Entries, t: Tab)
    requires UniqueIds(reg)
    requires t.id !in ExistingIds(reg)
    ensures UniqueIds(reg + [Some(t)])
    ensures ExistingIds(reg + [Some(t)]) == ExistingIds(reg) + [t.id]
  {
    ExistingIdsAppend(reg, [Some(t)]);
    assert ExistingIds([Some(t)]) == [t.id] + ExistingIds([]);
  }

  lemma {:induction false} ExistingIdsAppend(a: Entries, b: Entries)
    ensures ExistingIds(a + b) == ExistingIds(a) + ExistingIds(b)
  {
    if a == [] {
      assert a + b == b;
    } else {
      assert (a + b)[1..] == a[1..] + b;
      assert (a + b)[0] == a[0];
      ExistingIdsAppend(a[1..], b);
    }
  }

  /** After appending a new tab, looking its id up finds that tab's attributes. */
  lemma GetAfterAppend<A>(reg: Entries, t: Tab, attribute: Tab -> Option<A>)
    requires t.id !in ExistingIds(reg)
    ensures GetFromRegistry(reg + [Some(t)], t.id, attribute) == attribute(t)
  {
    var r := reg + [Some(t)];
    assert r[|reg|] == Some(t);
    assert FirstMatch(r, t.id) == Some(|reg|);
  }

  /** Whether an icon argument is truthy in Python: a non-empty name or a non-zero id. */
  predicate IconGiven(icon: Icon)
  {
    match icon
    case IconName(n) => n != ""
    case IconValue(v) => v != 0
  }

  /** The checks `append_tab` makes before touching the registry. */
  datatype AppendCheck = Accepted | MissingIdOrIcon | NativeIdTaken | IdTaken

  function CheckAppend(uniqueid: string, icon: Icon, reg: Entries): (r: AppendCheck)
    ensures r == Accepted <==>
      uniqueid != "" && IconGiven(icon) && uniqueid !in NativeIds() && uniqueid !in ExistingIds(reg)
    ensures r == MissingIdOrIcon <==> uniqueid == "" || !IconGiven(icon)
    ensures r == NativeIdTaken <==> uniqueid != "" && IconGiven(icon) && uniqueid in NativeIds()
    ensures r == IdTaken <==>
      uniqueid != "" && IconGiven(icon) && uniqueid !in NativeIds() && uniqueid in ExistingIds(reg)
    ensures r == Accepted ==> uniqueid != ToolTab
  {
    if uniqueid == "" || !IconGiven(icon) then MissingIdOrIcon
    else if uniqueid in NativeIds() then NativeIdTaken
    else if uniqueid in ExistingIds(reg) then IdTaken
    else Accepted
  }
}
