/**
 * Recovering the set of tabs the editor currently offers from the error
 * message Blender raises when `space.context` is set to an unknown value,
 * e.g. `enum "HEYDUDE" not found in ('TOOL', 'RENDER')`.
 */
module Available {
  import opened Options
  import opened TextOps

  const Marker := "not found in ("

  /** Python `msg.split(Marker)[1]`: the text between the first and second marker; `None` where Python raises `IndexError`. */
  function Segment(msg: string): (r: Option<string>)
    ensures r.Some? <==> exists i: nat :: OccursAt(msg, Marker, i)
  {
    match IndexOf(msg, Marker)
    case None => None
    case Some(i) =>
      var rest := msg[i + |Marker|..];
      match IndexOf(rest, Marker)
      case None => Some(rest)
      case Some(j) => Some(rest[..j])
  }

  /** `seg` starts at `start` in `s` and runs to the next marker, or to the end when no marker follows. */
  predicate RunsToMarker(s: string, start: nat, seg: string)
  {
    && start + |seg| <= |s| && s[start..start + |seg|] == seg
    && (forall j: nat :: start <= j < start + |seg| ==> !OccursAt(s, Marker, j))
    && (start + |seg| == |s| || OccursAt(s, Marker, start + |seg|))
  }

  /** An occurrence in a suffix is an occurrence in the whole string, shifted. */
  lemma OccursShift(s: string, pat: string, start: nat, j: nat)
    requires start <= |s|
    ensures OccursAt(s[start..], pat, j) <==> OccursAt(s, pat, start + j)
  {
    if start + j + |pat| <= |s| {
      assert s[start..][j..j + |pat|] == s[start + j..start + j + |pat|];
    }
  }

  /** The text after `start` up to the first marker in it runs to that marker. */
  lemma RestRunsToMarker(s: string, start: nat)
    requires start <= |s|
    ensures RunsToMarker(s, start, match IndexOf(s[start..], Marker) case None => s[start..] case Some(k) => s[start..][..k])
  {
    var rest := s[start..];
    match IndexOf(rest, Marker)
    case None =>
      forall j: nat | start <= j < |s| ensures !OccursAt(s, Marker, j) {
        OccursShift(s, Marker, start, j - start);
      }
    case Some(k) =>
      forall j: nat | start <= j < start + k ensures !OccursAt(s, Marker, j) {
        OccursShift(s, Marker, start, j - start);
      }
      OccursShift(s, Marker, start, k);
      assert s[start..start + k] == rest[..k];
  }

  /**
   * The segment is the second field of splitting at the marker: the text
   * that follows the first marker, up to the second marker or to the end.
   */
  lemma SegmentBetweenMarkers(msg: string)
    ensures Segment(msg).Some? ==>
      exists i: nat :: && OccursAt(msg, Marker, i)
                       && (forall j: nat :: j < i ==> !OccursAt(msg, Marker, j))
                       && RunsToMarker(msg, i + |Marker|, Segment(msg).value)
  {
    match IndexOf(msg, Marker)
    case None =>
    case Some(i) =>
      RestRunsToMarker(msg, i + |Marker|);
  }

  /** The three `replace` calls: drop `)`, then quotes, then spaces. */
  function Clean(s: string): (r: string)
    ensures ')' !in r && '\'' !in r && ' ' !in r
  {
    RemoveChar(RemoveChar(RemoveChar(s, ')'), '\''), ' ')
  }

  lemma CleanAppend(a: string, b: string)
    ensures Clean(a + b) == Clean(a) + Clean(b)
  {
    RemoveCharAppend(a, b, ')');
    RemoveCharAppend(RemoveChar(a, ')'), RemoveChar(b, ')'), '\'');
    RemoveCharAppend(RemoveChar(RemoveChar(a, ')'), '\''), RemoveChar(RemoveChar(b, ')'), '\''), ' ');
  }

  /**
   * The available tab ids parsed out of the error message: the
   * comma-separated tokens after the marker, stripped of `)`, quotes and
   * spaces; `None` when the message has no marker.
   */
  function AvailableTabs(msg: string): (r: Option<set<string>>)
    ensures r.Some? <==> exists i: nat :: OccursAt(msg, Marker, i)
    ensures r.Some? ==> forall t :: t in r.value ==> ',' !in t
  {
    match Segment(msg)
    case None => None
    case Some(seg) =>
      var tokens := Split(Clean(seg), ',');
      Some(set t | t in tokens)
  }

  /** Characters that Blender's tuple rendering or the parse treat specially. */
  predicate PlainId(id: string)
  {
    ',' !in id && ')' !in id && '(' !in id && '\'' !in id && ' ' !in id
  }

  /** Python's rendering of a tuple of strings after the opening parenthesis: `'A', 'B')`. */
  function TupleBody(ids: seq<string>): string
    requires |ids| >= 1
  {
    if |ids| == 1 then "'" + ids[0] + "')"
    else "'" + ids[0] + "', " + TupleBody(ids[1..])
  }

  lemma CleanPlain(id: string)
    requires PlainId(id)
    ensures Clean(id) == id
  {
  }

  lemma CleanQuote()
    ensures Clean("'") == []
  {
    assert RemoveChar("'", ')') == "'";
    assert RemoveChar("'", '\'') == [];
  }

  lemma CleanClose()
    ensures Clean("')") == []
  {
    assert "')"[1..] == ")";
    assert RemoveChar(")", ')') == [];
    assert RemoveChar("')", ')') == "'";
    CleanQuote();
  }

  lemma CleanSeparator()
    ensures Clean("', ") == ","
  {
    assert "', "[1..] == ", ";
    assert ", "[1..] == " ";
    assert RemoveChar(" ", ')') == " ";
    assert RemoveChar(", ", ')') == ", ";
    assert RemoveChar("', ", ')') == "', ";
    assert RemoveChar(" ", '\'') == " ";
    assert RemoveChar(", ", '\'') == ", ";
    assert RemoveChar("', ", '\'') == ", ";
    assert RemoveChar(" ", ' ') == [];
    assert RemoveChar(", ", ' ') == ",";
  }

  lemma {:induction false} CleanTupleBody(ids: seq<string>)
    requires |ids| >= 1
    requires forall k :: 0 <= k < |ids| ==> PlainId(ids[k])
    ensures Clean(TupleBody(ids)) == Join(ids, ',')
    ensures '(' !in TupleBody(ids)
  {
    var id := ids[0];
    CleanPlain(id);
    CleanQuote();
    if |ids| == 1 {
      CleanClose();
      CleanAppend("'" + id, "')");
      CleanAppend("'", id);
    } else {
      CleanTupleBody(ids[1..]);
      CleanSeparator();
      var tail := TupleBody(ids[1..]);
      assert TupleBody(ids) == ("'" + id + "', ") + tail;
      CleanAppend("'" + id + "', ", tail);
      CleanAppend("'" + id, "', ");
      CleanAppend("'", id);
    }
  }

  /** The marker does not overlap itself: no proper suffix of it is also a prefix. */
  lemma MarkerUnbordered(d: nat)
    requires 0 < d < |Marker|
    ensures Marker[d..] != Marker[..|Marker| - d]
  {
    assert Marker[..|Marker| - d][0] == 'n';
    if d == 7 {
      assert Marker[d..][1] == 'd' && Marker[..|Marker| - d][1] == 'o';
    } else if d == 11 {
      assert Marker[d..][1] == ' ' && Marker[..|Marker| - d][1] == 'o';
    } else {
      assert Marker[d..][0] == Marker[d] != 'n';
    }
  }

  /** In `prefix + Marker + body` with no marker in `prefix`, the first marker is the visible one. */
  lemma FirstMarker(prefix: string, body: string)
    requires IndexOf(prefix, Marker).None?
    ensures IndexOf(prefix + Marker + body, Marker) == Some(|prefix|)
  {
    var msg := prefix + Marker + body;
    assert msg[|prefix|..|prefix| + |Marker|] == Marker;
    forall j: nat | j < |prefix|
      ensures !OccursAt(msg, Marker, j)
    {
      if j + |Marker| <= |prefix| {
        assert !OccursAt(prefix, Marker, j);
        assert prefix[j..j + |Marker|] == msg[j..j + |Marker|];
      } else if j + |Marker| <= |msg| {
        // the window straddles the end of `prefix`: its tail is a proper prefix of the marker
        var d := |prefix| - j;
        MarkerUnbordered(d);
        assert msg[j..j + |Marker|][d..] == Marker[..|Marker| - d];
      }
    }
    assert OccursAt(msg, Marker, |prefix|);
  }

  /** A string without `(` contains no marker. */
  lemma NoMarkerWithoutParen(s: string)
    requires '(' !in s
    ensures IndexOf(s, Marker).None?
  {
    forall j: nat
      ensures !OccursAt(s, Marker, j)
    {
      if j + |Marker| <= |s| {
        assert s[j..j + |Marker|][|Marker| - 1] == s[j + |Marker| - 1] != Marker[|Marker| - 1];
      }
    }
  }

  /** The segment after a single visible marker is everything that follows it. */
  lemma SegmentAfterMarker(prefix: string, body: string)
    requires IndexOf(prefix, Marker).None?
    requires '(' !in body
    ensures Segment(prefix + Marker + body) == Some(body)
  {
    var msg := prefix + Marker + body;
    FirstMarker(prefix, body);
    assert msg[|prefix| + |Marker|..] == body;
    NoMarkerWithoutParen(body);
  }

  /**
   * Round trip: parsing Blender's message for a tuple of plain ids gives
   * back exactly those ids.
   */
  lemma ParseRoundTrip(prefix: string, ids: seq<string>)
    requires IndexOf(prefix, Marker).None?
    requires |ids| >= 1
    requires forall k :: 0 <= k < |ids| ==> PlainId(ids[k])
    ensures AvailableTabs(prefix + Marker + TupleBody(ids)) == Some(set t | t in ids)
  {
    var body := TupleBody(ids);
    CleanTupleBody(ids);
    SegmentAfterMarker(prefix, body);
    SplitJoin(ids, ',');
  }
}
