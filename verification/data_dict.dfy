/** The data dictionary's layer logic: the geometry type read off a layer's
    name, the tags a layer exports with, its configured processors, and the
    progress figures of a layer in a dataset. */
module DataDict {
  import opened Wrappers
  import opened Workslices

  // ---------------------------------------------------------------------------
  // Layer.deduce_geometry_type

  datatype GeometryType = PointType | LineStringType | PolygonType

  /** `name.rsplit('_', 1)[-1]`: the text after the last underscore, or the
      whole name when it has none. */
  function LastPart(name: string): (r: string)
    ensures |r| <= |name| && r == name[|name| - |r|..]
    ensures '_' !in r
    ensures |r| < |name| ==> name[|name| - |r| - 1] == '_'
  {
    if |name| == 0 then ""
    else if name[|name| - 1] == '_' then ""
    else
      var init := LastPart(name[..|name| - 1]);
      assert name[..|name| - 1][|name| - 1 - |init|..] + [name[|name| - 1]] == name[|name| - |init| - 1..];
      init + [name[|name| - 1]]
  }

  /** The three properties of `LastPart` pin it down: any underscore-free
      suffix preceded by an underscore, or making up the whole name, is it. */
  lemma LastPartUnique(name: string, e: string)
    requires |e| <= |name| && e == name[|name| - |e|..] && '_' !in e
    requires |e| < |name| ==> name[|name| - |e| - 1] == '_'
    ensures LastPart(name) == e
  {
  }

  /** `deduce_geometry_type`: by the name's last part, `None` when the part
      is not one the dictionary uses. */
  function DeduceGeometryType(name: string): (r: Option<GeometryType>)
    ensures var e := LastPart(name);
      (r == Some(PointType) <==> e in {"pnt", "pnt2", "name", "text", "feat"}) &&
      (r == Some(LineStringType) <==> e in {"cl", "edge", "edg", "coastline", "contour"}) &&
      (r == Some(PolygonType) <==> e == "poly")
  {
    var e := LastPart(name);
    if e in {"pnt", "pnt2", "name", "text", "feat"} then Some(PointType)
    else if e in {"cl", "edge", "edg", "coastline", "contour"} then Some(LineStringType)
    else if e == "poly" then Some(PolygonType)
    else None
  }

  /** Only the part after the last underscore counts: whatever comes before
      it is ignored. */
  lemma DeduceLooksAtEnd(prefix: string, e: string)
    requires '_' !in e
    ensures DeduceGeometryType(prefix + "_" + e) == DeduceGeometryType(e)
  {
    var name := prefix + "_" + e;
    assert name[|name| - |e|..] == e;
    assert name[|name| - |e| - 1] == '_';
    LastPartUnique(name, e);
    LastPartUnique(e, e);
  }

  /** The layer names of the data dictionary's tests: a point layer, a line
      layer, and one whose name says nothing. */
  lemma DeducePointExample()
    ensures DeduceGeometryType("cave_pnt") == Some(PointType)
  {
    LastPartUnique("cave_pnt", "pnt");
  }

  lemma DeduceLineExample()
    ensures DeduceGeometryType("pipeline_cl") == Some(LineStringType)
  {
    LastPartUnique("pipeline_cl", "cl");
  }

  lemma DeduceUnknownExample()
    ensures DeduceGeometryType("nzopengps_road") == None
  {
    LastPartUnique("nzopengps_road", "road");
  }

  // ---------------------------------------------------------------------------
  // Layer.get_all_tags

  /** A tag row: its id and the OSM key it sets. */
  datatype LayerTag = LayerTag(id: int, name: string)

  predicate Named(ts: seq<LayerTag>, k: string) {
    exists i :: 0 <= i < |ts| && ts[i].name == k
  }

  /** The last tag of `ts` with key `k`: the one a dictionary built from
      `ts` keeps. */
  function LastNamed(ts: seq<LayerTag>, k: string): (r: Option<LayerTag>)
    ensures r.Some? <==> Named(ts, k)
    ensures r.Some? ==> exists i :: 0 <= i < |ts| && ts[i] == r.value && r.value.name == k &&
                                    forall j :: i < j < |ts| ==> ts[j].name != k
  {
    if |ts| == 0 then None
    else
      var rest := LastNamed(ts[1..], k);
      assert forall j :: 1 <= j < |ts| ==> ts[j] == ts[1..][j - 1];
      if rest.Some? then
        var i :| 0 <= i < |ts| - 1 && ts[1..][i] == rest.value && rest.value.name == k &&
                 forall j :: i < j < |ts| - 1 ==> ts[1..][j].name != k;
        assert ts[i + 1] == rest.value;
        rest
      else if ts[0].name == k then
        assert !Named(ts[1..], k);
        Some(ts[0])
      else None
  }

  /** `tags[t.tag] = t` for each tag in turn. */
  function Override(m: map<string, LayerTag>, ts: seq<LayerTag>): (r: map<string, LayerTag>)
    ensures forall k :: k in r <==> k in m || Named(ts, k)
    ensures forall k :: k in r && Named(ts, k) ==> r[k] == LastNamed(ts, k).value
    ensures forall k :: k in r && !Named(ts, k) ==> r[k] == m[k]
    decreases |ts|
  {
    if |ts| == 0 then m
    else
      var r := Override(m[ts[0].name := ts[0]], ts[1..]);
      OverrideStep(m, ts, r);
      r
  }

  /** How a tag's key relates the whole list to the list after its first
      tag. */
  lemma OverrideStep(m: map<string, LayerTag>, ts: seq<LayerTag>, r: map<string, LayerTag>)
    requires |ts| >= 1
    requires var m2 := m[ts[0].name := ts[0]];
      (forall k :: k in r <==> k in m2 || Named(ts[1..], k)) &&
      (forall k :: k in r && Named(ts[1..], k) ==> r[k] == LastNamed(ts[1..], k).value) &&
      (forall k :: k in r && !Named(ts[1..], k) ==> r[k] == m2[k])
    ensures forall k :: k in r <==> k in m || Named(ts, k)
    ensures forall k :: k in r && Named(ts, k) ==> r[k] == LastNamed(ts, k).value
    ensures forall k :: k in r && !Named(ts, k) ==> r[k] == m[k]
  {
    forall k
      ensures Named(ts, k) <==> ts[0].name == k || Named(ts[1..], k)
    {
      if Named(ts, k) && ts[0].name != k {
        var i :| 0 <= i < |ts| && ts[i].name == k;
        assert ts[1..][i - 1].name == k;
      }
      if Named(ts[1..], k) {
        var i :| 0 <= i < |ts| - 1 && ts[1..][i].name == k;
        assert ts[i + 1].name == k;
      }
    }
  }

  /** `get_all_tags`: the default tags, each replaced by the layer's own tag
      for the same key, and the layer's other tags. Every key appears once,
      mapped to a tag for that key. */
  function GetAllTags(defaults: seq<LayerTag>, own: seq<LayerTag>): (r: map<string, LayerTag>)
    ensures forall k :: k in r <==> Named(defaults, k) || Named(own, k)
    ensures forall k :: k in r ==> r[k].name == k
    ensures forall k :: Named(own, k) ==> r[k] == LastNamed(own, k).value
    ensures forall k :: Named(defaults, k) && !Named(own, k) ==> r[k] == LastNamed(defaults, k).value
  {
    Override(Override(map[], defaults), own)
  }

  /** A layer's own tag wins over the default for its key, whatever else
      either list holds. */
  lemma OwnTagWins(defaults: seq<LayerTag>, own: seq<LayerTag>, t: LayerTag)
    requires t in own && forall j :: 0 <= j < |own| && own[j].name == t.name ==> own[j] == t
    ensures GetAllTags(defaults, own)[t.name] == t
  {
    var i :| 0 <= i < |own| && own[i] == t;
    assert Named(own, t.name);
  }

  // ---------------------------------------------------------------------------
  // Layer.get_processors

  /** A configured processor: its class name and the keyword options. */
  datatype ProcessorEntry = ProcessorEntry(name: string, options: seq<(string, string)>)

  /** `get_processors`: one processor per entry, in the configured order; no
      configuration, or an empty one, gives none. A name that is not a
      processor class raises `Unknown Processor: <name>`. */
  function GetProcessors(config: Option<seq<ProcessorEntry>>, known: set<string>): (r: Result<seq<ProcessorEntry>, string>)
    ensures config.None? ==> r == Ok([])
    ensures config.Some? ==>
      (r.Ok? <==> forall i :: 0 <= i < |config.value| ==> config.value[i].name in known)
    ensures config.Some? && r.Ok? ==> r.value == config.value
    ensures config.Some? && r.Err? ==> exists i ::
      (0 <= i < |config.value| &&
       config.value[i].name !in known && r.error == "Unknown Processor: " + config.value[i].name &&
       forall j :: 0 <= j < i ==> config.value[j].name in known)
  {
    match config
    case None => Ok([])
    case Some(entries) => Instantiate(entries, known)
  }

  function Instantiate(entries: seq<ProcessorEntry>, known: set<string>): (r: Result<seq<ProcessorEntry>, string>)
    ensures r.Ok? <==> forall i :: 0 <= i < |entries| ==> entries[i].name in known
    ensures r.Ok? ==> r.value == entries
    ensures r.Err? ==> exists i ::
      (0 <= i < |entries| &&
       entries[i].name !in known && r.error == "Unknown Processor: " + entries[i].name &&
       forall j :: 0 <= j < i ==> entries[j].name in known)
  {
    if |entries| == 0 then Ok([])
    else if entries[0].name !in known then Err("Unknown Processor: " + entries[0].name)
    else
      var rest := Instantiate(entries[1..], known);
      assert forall j :: 1 <= j < |entries| ==> entries[j] == entries[1..][j - 1];
      if rest.Err? then
        var i :| 0 <= i < |entries| - 1 && entries[1..][i].name !in known &&
                 rest.error == "Unknown Processor: " + entries[1..][i].name &&
                 forall j :: 0 <= j < i ==> entries[1..][j].name in known;
        assert forall j :: 1 <= j < i + 1 ==> entries[j].name in known;
        Err(rest.error)
      else
        assert [entries[0]] + entries[1..] == entries;
        Ok([entries[0]] + rest.value)
  }

  // ---------------------------------------------------------------------------
  // LayerInDataset: progress figures and display bounds

  /** What the progress figures read of a workslice. */
  datatype SliceCount = SliceCount(state: State, featureCount: int)

  /** `Sum('feature_count')` over the workslices in the given states, `or 0`
      making an empty sum 0. */
  function SumIn(ws: seq<SliceCount>, states: set<State>): int {
    if |ws| == 0 then 0
    else (if ws[0].state in states then ws[0].featureCount else 0) + SumIn(ws[1..], states)
  }

  const InProgressStates: set<State> := {Processing, Out, Blocked}

  /** `features_complete`: a layer without complete workslices reports none,
      and counts never sum below zero. */
  function FeaturesComplete(ws: seq<SliceCount>): (r: int)
    ensures (forall i :: 0 <= i < |ws| ==> ws[i].state != Complete) ==> r == 0
    ensures (forall i :: 0 <= i < |ws| ==> ws[i].featureCount >= 0) ==> r >= 0
  {
    SumInNone(ws, {Complete});
    SumInNonNegative(ws, {Complete});
    SumIn(ws, {Complete})
  }

  /** `features_in_progress`: a layer without processing, checked-out or
      blocked workslices reports none, and counts never sum below zero. */
  function FeaturesInProgress(ws: seq<SliceCount>): (r: int)
    ensures (forall i :: 0 <= i < |ws| ==> ws[i].state !in {Processing, Out, Blocked}) ==> r == 0
    ensures (forall i :: 0 <= i < |ws| ==> ws[i].featureCount >= 0) ==> r >= 0
  {
    SumInNone(ws, InProgressStates);
    SumInNonNegative(ws, InProgressStates);
    SumIn(ws, InProgressStates)
  }

  lemma SumInNone(ws: seq<SliceCount>, states: set<State>)
    ensures (forall i :: 0 <= i < |ws| ==> ws[i].state !in states) ==> SumIn(ws, states) == 0
  {
    if forall i :: 0 <= i < |ws| ==> ws[i].state !in states {
      SumInOthers(ws, states);
    }
  }

  lemma {:induction false} SumInNonNegative(ws: seq<SliceCount>, states: set<State>)
    ensures (forall i :: 0 <= i < |ws| ==> ws[i].featureCount >= 0) ==> SumIn(ws, states) >= 0
  {
    if |ws| > 0 {
      SumInNonNegative(ws[1..], states);
      if forall i :: 0 <= i < |ws| ==> ws[i].featureCount >= 0 {
        assert forall i :: 0 <= i < |ws[1..]| ==> ws[1..][i].featureCount >= 0 by {
          forall i | 0 <= i < |ws[1..]| ensures ws[1..][i].featureCount >= 0 {
            assert ws[1..][i] == ws[i + 1];
          }
        }
      }
    }
  }

  /** `features_todo`: what neither of the other two figures counts. */
  function FeaturesTodo(total: int, ws: seq<SliceCount>): (r: int)
    ensures FeaturesComplete(ws) + FeaturesInProgress(ws) + r == total
  {
    total - FeaturesComplete(ws) - FeaturesInProgress(ws)
  }

  /** Sums over disjoint sets of states add up to the sum over their union. */
  lemma {:induction false} SumInUnion(ws: seq<SliceCount>, a: set<State>, b: set<State>)
    requires a !! b
    ensures SumIn(ws, a + b) == SumIn(ws, a) + SumIn(ws, b)
  {
    if |ws| > 0 {
      SumInUnion(ws[1..], a, b);
    }
  }

  /** A sum only sees workslices in its states. */
  lemma {:induction false} SumInOthers(ws: seq<SliceCount>, states: set<State>)
    requires forall i :: 0 <= i < |ws| ==> ws[i].state !in states
    ensures SumIn(ws, states) == 0
  {
    if |ws| > 0 {
      SumInOthers(ws[1..], states);
    }
  }

  /** The complete and in-progress figures count the workslices drawn on
      the layer's map, each exactly once; drafts and abandoned workslices
      leave the remainder in `features_todo`. */
  lemma FeaturesPartition(total: int, ws: seq<SliceCount>)
    ensures FeaturesComplete(ws) + FeaturesInProgress(ws) == SumIn(ws, {Processing, Out, Complete, Blocked})
    ensures (forall i :: 0 <= i < |ws| ==> ws[i].state in {Draft, Abandoned}) ==> FeaturesTodo(total, ws) == total
  {
    SumInUnion(ws, {Complete}, InProgressStates);
    assert {Complete} + InProgressStates == {Processing, Out, Complete, Blocked};
    if forall i :: 0 <= i < |ws| ==> ws[i].state in {Draft, Abandoned} {
      SumInOthers(ws, {Complete});
      SumInOthers(ws, InProgressStates);
    }
  }

  /** A layer's extent: `(min_x, min_y, max_x, max_y)`. */
  datatype Extent = Extent(minX: real, minY: real, maxX: real, maxY: real)

  /** `js_display_bounds_array`: the extent widened on each side by a tenth
      of its width (x) or height (y). */
  function DisplayBounds(e: Extent): (r: Extent)
    ensures r.maxX - r.minX == (e.maxX - e.minX) * 1.2 && r.maxY - r.minY == (e.maxY - e.minY) * 1.2
    ensures r.minX + r.maxX == e.minX + e.maxX && r.minY + r.maxY == e.minY + e.maxY
    ensures e.minX <= e.maxX && e.minY <= e.maxY ==>
      r.minX <= e.minX && e.maxX <= r.maxX && r.minY <= e.minY && e.maxY <= r.maxY
  {
    var xMargin := (e.maxX - e.minX) * 0.1;
    var yMargin := (e.maxY - e.minY) * 0.1;
    Extent(e.minX - xMargin, e.minY - yMargin, e.maxX + xMargin, e.maxY + yMargin)
  }
}
