/** How `OSMWriter` (linz2osm/convert/osm.py) turns one geometry into OSM
    elements: `build_geom` dispatches on the geometry's class, and
    `build_polygon` writes a `type=multipolygon` relation whose members are
    the ways of the rings, the exterior ring's ways being `outer` and
    carrying the feature's tags. */
module OsmExport {
  import opened Wrappers
  import opened Geometry
  import opened OsmTags
  import opened WaySplit
  import opened OsmWriter

  const MultipolygonTag := Tag("type", "multipolygon")

  /** Ring 0 of a polygon is its exterior. */
  function RoleOf(i: nat): Role {
    if i == 0 then Outer else Inner
  }

  /** One `<member type="way">` per way, all with the same role. */
  function WayMembers(ways: seq<Element>, role: Role): (r: seq<Member>)
    ensures |r| == |ways|
    ensures forall k :: 0 <= k < |ways| ==> r[k] == Member(ways[k].id, role)
  {
    if |ways| == 0 then [] else [Member(ways[0].id, role)] + WayMembers(ways[1..], role)
  }

  // ---------------------------------------------------------------------------
  // The relation's tags

  /** The relation's tags as written: `type=multipolygon`, then the feature's
      tags for relations, which may carry a `type` of their own. */
  function RelationTags(tags: Option<FeatureTags>): (r: Result<seq<Tag>, TagError>)
    ensures r.Ok? ==> |r.value| >= 1 && r.value[0] == MultipolygonTag
    ensures r.Ok? <==> BuildTags(SpecsOf(tags), RelationObject).Ok?
  {
    var t := BuildTags(SpecsOf(tags), RelationObject);
    if t.Err? then Err(t.error) else Ok([MultipolygonTag] + t.value)
  }

  /** The relation's tags as evidently intended: `type` counted as already
      written, so the feature's own `type` tag cannot repeat the key. */
  function RelationTagsCorrected(tags: Option<FeatureTags>): (r: Result<seq<Tag>, TagError>)
    ensures r.Ok? ==> |r.value| >= 1 && r.value[0] == MultipolygonTag
    ensures r.Ok? ==> forall a, b :: 0 <= a < b < |r.value| ==> r.value[a].k != r.value[b].k
  {
    var t := if !Truthy(tags) then Ok([]) else BuildTagsFrom(tags.value.specs, RelationObject, {"type"});
    if t.Err? then Err(t.error)
    else
      var r := [MultipolygonTag] + t.value;
      assert forall a :: 1 <= a < |r| ==> r[a] == t.value[a - 1];
      Ok(r)
  }

  // ---------------------------------------------------------------------------
  // Polygons

  predicate Polygonal(g: Geom) {
    g.Polygon? || (g.Collection? && g.kind == MultiPolygon && WellFormed(g))
  }

  /** The rings of each polygon of a polygonal geometry. */
  function PolygonsOf(g: Geom): (r: seq<seq<seq<Coord>>>)
    requires Polygonal(g)
    ensures g.Polygon? ==> r == [g.rings]
    ensures g.Collection? ==> |r| == |g.parts| && forall j :: 0 <= j < |r| ==> r[j] == g.parts[j].rings
  {
    if g.Polygon? then [g.rings] else RingsOfParts(g.parts)
  }

  function RingsOfParts(parts: seq<Geom>): (r: seq<seq<seq<Coord>>>)
    requires forall j :: 0 <= j < |parts| ==> parts[j].Polygon?
    ensures |r| == |parts| && forall j :: 0 <= j < |r| ==> r[j] == parts[j].rings
  {
    if |parts| == 0 then [] else [parts[0].rings] + RingsOfParts(parts[1..])
  }

  /** Only the exterior ring's ways carry the feature's tags. */
  function RingTags(tags: Option<FeatureTags>, i: nat): Option<FeatureTags> {
    if i == 0 then tags else None
  }

  /** The members for rings `i` onward of one polygon: each ring becomes the
      ways of `build_way`, without tagged ends; only ring 0 carries the tags. */
  function RingMembers(w: Writer, rings: seq<seq<Coord>>, i: nat, tags: Option<FeatureTags>)
    : (r: Result<(Writer, seq<Member>), TagError>)
    requires i <= |rings|
    ensures r.Ok? ==> Extends(w, r.value.0)
    decreases |rings| - i
  {
    if i == |rings| then
      ExtendsRefl(w);
      Ok((w, []))
    else
      var b := BuildWay(w, rings[i], RingTags(tags, i), false, None, None);
      if b.Err? then Err(b.error)
      else
        var rest := RingMembers(b.value.0, rings, i + 1, tags);
        if rest.Err? then Err(rest.error)
        else
          ExtendsTrans(w, b.value.0, rest.value.0);
          Ok((rest.value.0, WayMembers(b.value.1, RoleOf(i)) + rest.value.1))
  }

  /** The members for polygons `j` onward, all in the same relation. */
  function PolygonMembers(w: Writer, polys: seq<seq<seq<Coord>>>, j: nat, tags: Option<FeatureTags>)
    : (r: Result<(Writer, seq<Member>), TagError>)
    requires j <= |polys|
    ensures r.Ok? ==> Extends(w, r.value.0)
    decreases |polys| - j
  {
    if j == |polys| then
      ExtendsRefl(w);
      Ok((w, []))
    else
      var m := RingMembers(w, polys[j], 0, tags);
      if m.Err? then Err(m.error)
      else
        var rest := PolygonMembers(m.value.0, polys, j + 1, tags);
        if rest.Err? then Err(rest.error)
        else
          ExtendsTrans(w, m.value.0, rest.value.0);
          Ok((rest.value.0, m.value.1 + rest.value.1))
  }

  /** The last element written is a multipolygon relation with id `id`. */
  predicate EndsWithRelation(v: Writer, id: int, tags: Option<FeatureTags>) {
    |v.created| >= 1 && v.created[|v.created| - 1].Relation?
    && v.created[|v.created| - 1].id == id
    && RelationTags(tags) == Ok(v.created[|v.created| - 1].tags)
  }

  /** `build_polygon` with no root: the relation's id is taken first and its
      tags written, then the ways of every ring, and the relation is appended
      after them. */
  function BuildPolygon(w: Writer, g: Geom, tags: Option<FeatureTags>): (r: Result<(Writer, seq<int>), TagError>)
    requires Polygonal(g)
    ensures r.Ok? ==> Extends(w, r.value.0) && r.value.1 == [w.lastId - 1]
    ensures r.Ok? ==> EndsWithRelation(r.value.0, w.lastId - 1, tags)
    ensures RelationTags(tags).Err? ==> r.Err?
    ensures r.Ok? ==> RelationTags(tags).Ok? && PolygonMembers(NextId(w).1, PolygonsOf(g), 0, tags).Ok?
    ensures r.Ok? ==> var m := PolygonMembers(NextId(w).1, PolygonsOf(g), 0, tags).value;
      r.value.0.created == m.0.created + [Relation(w.lastId - 1, m.1, RelationTags(tags).value)]
  {
    var relTags := RelationTags(tags);
    if relTags.Err? then Err(relTags.error)
    else
      var m := PolygonMembers(NextId(w).1, PolygonsOf(g), 0, tags);
      if m.Err? then Err(m.error)
      else
        var rel := Relation(NextId(w).0, m.value.1, relTags.value);
        ExtendsAppend(w, m.value.0, rel);
        Ok((m.value.0.(created := m.value.0.created + [rel]), [NextId(w).0]))
  }

  // ---------------------------------------------------------------------------
  // Geometries

  /** How many ids `build_geom` returns: one per point, polygon and
      multipolygon, one per way of a line, and the parts' ids for the other
      collections. */
  function IdCount(g: Geom): nat {
    match g
    case Point(_) => 1
    case LineString(coords) => |Chunks(coords, WaySplitSize)|
    case Polygon(_) => 1
    case Collection(k, parts) => if k == MultiPolygon then 1 else PartsIdCount(parts)
  }

  function PartsIdCount(parts: seq<Geom>): nat {
    if |parts| == 0 then 0 else IdCount(parts[0]) + PartsIdCount(parts[1..])
  }

  function WayIds(b: Result<(Writer, seq<Element>), TagError>): Result<(Writer, seq<int>), TagError> {
    if b.Err? then Err(b.error) else Ok((b.value.0, Ids(b.value.1)))
  }

  /** `build_geom`: a polygon of one ring short enough for one way is a plain
      way; other polygons and multipolygons are relations; the other
      collections are their parts in turn (with repeated points shared);
      a lone point is always a new node; a line is a way with tagged ends. */
  function BuildGeom(w: Writer, g: Geom, tags: Option<FeatureTags>, firstRef: Option<string>,
                     lastRef: Option<string>, inner: bool): (r: Result<(Writer, seq<int>), TagError>)
    requires WellFormed(g)
    ensures r.Ok? ==> Extends(w, r.value.0) && |r.value.1| == IdCount(g)
    decreases g, 1
  {
    match g
    case Polygon(rings) =>
      if |rings| == 1 && |rings[0]| <= WaySplitSize then
        ChunkCount(rings[0], WaySplitSize);
        WayIds(BuildWay(w, rings[0], tags, false, None, None))
      else BuildPolygon(w, g, tags)
    case Collection(kind, parts) =>
      if kind == MultiPolygon then BuildPolygon(w, g, tags)
      else BuildParts(w, g, 0, tags, firstRef, lastRef)
    case Point(c) =>
      var n := MakeNode(w, c, tags, inner, GeometryObject);
      if n.Err? then Err(n.error) else Ok((n.value.0, [n.value.1]))
    case LineString(coords) =>
      WayIds(BuildWay(w, coords, tags, true, firstRef, lastRef))
  }

  /** The parts of a collection from part `i` on, each built as an inner
      geometry with the same tags and end-node references. */
  function BuildParts(w: Writer, g: Geom, i: nat, tags: Option<FeatureTags>, firstRef: Option<string>,
                      lastRef: Option<string>): (r: Result<(Writer, seq<int>), TagError>)
    requires g.Collection? && WellFormed(g) && i <= |g.parts|
    ensures r.Ok? ==> Extends(w, r.value.0) && |r.value.1| == PartsIdCount(g.parts[i..])
    decreases g, 0, |g.parts| - i
  {
    if i == |g.parts| then
      ExtendsRefl(w);
      Ok((w, []))
    else
      var p := BuildGeom(w, g.parts[i], tags, firstRef, lastRef, true);
      if p.Err? then Err(p.error)
      else
        var rest := BuildParts(p.value.0, g, i + 1, tags, firstRef, lastRef);
        if rest.Err? then Err(rest.error)
        else
          ExtendsTrans(w, p.value.0, rest.value.0);
          assert g.parts[i..][1..] == g.parts[i + 1..];
          Ok((rest.value.0, p.value.1 + rest.value.1))
  }

  // ---------------------------------------------------------------------------
  // Member roles

  function Repeat(role: Role, n: nat): (r: seq<Role>)
    ensures |r| == n && forall k :: 0 <= k < n ==> r[k] == role
  {
    if n == 0 then [] else [role] + Repeat(role, n - 1)
  }

  /** The roles the members for rings `i` onward should carry, one per way of
      each ring, in ring order. */
  function RingRoles(rings: seq<seq<Coord>>, i: nat): seq<Role>
    decreases |rings| - i
  {
    if i >= |rings| then [] else Repeat(RoleOf(i), |Chunks(rings[i], WaySplitSize)|) + RingRoles(rings, i + 1)
  }

  /** The roles for polygons `j` onward, polygon after polygon. */
  function PolygonRoles(polys: seq<seq<seq<Coord>>>, j: nat): seq<Role>
    decreases |polys| - j
  {
    if j >= |polys| then [] else RingRoles(polys[j], 0) + PolygonRoles(polys, j + 1)
  }

  function RolesOf(ms: seq<Member>): (r: seq<Role>)
    ensures |r| == |ms| && forall k :: 0 <= k < |ms| ==> r[k] == ms[k].role
  {
    if |ms| == 0 then [] else [ms[0].role] + RolesOf(ms[1..])
  }

  lemma RolesOfAppend(a: seq<Member>, b: seq<Member>)
    ensures RolesOf(a + b) == RolesOf(a) + RolesOf(b)
  {
  }

  lemma RingMembersStep(w: Writer, rings: seq<seq<Coord>>, i: nat, tags: Option<FeatureTags>)
    requires i < |rings| && RingMembers(w, rings, i, tags).Ok?
    ensures var b := BuildWay(w, rings[i], RingTags(tags, i), false, None, None);
      b.Ok? && RingMembers(b.value.0, rings, i + 1, tags).Ok?
      && RingMembers(w, rings, i, tags).value
         == (RingMembers(b.value.0, rings, i + 1, tags).value.0,
             WayMembers(b.value.1, RoleOf(i)) + RingMembers(b.value.0, rings, i + 1, tags).value.1)
  {
  }

  /** Each ring's ways become members with the ring's role, ring after ring. */
  lemma {:induction false} RingMembersRoles(w: Writer, rings: seq<seq<Coord>>, i: nat, tags: Option<FeatureTags>)
    requires i <= |rings| && RingMembers(w, rings, i, tags).Ok?
    ensures RolesOf(RingMembers(w, rings, i, tags).value.1) == RingRoles(rings, i)
    decreases |rings| - i
  {
    if i < |rings| {
      RingMembersStep(w, rings, i, tags);
      var b := BuildWay(w, rings[i], RingTags(tags, i), false, None, None).value;
      RingMembersRoles(b.0, rings, i + 1, tags);
      RingRolesCons(rings, i, b.1, RingMembers(b.0, rings, i + 1, tags).value.1);
    }
  }

  lemma RingRolesCons(rings: seq<seq<Coord>>, i: nat, ways: seq<Element>, rest: seq<Member>)
    requires i < |rings| && |ways| == |Chunks(rings[i], WaySplitSize)|
    requires RolesOf(rest) == RingRoles(rings, i + 1)
    ensures RolesOf(WayMembers(ways, RoleOf(i)) + rest) == RingRoles(rings, i)
  {
    RolesOfAppend(WayMembers(ways, RoleOf(i)), rest);
    assert RolesOf(WayMembers(ways, RoleOf(i))) == Repeat(RoleOf(i), |ways|);
  }

  lemma PolygonMembersStep(w: Writer, polys: seq<seq<seq<Coord>>>, j: nat, tags: Option<FeatureTags>)
    requires j < |polys| && PolygonMembers(w, polys, j, tags).Ok?
    ensures var m := RingMembers(w, polys[j], 0, tags);
      m.Ok? && PolygonMembers(m.value.0, polys, j + 1, tags).Ok?
      && PolygonMembers(w, polys, j, tags).value
         == (PolygonMembers(m.value.0, polys, j + 1, tags).value.0,
             m.value.1 + PolygonMembers(m.value.0, polys, j + 1, tags).value.1)
  {
  }

  lemma {:induction false} PolygonMembersRoles(w: Writer, polys: seq<seq<seq<Coord>>>, j: nat, tags: Option<FeatureTags>)
    requires j <= |polys| && PolygonMembers(w, polys, j, tags).Ok?
    ensures RolesOf(PolygonMembers(w, polys, j, tags).value.1) == PolygonRoles(polys, j)
    decreases |polys| - j
  {
    if j < |polys| {
      PolygonMembersStep(w, polys, j, tags);
      var m := RingMembers(w, polys[j], 0, tags).value;
      RingMembersRoles(w, polys[j], 0, tags);
      PolygonMembersRoles(m.0, polys, j + 1, tags);
      RolesOfAppend(m.1, PolygonMembers(m.0, polys, j + 1, tags).value.1);
    }
  }

  /** Rings after the first are inner throughout. */
  lemma {:induction false} LaterRingsInner(rings: seq<seq<Coord>>, i: nat)
    requires i >= 1
    ensures forall k :: 0 <= k < |RingRoles(rings, i)| ==> RingRoles(rings, i)[k] == Inner
    decreases |rings| - i
  {
    if i < |rings| {
      LaterRingsInner(rings, i + 1);
      var head := Repeat(RoleOf(i), |Chunks(rings[i], WaySplitSize)|);
      forall k | 0 <= k < |RingRoles(rings, i)| ensures RingRoles(rings, i)[k] == Inner {
        if k >= |head| {
          assert RingRoles(rings, i)[k] == RingRoles(rings, i + 1)[k - |head|];
        }
      }
    }
  }

  /** In one polygon's members, exactly the exterior ring's ways are outer. */
  lemma OuterExactlyFirstRing(rings: seq<seq<Coord>>, k: nat)
    requires |rings| >= 1 && k < |RingRoles(rings, 0)|
    ensures RingRoles(rings, 0)[k] == Outer <==> k < |Chunks(rings[0], WaySplitSize)|
  {
    var n := |Chunks(rings[0], WaySplitSize)|;
    LaterRingsInner(rings, 1);
    if k >= n {
      assert RingRoles(rings, 0)[k] == RingRoles(rings, 1)[k - n];
    }
  }

  // ---------------------------------------------------------------------------
  // Member ways

  /** The tags the exterior ring's ways carry: the feature's geometry tags. */
  function OuterTags(tags: Option<FeatureTags>): seq<Tag> {
    var b := BuildTags(SpecsOf(tags), GeometryObject);
    if b.Ok? then b.value else []
  }

  function TagsForRole(tags: Option<FeatureTags>, role: Role): seq<Tag> {
    if role == Outer then OuterTags(tags) else []
  }

  /** A way with id `id` and tags `wayTags` has been written. */
  predicate WayWritten(created: seq<Element>, id: int, wayTags: seq<Tag>) {
    exists e :: e in created && e.Way? && e.id == id && e.tags == wayTags
  }

  /** Every member refers to a written way, tagged when outer and untagged
      when inner. */
  predicate MembersWritten(v: Writer, ms: seq<Member>, tags: Option<FeatureTags>) {
    forall k :: 0 <= k < |ms| ==> WayWritten(v.created, ms[k].ref, TagsForRole(tags, ms[k].role))
  }

  /** The last element written is the relation `id` with the feature's
      relation tags, its members have the given roles in order, and each
      member is a written way tagged as its role asks. */
  predicate RelationWritten(v: Writer, id: int, tags: Option<FeatureTags>, roles: seq<Role>) {
    EndsWithRelation(v, id, tags)
    && RolesOf(v.created[|v.created| - 1].members) == roles
    && MembersWritten(v, v.created[|v.created| - 1].members, tags)
  }

  lemma MembersWrittenExtends(v: Writer, x: Writer, ms: seq<Member>, tags: Option<FeatureTags>)
    requires Extends(v, x) && MembersWritten(v, ms, tags)
    ensures MembersWritten(x, ms, tags)
  {
    forall k | 0 <= k < |ms| ensures WayWritten(x.created, ms[k].ref, TagsForRole(tags, ms[k].role)) {
      assert WayWritten(v.created, ms[k].ref, TagsForRole(tags, ms[k].role));
      var e :| e in v.created && e.Way? && e.id == ms[k].ref && e.tags == TagsForRole(tags, ms[k].role);
      ExtendsKeeps(v, x, e);
    }
  }

  lemma MembersWrittenGrow(v: Writer, e: Element, ms: seq<Member>, tags: Option<FeatureTags>)
    requires MembersWritten(v, ms, tags)
    ensures MembersWritten(v.(created := v.created + [e]), ms, tags)
  {
    forall k | 0 <= k < |ms|
      ensures WayWritten(v.created + [e], ms[k].ref, TagsForRole(tags, ms[k].role))
    {
      assert WayWritten(v.created, ms[k].ref, TagsForRole(tags, ms[k].role));
      var x :| x in v.created && x.Way? && x.id == ms[k].ref && x.tags == TagsForRole(tags, ms[k].role);
      assert x in v.created + [e];
    }
  }

  lemma MembersWrittenAppend(v: Writer, a: seq<Member>, b: seq<Member>, tags: Option<FeatureTags>)
    requires MembersWritten(v, a, tags) && MembersWritten(v, b, tags)
    ensures MembersWritten(v, a + b, tags)
  {
    forall k | 0 <= k < |a + b|
      ensures WayWritten(v.created, (a + b)[k].ref, TagsForRole(tags, (a + b)[k].role))
    {
      if k >= |a| {
        assert (a + b)[k] == b[k - |a|];
      }
    }
  }

  /** The ways of ring `i` are written with the tags their role calls for. */
  lemma RingWaysWritten(w: Writer, ring: seq<Coord>, i: nat, tags: Option<FeatureTags>)
    requires BuildWay(w, ring, RingTags(tags, i), false, None, None).Ok?
    ensures var b := BuildWay(w, ring, RingTags(tags, i), false, None, None).value;
      MembersWritten(b.0, WayMembers(b.1, RoleOf(i)), tags)
  {
    var b := BuildWay(w, ring, RingTags(tags, i), false, None, None).value;
    var ms := WayMembers(b.1, RoleOf(i));
    forall k | 0 <= k < |ms| ensures WayWritten(b.0.created, ms[k].ref, TagsForRole(tags, ms[k].role)) {
      BuildWayWays(w, ring, RingTags(tags, i), false, None, None, k);
      assert b.1[k] in b.0.created;
    }
  }

  lemma {:induction false} RingMembersWritten(w: Writer, rings: seq<seq<Coord>>, i: nat, tags: Option<FeatureTags>)
    requires i <= |rings| && RingMembers(w, rings, i, tags).Ok?
    ensures var r := RingMembers(w, rings, i, tags).value;
      MembersWritten(r.0, r.1, tags)
    decreases |rings| - i
  {
    if i < |rings| {
      RingMembersStep(w, rings, i, tags);
      var b := BuildWay(w, rings[i], RingTags(tags, i), false, None, None).value;
      var rest := RingMembers(b.0, rings, i + 1, tags).value;
      RingMembersWritten(b.0, rings, i + 1, tags);
      RingWaysWritten(w, rings[i], i, tags);
      MembersWrittenExtends(b.0, rest.0, WayMembers(b.1, RoleOf(i)), tags);
      MembersWrittenAppend(rest.0, WayMembers(b.1, RoleOf(i)), rest.1, tags);
    }
  }

  lemma {:induction false} PolygonMembersWritten(w: Writer, polys: seq<seq<seq<Coord>>>, j: nat,
                                                 tags: Option<FeatureTags>)
    requires j <= |polys| && PolygonMembers(w, polys, j, tags).Ok?
    ensures var r := PolygonMembers(w, polys, j, tags).value;
      MembersWritten(r.0, r.1, tags)
    decreases |polys| - j
  {
    if j < |polys| {
      PolygonMembersStep(w, polys, j, tags);
      var m := RingMembers(w, polys[j], 0, tags).value;
      var rest := PolygonMembers(m.0, polys, j + 1, tags).value;
      RingMembersWritten(w, polys[j], 0, tags);
      PolygonMembersWritten(m.0, polys, j + 1, tags);
      MembersWrittenExtends(m.0, rest.0, m.1, tags);
      MembersWrittenAppend(rest.0, m.1, rest.1, tags);
    }
  }

  // ---------------------------------------------------------------------------
  // The relation

  /** The relation's members: one per way of each ring, outer for the
      exterior ring's ways and inner for the others, each a written way
      carrying the feature's tags when outer and none when inner. */
  lemma BuildPolygonMembers(w: Writer, g: Geom, tags: Option<FeatureTags>)
    requires Polygonal(g) && BuildPolygon(w, g, tags).Ok?
    ensures var r := BuildPolygon(w, g, tags).value;
      r.1 == [w.lastId - 1] && RelationWritten(r.0, w.lastId - 1, tags, PolygonRoles(PolygonsOf(g), 0))
  {
    var m := PolygonMembers(NextId(w).1, PolygonsOf(g), 0, tags).value;
    var rel := Relation(w.lastId - 1, m.1, RelationTags(tags).value);
    var v := BuildPolygon(w, g, tags).value.0;
    assert v.created == m.0.created + [rel];
    assert v.created[|v.created| - 1] == rel;
    PolygonMembersRoles(NextId(w).1, PolygonsOf(g), 0, tags);
    PolygonMembersWritten(NextId(w).1, PolygonsOf(g), 0, tags);
    MembersWrittenGrow(m.0, rel, m.1, tags);
    assert MembersWritten(v, m.1, tags);
  }

  // ---------------------------------------------------------------------------
  // Polygons: plain way or relation

  /** One ring short enough for one way, without tagged ends, is exactly one
      way, written last, with one reference per coordinate and the feature's
      geometry tags. */
  lemma ShortRingIsOneWay(w: Writer, ring: seq<Coord>, tags: Option<FeatureTags>)
    requires |ring| <= WaySplitSize
    requires BuildWay(w, ring, tags, false, None, None).Ok?
    ensures var b := BuildWay(w, ring, tags, false, None, None).value;
      |b.1| == 1 && |b.0.created| >= 1 && b.0.created[|b.0.created| - 1] == b.1[0]
      && b.1[0].Way? && |b.1[0].refs| == |ring| && BuildTags(SpecsOf(tags), GeometryObject) == Ok(b.1[0].tags)
  {
    ChunkCount(ring, WaySplitSize);
    BuildWayEndsWritten(w, ring, tags, false, None, None);
    BuildWayWays(w, ring, tags, false, None, None, 0);
  }

  /** The last element written is the way `id` with `count` node references
      and the feature's geometry tags. */
  predicate EndsWithWay(v: Writer, id: int, count: nat, tags: Option<FeatureTags>) {
    |v.created| >= 1 && v.created[|v.created| - 1].Way? && v.created[|v.created| - 1].id == id
    && |v.created[|v.created| - 1].refs| == count
    && BuildTags(SpecsOf(tags), GeometryObject) == Ok(v.created[|v.created| - 1].tags)
  }

  /** A polygon of one ring short enough for one way becomes a plain way: the
      one id returned is the last element written, a way over the ring's
      coordinates carrying the feature's geometry tags. */
  lemma ShortPolygonIsWay(w: Writer, ring: seq<Coord>, tags: Option<FeatureTags>, firstRef: Option<string>,
                          lastRef: Option<string>, inner: bool)
    requires |ring| <= WaySplitSize
    requires BuildGeom(w, Polygon([ring]), tags, firstRef, lastRef, inner).Ok?
    ensures var r := BuildGeom(w, Polygon([ring]), tags, firstRef, lastRef, inner).value;
      |r.1| == 1 && EndsWithWay(r.0, r.1[0], |ring|, tags)
  {
    assert BuildGeom(w, Polygon([ring]), tags, firstRef, lastRef, inner)
        == WayIds(BuildWay(w, ring, tags, false, None, None));
    ShortRingIsOneWay(w, ring, tags);
  }

  /** Any other polygon becomes a `type=multipolygon` relation, written after
      its ways, whose id is the one returned; its members are one per way of
      each ring, outer exactly for the exterior ring's ways, each a written
      way tagged only when outer. */
  lemma PolygonIsRelation(w: Writer, rings: seq<seq<Coord>>, tags: Option<FeatureTags>, firstRef: Option<string>,
                          lastRef: Option<string>, inner: bool)
    requires !(|rings| == 1 && |rings[0]| <= WaySplitSize)
    requires BuildGeom(w, Polygon(rings), tags, firstRef, lastRef, inner).Ok?
    ensures var r := BuildGeom(w, Polygon(rings), tags, firstRef, lastRef, inner).value;
      r.1 == [w.lastId - 1] && RelationWritten(r.0, w.lastId - 1, tags, RingRoles(rings, 0))
  {
    PolygonBuild(w, rings, tags, firstRef, lastRef, inner);
    BuildPolygonMembers(w, Polygon(rings), tags);
    assert PolygonRoles([rings], 0) == RingRoles(rings, 0) + PolygonRoles([rings], 1);
  }

  lemma PolygonBuild(w: Writer, rings: seq<seq<Coord>>, tags: Option<FeatureTags>, firstRef: Option<string>,
                     lastRef: Option<string>, inner: bool)
    requires !(|rings| == 1 && |rings[0]| <= WaySplitSize) && WellFormed(Polygon(rings))
    ensures Polygonal(Polygon(rings))
    ensures BuildGeom(w, Polygon(rings), tags, firstRef, lastRef, inner) == BuildPolygon(w, Polygon(rings), tags)
  {
  }

  /** A multipolygon is one relation over all its polygons' rings, each
      polygon's exterior ring outer. */
  lemma MultiPolygonIsRelation(w: Writer, g: Geom, tags: Option<FeatureTags>, firstRef: Option<string>,
                               lastRef: Option<string>, inner: bool)
    requires g.Collection? && g.kind == MultiPolygon && WellFormed(g)
    requires BuildGeom(w, g, tags, firstRef, lastRef, inner).Ok?
    ensures var r := BuildGeom(w, g, tags, firstRef, lastRef, inner).value;
      r.1 == [w.lastId - 1] && RelationWritten(r.0, w.lastId - 1, tags, PolygonRoles(PolygonsOf(g), 0))
  {
    MultiPolygonBuild(w, g, tags, firstRef, lastRef, inner);
    BuildPolygonMembers(w, g, tags);
  }

  lemma MultiPolygonBuild(w: Writer, g: Geom, tags: Option<FeatureTags>, firstRef: Option<string>,
                          lastRef: Option<string>, inner: bool)
    requires g.Collection? && g.kind == MultiPolygon && WellFormed(g)
    ensures Polygonal(g)
    ensures BuildGeom(w, g, tags, firstRef, lastRef, inner) == BuildPolygon(w, g, tags)
  {
  }

  /** The polygon of the exporter's own example, an exterior ring with one
      hole, both short: a relation of two members, the exterior's way outer
      and tagged, the hole's way inner and untagged. */
  lemma PolygonWithHole(w: Writer, outer: seq<Coord>, hole: seq<Coord>, tags: Option<FeatureTags>,
                        firstRef: Option<string>, lastRef: Option<string>, inner: bool)
    requires |outer| <= WaySplitSize && |hole| <= WaySplitSize
    requires BuildGeom(w, Polygon([outer, hole]), tags, firstRef, lastRef, inner).Ok?
    ensures RelationWritten(BuildGeom(w, Polygon([outer, hole]), tags, firstRef, lastRef, inner).value.0,
                            w.lastId - 1, tags, [Outer, Inner])
  {
    PolygonIsRelation(w, [outer, hole], tags, firstRef, lastRef, inner);
    ShortRingsRoles(outer, hole);
  }

  lemma ShortRingsRoles(outer: seq<Coord>, hole: seq<Coord>)
    requires |outer| <= WaySplitSize && |hole| <= WaySplitSize
    ensures RingRoles([outer, hole], 0) == [Outer, Inner]
  {
    ChunkCount(outer, WaySplitSize);
    ChunkCount(hole, WaySplitSize);
    assert RingRoles([outer, hole], 2) == [];
  }

  // ---------------------------------------------------------------------------
  // Points

  lemma BuildPartsStep(w: Writer, g: Geom, i: nat, tags: Option<FeatureTags>, firstRef: Option<string>,
                       lastRef: Option<string>)
    requires g.Collection? && WellFormed(g) && i < |g.parts|
    requires BuildParts(w, g, i, tags, firstRef, lastRef).Ok?
    ensures var p := BuildGeom(w, g.parts[i], tags, firstRef, lastRef, true);
      p.Ok? && BuildParts(p.value.0, g, i + 1, tags, firstRef, lastRef).Ok?
      && BuildParts(w, g, i, tags, firstRef, lastRef).value.1
         == p.value.1 + BuildParts(p.value.0, g, i + 1, tags, firstRef, lastRef).value.1
  {
  }

  /** A point on its own is always a new node, even where a node was made for
      the same coordinate and tags before. */
  lemma LonePointIsNew(w: Writer, c: Coord, tags: Option<FeatureTags>, firstRef: Option<string>,
                       lastRef: Option<string>)
    requires BuildGeom(w, Point(c), tags, firstRef, lastRef, false).Ok?
    ensures var r := BuildGeom(w, Point(c), tags, firstRef, lastRef, false).value;
      BuildTags(SpecsOf(tags), GeometryObject).Ok? && r.1 == [w.lastId - 1]
      && r.0.created == w.created + [Node(w.lastId - 1, c, BuildTags(SpecsOf(tags), GeometryObject).value)]
  {
  }

  /** Within a collection, a point repeated with the same tags is one node. */
  lemma RepeatedPointShared(w: Writer, c: Coord, tags: Option<FeatureTags>, firstRef: Option<string>,
                            lastRef: Option<string>, inner: bool)
    requires BuildGeom(w, Collection(MultiPoint, [Point(c), Point(c)]), tags, firstRef, lastRef, inner).Ok?
    ensures var ids := BuildGeom(w, Collection(MultiPoint, [Point(c), Point(c)]), tags, firstRef, lastRef, inner).value.1;
      |ids| == 2 && ids[0] == ids[1]
  {
    var g := Collection(MultiPoint, [Point(c), Point(c)]);
    CollectionBuild(w, g, tags, firstRef, lastRef, inner);
    RepeatedPointParts(w, c, tags, firstRef, lastRef);
  }

  /** Any collection but a multipolygon is built part by part. */
  lemma CollectionBuild(w: Writer, g: Geom, tags: Option<FeatureTags>, firstRef: Option<string>,
                        lastRef: Option<string>, inner: bool)
    requires g.Collection? && g.kind != MultiPolygon && WellFormed(g)
    ensures BuildGeom(w, g, tags, firstRef, lastRef, inner) == BuildParts(w, g, 0, tags, firstRef, lastRef)
  {
  }

  lemma RepeatedPointParts(w: Writer, c: Coord, tags: Option<FeatureTags>, firstRef: Option<string>,
                           lastRef: Option<string>)
    requires BuildParts(w, Collection(MultiPoint, [Point(c), Point(c)]), 0, tags, firstRef, lastRef).Ok?
    ensures var ids := BuildParts(w, Collection(MultiPoint, [Point(c), Point(c)]), 0, tags, firstRef, lastRef).value.1;
      |ids| == 2 && ids[0] == ids[1]
  {
    var g := Collection(MultiPoint, [Point(c), Point(c)]);
    BuildPartsStep(w, g, 0, tags, firstRef, lastRef);
    InnerPointCached(w, c, tags, firstRef, lastRef);
    var w1 := BuildGeom(w, Point(c), tags, firstRef, lastRef, true).value.0;
    var n := w1.nodes[KeyFor(c, tags)];
    LastPointReused(w1, g, c, tags, firstRef, lastRef);
    assert BuildParts(w, g, 0, tags, firstRef, lastRef).value.1 == [n] + [n];
  }

  /** The second of two equal points, once the first is cached, adds its
      node's id and nothing else. */
  lemma LastPointReused(w: Writer, g: Geom, c: Coord, tags: Option<FeatureTags>, firstRef: Option<string>,
                        lastRef: Option<string>)
    requires g == Collection(MultiPoint, [Point(c), Point(c)]) && KeyFor(c, tags) in w.nodes
    ensures BuildParts(w, g, 1, tags, firstRef, lastRef) == Ok((w, [w.nodes[KeyFor(c, tags)]]))
  {
    var n := w.nodes[KeyFor(c, tags)];
    InnerPointReused(w, c, tags, firstRef, lastRef);
    assert g.parts[1] == Point(c);
    assert BuildParts(w, g, 2, tags, firstRef, lastRef) == Ok((w, []));
    assert [n] + [] == [n];
  }

  /** An inner point's node is cached under its coordinate and tags. */
  lemma InnerPointCached(w: Writer, c: Coord, tags: Option<FeatureTags>, firstRef: Option<string>,
                         lastRef: Option<string>)
    requires BuildGeom(w, Point(c), tags, firstRef, lastRef, true).Ok?
    ensures var r := BuildGeom(w, Point(c), tags, firstRef, lastRef, true).value;
      KeyFor(c, tags) in r.0.nodes && r.1 == [r.0.nodes[KeyFor(c, tags)]]
  {
  }

  /** An inner point whose node is cached reuses it and writes nothing. */
  lemma InnerPointReused(w: Writer, c: Coord, tags: Option<FeatureTags>, firstRef: Option<string>,
                         lastRef: Option<string>)
    requires KeyFor(c, tags) in w.nodes
    ensures BuildGeom(w, Point(c), tags, firstRef, lastRef, true) == Ok((w, [w.nodes[KeyFor(c, tags)]]))
  {
  }

  // ---------------------------------------------------------------------------
  // The relation's `type` tag

  /** A key no applicable tag carries makes no difference to what is written. */
  lemma {:induction false} UnusedKeyIgnored(specs: seq<TagSpec>, t: ObjectType, seen: set<string>, x: string)
    requires forall i :: 0 <= i < |specs| && Applies(specs[i], t) ==> specs[i].key != x
    ensures BuildTagsFrom(specs, t, seen + {x}) == BuildTagsFrom(specs, t, seen)
    decreases |specs|
  {
    if |specs| > 0 {
      var s := specs[0];
      assert forall i :: 0 <= i < |specs| - 1 ==> specs[1..][i] == specs[i + 1];
      if Applies(s, t) && s.key !in seen {
        UnusedKeyIgnored(specs[1..], t, seen + {s.key}, x);
        assert seen + {x} + {s.key} == seen + {s.key} + {x};
      } else {
        UnusedKeyIgnored(specs[1..], t, seen, x);
      }
    }
  }

  /** Keys counted as written can only remove failures. */
  lemma {:induction false} MoreSeenStillOk(specs: seq<TagSpec>, t: ObjectType, seen: set<string>, extra: set<string>)
    requires BuildTagsFrom(specs, t, seen).Ok?
    ensures BuildTagsFrom(specs, t, seen + extra).Ok?
    decreases |specs|
  {
    if |specs| > 0 {
      var s := specs[0];
      if Applies(s, t) && s.key !in seen {
        MoreSeenStillOk(specs[1..], t, seen + {s.key}, extra);
        if s.key in extra {
          assert seen + {s.key} + extra == seen + extra;
        } else {
          assert seen + {s.key} + extra == seen + extra + {s.key};
        }
      } else {
        MoreSeenStillOk(specs[1..], t, seen, extra);
      }
    }
  }

  /** Where no tag for relations is called `type`, counting `type` as written
      changes nothing: the relation's tags are as written. */
  lemma RelationTagsAgree(tags: Option<FeatureTags>)
    requires tags.Some? ==> forall i :: 0 <= i < |tags.value.specs| && Applies(tags.value.specs[i], RelationObject) ==>
                              tags.value.specs[i].key != "type"
    ensures RelationTagsCorrected(tags) == RelationTags(tags)
  {
    if Truthy(tags) {
      UnusedKeyIgnored(tags.value.specs, RelationObject, {}, "type");
      assert {} + {"type"} == {"type"};
    }
  }

  /** Counting `type` as written fails only where the tags as written fail. */
  lemma RelationTagsCorrectedOk(tags: Option<FeatureTags>)
    ensures RelationTags(tags).Ok? ==> RelationTagsCorrected(tags).Ok?
  {
    if Truthy(tags) && RelationTags(tags).Ok? {
      MoreSeenStillOk(tags.value.specs, RelationObject, {}, {"type"});
      assert {} + {"type"} == {"type"};
    }
  }

  /** As written, a feature tag `type` for relations is written after
      `type=multipolygon`: the relation carries the key twice. */
  lemma RelationTypeTwice(n: nat, v: string)
    requires |v| <= MaxTagLength
    ensures RelationTags(Some(FeatureTags(n, [TagSpec("type", v, {RelationObject})])))
            == Ok([MultipolygonTag, Tag("type", v)])
  {
    var specs := [TagSpec("type", v, {RelationObject})];
    assert Applies(specs[0], RelationObject) && |specs[0].key| <= MaxTagLength;
    assert BuildTagsFrom(specs[1..], RelationObject, {} + {"type"}) == Ok([]);
    assert [Tag("type", v)] + [] == [Tag("type", v)];
    assert BuildTagsFrom(specs, RelationObject, {}) == Ok([Tag("type", v)]);
    assert BuildTags(Some(specs), RelationObject) == Ok([Tag("type", v)]);
    assert [MultipolygonTag] + [Tag("type", v)] == [MultipolygonTag, Tag("type", v)];
  }

  /** Corrected, the same feature's relation carries `type=multipolygon`
      alone. */
  lemma RelationTypeOnce(n: nat, v: string)
    ensures RelationTagsCorrected(Some(FeatureTags(n, [TagSpec("type", v, {RelationObject})]))) == Ok([MultipolygonTag])
  {
    var specs := [TagSpec("type", v, {RelationObject})];
    assert specs[0].key in {"type"};
    assert BuildTagsFrom(specs[1..], RelationObject, {"type"}) == Ok([]);
    assert BuildTagsFrom(specs, RelationObject, {"type"}) == Ok([]);
    assert [MultipolygonTag] + [] == [MultipolygonTag];
  }

  // ---------------------------------------------------------------------------
  // When the export succeeds

  /** Every tag list the feature can need is within the length limits. */
  predicate TagsWithinLimits(tags: Option<FeatureTags>) {
    forall t :: BuildTags(SpecsOf(tags), t).Ok?
  }

  lemma RingWayOk(w: Writer, ring: seq<Coord>, i: nat, tags: Option<FeatureTags>)
    requires TagsWithinLimits(tags)
    ensures BuildWay(w, ring, RingTags(tags, i), false, None, None).Ok?
  {
    assert BuildTags(SpecsOf(RingTags(tags, i)), GeometryObject).Ok?;
    BuildWayShape(w, ring, RingTags(tags, i), false, None, None);
  }

  lemma RingMembersOkStep(w: Writer, rings: seq<seq<Coord>>, i: nat, tags: Option<FeatureTags>)
    requires i < |rings|
    requires BuildWay(w, rings[i], RingTags(tags, i), false, None, None).Ok?
    requires RingMembers(BuildWay(w, rings[i], RingTags(tags, i), false, None, None).value.0, rings, i + 1, tags).Ok?
    ensures RingMembers(w, rings, i, tags).Ok?
  {
  }

  lemma {:induction false} RingMembersOk(w: Writer, rings: seq<seq<Coord>>, i: nat, tags: Option<FeatureTags>)
    requires i <= |rings| && TagsWithinLimits(tags)
    ensures RingMembers(w, rings, i, tags).Ok?
    decreases |rings| - i
  {
    if i < |rings| {
      RingWayOk(w, rings[i], i, tags);
      RingMembersOk(BuildWay(w, rings[i], RingTags(tags, i), false, None, None).value.0, rings, i + 1, tags);
      RingMembersOkStep(w, rings, i, tags);
    }
  }

  lemma PolygonMembersOkStep(w: Writer, polys: seq<seq<seq<Coord>>>, j: nat, tags: Option<FeatureTags>)
    requires j < |polys|
    requires RingMembers(w, polys[j], 0, tags).Ok?
    requires PolygonMembers(RingMembers(w, polys[j], 0, tags).value.0, polys, j + 1, tags).Ok?
    ensures PolygonMembers(w, polys, j, tags).Ok?
  {
  }

  lemma {:induction false} PolygonMembersOk(w: Writer, polys: seq<seq<seq<Coord>>>, j: nat, tags: Option<FeatureTags>)
    requires j <= |polys| && TagsWithinLimits(tags)
    ensures PolygonMembers(w, polys, j, tags).Ok?
    decreases |polys| - j
  {
    if j < |polys| {
      RingMembersOk(w, polys[j], 0, tags);
      PolygonMembersOk(RingMembers(w, polys[j], 0, tags).value.0, polys, j + 1, tags);
      PolygonMembersOkStep(w, polys, j, tags);
    }
  }

  lemma BuildPolygonOk(w: Writer, g: Geom, tags: Option<FeatureTags>)
    requires Polygonal(g) && TagsWithinLimits(tags)
    ensures BuildPolygon(w, g, tags).Ok?
  {
    assert RelationTags(tags).Ok?;
    PolygonMembersOk(NextId(w).1, PolygonsOf(g), 0, tags);
  }

  lemma LineOk(w: Writer, coords: seq<Coord>, tags: Option<FeatureTags>, firstRef: Option<string>,
               lastRef: Option<string>)
    requires TagsWithinLimits(tags)
    ensures BuildWay(w, coords, tags, true, firstRef, lastRef).Ok?
  {
    assert BuildTags(SpecsOf(tags), GeometryObject).Ok?;
    assert BuildTags(SpecsOf(tags), FirstNode).Ok? && BuildTags(SpecsOf(tags), LastNode).Ok?;
    BuildWayShape(w, coords, tags, true, firstRef, lastRef);
  }

  /** A feature whose tag lists are all within the length limits is always
      exported, whatever its geometry. */
  lemma {:induction false} BuildGeomOk(w: Writer, g: Geom, tags: Option<FeatureTags>, firstRef: Option<string>,
                                       lastRef: Option<string>, inner: bool)
    requires WellFormed(g) && TagsWithinLimits(tags)
    ensures BuildGeom(w, g, tags, firstRef, lastRef, inner).Ok?
    decreases g, 1
  {
    match g
    case Polygon(rings) =>
      if |rings| == 1 && |rings[0]| <= WaySplitSize {
        RingWayOk(w, rings[0], 0, tags);
      } else {
        BuildPolygonOk(w, g, tags);
      }
    case Collection(kind, parts) =>
      if kind == MultiPolygon {
        BuildPolygonOk(w, g, tags);
      } else {
        BuildPartsOk(w, g, 0, tags, firstRef, lastRef);
      }
    case Point(c) =>
      assert BuildTags(SpecsOf(tags), GeometryObject).Ok?;
    case LineString(coords) =>
      LineOk(w, coords, tags, firstRef, lastRef);
  }

  lemma {:induction false} BuildPartsOk(w: Writer, g: Geom, i: nat, tags: Option<FeatureTags>,
                                        firstRef: Option<string>, lastRef: Option<string>)
    requires g.Collection? && WellFormed(g) && i <= |g.parts| && TagsWithinLimits(tags)
    ensures BuildParts(w, g, i, tags, firstRef, lastRef).Ok?
    decreases g, 0, |g.parts| - i
  {
    if i < |g.parts| {
      BuildGeomOk(w, g.parts[i], tags, firstRef, lastRef, true);
      var p := BuildGeom(w, g.parts[i], tags, firstRef, lastRef, true).value;
      BuildPartsOk(p.0, g, i + 1, tags, firstRef, lastRef);
    }
  }
}
