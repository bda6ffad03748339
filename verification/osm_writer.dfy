/** The element-building part of `OSMWriter` (linz2osm/convert/osm.py): id
    allocation, the node cache, end nodes linked to existing OSM nodes, and
    the ways a line is cut into. The writer is a value; every operation
    returns the next writer, or the tag error that aborts the export. */
module OsmWriter {
  import opened Wrappers
  import opened Geometry
  import opened OsmTags
  import opened WaySplit

  datatype Role = Outer | Inner

  datatype Member = Member(ref: int, role: Role)

  /** An element of the `<create>` block. Ids are the integers whose decimal
      text the XML carries. */
  datatype Element =
    | Node(id: int, at: Coord, tags: seq<Tag>)
    | Way(id: int, refs: seq<int>, tags: seq<Tag>)
    | Relation(id: int, members: seq<Member>, tags: seq<Tag>)

  /** A feature's tag list; `identity` stands for the list's object identity
      (`id(tags)`), which the node cache keys on. */
  datatype FeatureTags = FeatureTags(identity: nat, specs: seq<TagSpec>)

  /** The node cache key: the coordinate and the identity of a non-empty tag
      list. */
  datatype NodeKey = NodeKey(x: real, y: real, tagsIdentity: Option<nat>)

  datatype Writer = Writer(
    start: int,                          // the id the writer was created with
    lastId: int,                         // `_id`: the last id handed out
    nodes: map<NodeKey, int>,            // `_nodes`
    osmNodes: map<Option<string>, int>,  // `_osm_nodes`: end-node reference -> node id
    created: seq<Element>)               // the children of `<create>`, in order

  /** `OSMWriter(id_hash, osm_nodes=...)`: ids start at 0 without a hash, and
      at minus the value of the hash's first six hex digits with one. */
  function NewWriter(hashPrefix: Option<nat>, osmNodes: map<Option<string>, int>): (w: Writer)
    ensures Fresh(w) && w.created == [] && w.nodes == map[]
    ensures hashPrefix.None? ==> w.lastId == 0
  {
    var start: int := if hashPrefix.None? then 0 else 0 - hashPrefix.value as int;
    Writer(start, start, map[], osmNodes, [])
  }

  /** `next_id`: decrement, then hand out. */
  function NextId(w: Writer): (r: (int, Writer))
    ensures r.0 < w.lastId && r.1.lastId == r.0
    ensures r.1.created == w.created && r.1.nodes == w.nodes && r.1.osmNodes == w.osmNodes
    ensures r.1.start == w.start
  {
    var id := w.lastId - 1;
    (id, w.(lastId := id))
  }

  /** Every id written so far is negative, below the start, not below the
      last one handed out, and used once; so is every cached node id. */
  predicate Fresh(w: Writer) {
    w.lastId <= w.start <= 0
    && (forall k :: 0 <= k < |w.created| ==> w.lastId <= w.created[k].id < w.start)
    && (forall a, b :: 0 <= a < b < |w.created| ==> w.created[a].id != w.created[b].id)
    && (forall key :: key in w.nodes ==> w.lastId <= w.nodes[key] < w.start)
  }

  predicate RefTruthy(r: Option<string>) {
    r.Some? && r.value != ""
  }

  /** `v` is `w` after more work: elements only appended, with fresh distinct
      ids; cached nodes and linked end nodes kept. */
  predicate Extends(w: Writer, v: Writer) {
    v.start == w.start && v.lastId <= w.lastId
    && |w.created| <= |v.created| && v.created[..|w.created|] == w.created
    && (forall k :: |w.created| <= k < |v.created| ==> v.lastId <= v.created[k].id < w.lastId)
    && (forall a, b :: |w.created| <= a < b < |v.created| ==> v.created[a].id != v.created[b].id)
    && (forall key :: key in w.nodes ==> key in v.nodes && v.nodes[key] == w.nodes[key])
    && (forall key :: key in v.nodes ==> key in w.nodes || v.lastId <= v.nodes[key] < w.lastId)
    && (forall r :: RefTruthy(r) && r in w.osmNodes ==> r in v.osmNodes && v.osmNodes[r] == w.osmNodes[r])
  }

  lemma ExtendsRefl(w: Writer)
    ensures Extends(w, w)
  {
    assert w.created[..|w.created|] == w.created;
  }

  lemma ExtendsTrans(a: Writer, b: Writer, c: Writer)
    requires Extends(a, b) && Extends(b, c)
    ensures Extends(a, c)
  {
    assert c.created[..|a.created|] == c.created[..|b.created|][..|a.created|];
    forall k | |a.created| <= k < |c.created|
      ensures c.lastId <= c.created[k].id < a.lastId
    {
      if k < |b.created| { assert c.created[k] == b.created[k]; }
    }
    forall x, y | |a.created| <= x < y < |c.created|
      ensures c.created[x].id != c.created[y].id
    {
      if y < |b.created| {
        assert c.created[x] == b.created[x] && c.created[y] == b.created[y];
      } else if x < |b.created| {
        assert c.created[x] == b.created[x];
      }
    }
  }

  /** Work that began by taking an id and ended by appending an element with
      that id extends the writer it started from. */
  lemma ExtendsAppend(w: Writer, v: Writer, e: Element)
    requires Extends(NextId(w).1, v) && e.id == NextId(w).0
    ensures Extends(w, v.(created := v.created + [e]))
  {
    var w1 := NextId(w).1;
    var u := v.(created := v.created + [e]);
    assert u.created[..|v.created|] == v.created;
    assert u.created[..|w.created|] == v.created[..|w1.created|];
    forall k | |w.created| <= k < |u.created|
      ensures u.lastId <= u.created[k].id < w.lastId
    {
      if k < |v.created| { assert u.created[k] == v.created[k]; }
    }
    forall x, y | |w.created| <= x < y < |u.created|
      ensures u.created[x].id != u.created[y].id
    {
      assert u.created[x] == v.created[x];
      if y < |v.created| { assert u.created[y] == v.created[y]; }
    }
  }

  /** Extending keeps every id fresh: ids stay negative and unique. */
  lemma FreshExtends(w: Writer, v: Writer)
    requires Fresh(w) && Extends(w, v)
    ensures Fresh(v)
  {
    forall k | 0 <= k < |w.created| ensures v.created[k] == w.created[k] {
      assert v.created[..|w.created|][k] == v.created[k];
    }
  }

  /** Ids come out strictly decreasing: with no hash the first is -1, and with
      any hash every id is negative. */
  lemma FirstIds(hashPrefix: Option<nat>, osmNodes: map<Option<string>, int>)
    ensures var w := NewWriter(hashPrefix, osmNodes);
      NextId(w).0 < 0 && NextId(NextId(w).1).0 < NextId(w).0
      && (hashPrefix.None? ==> NextId(w).0 == -1)
  {
  }

  // ---------------------------------------------------------------------------
  // Nodes

  predicate Truthy(tags: Option<FeatureTags>) {
    tags.Some? && |tags.value.specs| > 0
  }

  function KeyFor(c: Coord, tags: Option<FeatureTags>): NodeKey {
    NodeKey(c.x, c.y, if Truthy(tags) then Some(tags.value.identity) else None)
  }

  function SpecsOf(tags: Option<FeatureTags>): Option<seq<TagSpec>> {
    if tags.None? then None else Some(tags.value.specs)
  }

  /** `_node(coords, tags, map_node, object_type)`: with `map_node` a node
      already made for the same coordinate and tag list is reused; otherwise a
      new node is written (and cached when `map_node`). */
  function MakeNode(w: Writer, c: Coord, tags: Option<FeatureTags>, mapNode: bool, t: ObjectType)
    : (r: Result<(Writer, int), TagError>)
    ensures r.Ok? ==> Extends(w, r.value.0) && r.value.0.osmNodes == w.osmNodes
    ensures mapNode && KeyFor(c, tags) in w.nodes ==> r == Ok((w, w.nodes[KeyFor(c, tags)]))
    ensures r.Ok? && mapNode ==>
      KeyFor(c, tags) in r.value.0.nodes && r.value.0.nodes[KeyFor(c, tags)] == r.value.1
    ensures r.Ok? && !(mapNode && KeyFor(c, tags) in w.nodes) ==>
      r.value.1 == w.lastId - 1 && BuildTags(SpecsOf(tags), t).Ok?
      && r.value.0.created == w.created + [Node(r.value.1, c, BuildTags(SpecsOf(tags), t).value)]
    ensures r.Err? <==> !(mapNode && KeyFor(c, tags) in w.nodes) && BuildTags(SpecsOf(tags), t).Err?
  {
    var key := KeyFor(c, tags);
    if mapNode && key in w.nodes then
      ExtendsRefl(w);
      Ok((w, w.nodes[key]))
    else
      var (id, w1) := NextId(w);
      var nodeTags :- BuildTags(SpecsOf(tags), t);
      var w2 := w1.(created := w1.created + [Node(id, c, nodeTags)]);
      var w3 := if mapNode then w2.(nodes := w2.nodes[key := id]) else w2;
      assert w3.created[..|w.created|] == w.created;
      Ok((w3, id))
  }

  /** The end-node branch of `build_way`: a truthy reference already linked to
      a node gives that node; otherwise a node is made (tagged for the first or
      last end) and linked under the reference. */
  function EndNode(w: Writer, c: Coord, tags: Option<FeatureTags>, t: ObjectType, nodeRef: Option<string>)
    : (r: Result<(Writer, int), TagError>)
    ensures r.Ok? ==> Extends(w, r.value.0)
    ensures RefTruthy(nodeRef) && nodeRef in w.osmNodes ==> r == Ok((w, w.osmNodes[nodeRef]))
    ensures r.Ok? ==> nodeRef in r.value.0.osmNodes && r.value.0.osmNodes[nodeRef] == r.value.1
    ensures r.Ok? ==> forall x :: x in r.value.0.osmNodes ==> x in w.osmNodes || x == nodeRef
    ensures r.Err? ==> BuildTags(SpecsOf(tags), t).Err?
    ensures r.Ok? && !(RefTruthy(nodeRef) && nodeRef in w.osmNodes) ==>
      MakeNode(w, c, tags, true, t).Ok? && r.value.1 == MakeNode(w, c, tags, true, t).value.1
  {
    if RefTruthy(nodeRef) && nodeRef in w.osmNodes then
      ExtendsRefl(w);
      Ok((w, w.osmNodes[nodeRef]))
    else
      var made :- MakeNode(w, c, tags, true, t);
      var w1 := made.0.(osmNodes := made.0.osmNodes[nodeRef := made.1]);
      assert w1.created[..|w.created|] == made.0.created[..|w.created|];
      Ok((w1, made.1))
  }

  /** Which end node, if any, coordinate `i` of an `n`-coordinate way is:
      the last-node mark is applied after the first-node one and wins. */
  function EndKind(i: nat, n: nat, markFirst: bool, markLast: bool): Option<ObjectType> {
    if markLast && i == n - 1 then Some(LastNode)
    else if markFirst && i == 0 then Some(FirstNode)
    else None
  }

  function RefFor(t: ObjectType, firstRef: Option<string>, lastRef: Option<string>): Option<string> {
    if t == FirstNode then firstRef else lastRef
  }

  /** The node one coordinate of a way refers to: an end node when marked,
      otherwise the untagged cached node. */
  function NodeStep(w: Writer, c: Coord, kind: Option<ObjectType>, tags: Option<FeatureTags>,
                    firstRef: Option<string>, lastRef: Option<string>): (r: Result<(Writer, int), TagError>)
    ensures r.Ok? ==> Extends(w, r.value.0)
    ensures r.Ok? && kind.None? ==>
      KeyFor(c, None) in r.value.0.nodes && r.value.0.nodes[KeyFor(c, None)] == r.value.1
    ensures r.Ok? && kind.Some? ==>
      RefFor(kind.value, firstRef, lastRef) in r.value.0.osmNodes
      && r.value.0.osmNodes[RefFor(kind.value, firstRef, lastRef)] == r.value.1
    ensures r.Ok? ==> forall x :: x in r.value.0.osmNodes ==>
      x in w.osmNodes || (kind.Some? && x == RefFor(kind.value, firstRef, lastRef))
  {
    if kind.Some? then EndNode(w, c, tags, kind.value, RefFor(kind.value, firstRef, lastRef))
    else MakeNode(w, c, None, true, GeometryObject)
  }

  /** The end-node tags a way's marked ends need are within the limits. */
  predicate EndTagsOk(tags: Option<FeatureTags>, markFirst: bool, markLast: bool) {
    (markFirst ==> BuildTags(SpecsOf(tags), FirstNode).Ok?)
    && (markLast ==> BuildTags(SpecsOf(tags), LastNode).Ok?)
  }

  /** Only an end node's own tags can make it fail. */
  lemma NodeStepOk(w: Writer, c: Coord, i: nat, n: nat, markFirst: bool, markLast: bool,
                   tags: Option<FeatureTags>, firstRef: Option<string>, lastRef: Option<string>)
    requires EndTagsOk(tags, markFirst, markLast)
    ensures NodeStep(w, c, EndKind(i, n, markFirst, markLast), tags, firstRef, lastRef).Ok?
  {
  }

  /** The `<nd>` references of one way, coordinate `i` onward: end nodes where
      marked, otherwise untagged cached nodes. */
  function ChunkNodes(w: Writer, cur: seq<Coord>, i: nat, tags: Option<FeatureTags>, markFirst: bool,
                      markLast: bool, firstRef: Option<string>, lastRef: Option<string>)
    : (r: Result<(Writer, seq<int>), TagError>)
    requires i <= |cur|
    ensures r.Ok? ==> Extends(w, r.value.0) && |r.value.1| == |cur| - i
    decreases |cur| - i
  {
    if i == |cur| then
      ExtendsRefl(w);
      Ok((w, []))
    else
      var kind := EndKind(i, |cur|, markFirst, markLast);
      var m := NodeStep(w, cur[i], kind, tags, firstRef, lastRef);
      if m.Err? then Err(m.error)
      else
        var rest := ChunkNodes(m.value.0, cur, i + 1, tags, markFirst, markLast, firstRef, lastRef);
        if rest.Err? then Err(rest.error)
        else
          ExtendsTrans(w, m.value.0, rest.value.0);
          Ok((rest.value.0, [m.value.1] + rest.value.1))
  }

  /** From coordinate `i` on, every unmarked coordinate's reference is the
      node cached in `nodes` for that coordinate without tags. */
  predicate PlainCached(nodes: map<NodeKey, int>, cur: seq<Coord>, refs: seq<int>, i: nat,
                        markFirst: bool, markLast: bool)
    decreases |cur| - i
  {
    i <= |cur| && |refs| == |cur| - i
    && (i < |cur| ==>
          (EndKind(i, |cur|, markFirst, markLast).None? ==>
             KeyFor(cur[i], None) in nodes && nodes[KeyFor(cur[i], None)] == refs[0])
          && PlainCached(nodes, cur, refs[1..], i + 1, markFirst, markLast))
  }

  /** One step of `ChunkNodes`: the reference of coordinate `i` followed by
      the rest. */
  lemma ChunkNodesStep(w: Writer, cur: seq<Coord>, i: nat, tags: Option<FeatureTags>,
                       markFirst: bool, markLast: bool, firstRef: Option<string>, lastRef: Option<string>)
    requires i < |cur|
    ensures var m := NodeStep(w, cur[i], EndKind(i, |cur|, markFirst, markLast), tags, firstRef, lastRef);
      m.Ok? && ChunkNodes(m.value.0, cur, i + 1, tags, markFirst, markLast, firstRef, lastRef).Ok? ==>
        var rest := ChunkNodes(m.value.0, cur, i + 1, tags, markFirst, markLast, firstRef, lastRef).value;
        ChunkNodes(w, cur, i, tags, markFirst, markLast, firstRef, lastRef) == Ok((rest.0, [m.value.1] + rest.1))
    ensures ChunkNodes(w, cur, i, tags, markFirst, markLast, firstRef, lastRef).Ok? ==>
      var m := NodeStep(w, cur[i], EndKind(i, |cur|, markFirst, markLast), tags, firstRef, lastRef);
      m.Ok? && ChunkNodes(m.value.0, cur, i + 1, tags, markFirst, markLast, firstRef, lastRef).Ok?
  {
  }

  /** Unmarked coordinates get the untagged node cached for their coordinate,
      so a coordinate met twice is one node. */
  lemma {:induction false} ChunkNodesPlain(w: Writer, cur: seq<Coord>, i: nat, tags: Option<FeatureTags>,
                                           markFirst: bool, markLast: bool,
                                           firstRef: Option<string>, lastRef: Option<string>)
    requires i <= |cur|
    requires ChunkNodes(w, cur, i, tags, markFirst, markLast, firstRef, lastRef).Ok?
    ensures var r := ChunkNodes(w, cur, i, tags, markFirst, markLast, firstRef, lastRef).value;
      PlainCached(r.0.nodes, cur, r.1, i, markFirst, markLast)
    decreases |cur| - i
  {
    if i < |cur| {
      var m := NodeStep(w, cur[i], EndKind(i, |cur|, markFirst, markLast), tags, firstRef, lastRef);
      ChunkNodesStep(w, cur, i, tags, markFirst, markLast, firstRef, lastRef);
      var rest := ChunkNodes(m.value.0, cur, i + 1, tags, markFirst, markLast, firstRef, lastRef);
      ChunkNodesPlain(m.value.0, cur, i + 1, tags, markFirst, markLast, firstRef, lastRef);
      PlainCachedCons(m.value.0, rest.value.0, cur, i, m.value.1, rest.value.1, markFirst, markLast);
    }
  }

  lemma PlainCachedCons(v: Writer, x: Writer, cur: seq<Coord>, i: nat, id: int, refs: seq<int>,
                        markFirst: bool, markLast: bool)
    requires i < |cur| && Extends(v, x)
    requires EndKind(i, |cur|, markFirst, markLast).None? ==>
      KeyFor(cur[i], None) in v.nodes && v.nodes[KeyFor(cur[i], None)] == id
    requires PlainCached(x.nodes, cur, refs, i + 1, markFirst, markLast)
    ensures PlainCached(x.nodes, cur, [id] + refs, i, markFirst, markLast)
  {
    assert ([id] + refs)[1..] == refs;
  }

  /** Indexed form: the reference of unmarked coordinate `k` is the cached node. */
  lemma {:induction false} PlainCachedAt(nodes: map<NodeKey, int>, cur: seq<Coord>, refs: seq<int>, i: nat,
                                         markFirst: bool, markLast: bool, k: nat)
    requires PlainCached(nodes, cur, refs, i, markFirst, markLast)
    requires i <= k < |cur| && EndKind(k, |cur|, markFirst, markLast).None?
    ensures KeyFor(cur[k], None) in nodes && nodes[KeyFor(cur[k], None)] == refs[k - i]
    decreases k - i
  {
    if k > i {
      PlainCachedAt(nodes, cur, refs[1..], i + 1, markFirst, markLast, k);
    }
  }

  /** Only an end node's tags can make a way's nodes fail. */
  lemma {:induction false} ChunkNodesOk(w: Writer, cur: seq<Coord>, i: nat, tags: Option<FeatureTags>,
                                        markFirst: bool, markLast: bool,
                                        firstRef: Option<string>, lastRef: Option<string>)
    requires i <= |cur|
    requires EndTagsOk(tags, markFirst, markLast)
    ensures ChunkNodes(w, cur, i, tags, markFirst, markLast, firstRef, lastRef).Ok?
    decreases |cur| - i
  {
    if i < |cur| {
      var m := NodeStep(w, cur[i], EndKind(i, |cur|, markFirst, markLast), tags, firstRef, lastRef);
      NodeStepOk(w, cur[i], i, |cur|, markFirst, markLast, tags, firstRef, lastRef);
      ChunkNodesOk(m.value.0, cur, i + 1, tags, markFirst, markLast, firstRef, lastRef);
      ChunkNodesStep(w, cur, i, tags, markFirst, markLast, firstRef, lastRef);
    }
  }

  /** Only the marked ends' references become linked. */
  predicate LinksOnlyEnds(w: Writer, v: Writer, markFirst: bool, markLast: bool,
                          firstRef: Option<string>, lastRef: Option<string>) {
    forall x :: x in v.osmNodes ==> x in w.osmNodes || (markFirst && x == firstRef) || (markLast && x == lastRef)
  }

  lemma {:induction false} ChunkNodesLinks(w: Writer, cur: seq<Coord>, i: nat, tags: Option<FeatureTags>,
                                           markFirst: bool, markLast: bool,
                                           firstRef: Option<string>, lastRef: Option<string>)
    requires i <= |cur|
    requires ChunkNodes(w, cur, i, tags, markFirst, markLast, firstRef, lastRef).Ok?
    ensures LinksOnlyEnds(w, ChunkNodes(w, cur, i, tags, markFirst, markLast, firstRef, lastRef).value.0,
                          markFirst, markLast, firstRef, lastRef)
    decreases |cur| - i
  {
    if i < |cur| {
      var m := NodeStep(w, cur[i], EndKind(i, |cur|, markFirst, markLast), tags, firstRef, lastRef);
      ChunkNodesStep(w, cur, i, tags, markFirst, markLast, firstRef, lastRef);
      ChunkNodesLinks(m.value.0, cur, i + 1, tags, markFirst, markLast, firstRef, lastRef);
      EndKindLinks(w, m.value.0, i, |cur|, markFirst, markLast, firstRef, lastRef);
      LinksOnlyEndsTrans(w, m.value.0, ChunkNodes(m.value.0, cur, i + 1, tags, markFirst, markLast, firstRef, lastRef).value.0,
                         markFirst, markLast, firstRef, lastRef);
    }
  }

  lemma LinksOnlyEndsTrans(u: Writer, v: Writer, x: Writer, markFirst: bool, markLast: bool,
                           firstRef: Option<string>, lastRef: Option<string>)
    requires LinksOnlyEnds(u, v, markFirst, markLast, firstRef, lastRef)
    requires LinksOnlyEnds(v, x, markFirst, markLast, firstRef, lastRef)
    ensures LinksOnlyEnds(u, x, markFirst, markLast, firstRef, lastRef)
  {
  }

  lemma EndKindLinks(w: Writer, v: Writer, i: nat, n: nat, markFirst: bool, markLast: bool,
                     firstRef: Option<string>, lastRef: Option<string>)
    requires var kind := EndKind(i, n, markFirst, markLast);
      forall x :: x in v.osmNodes ==> x in w.osmNodes || (kind.Some? && x == RefFor(kind.value, firstRef, lastRef))
    ensures LinksOnlyEnds(w, v, markFirst, markLast, firstRef, lastRef)
  {
  }

  /** The last of `refs` is the node linked under `lastRef`. */
  predicate LinkedLast(v: Writer, refs: seq<int>, lastRef: Option<string>) {
    |refs| >= 1 && lastRef in v.osmNodes && v.osmNodes[lastRef] == refs[|refs| - 1]
  }

  lemma LinkedLastCons(v: Writer, id: int, refs: seq<int>, lastRef: Option<string>)
    requires LinkedLast(v, refs, lastRef)
    ensures LinkedLast(v, [id] + refs, lastRef)
  {
    assert ([id] + refs)[|refs|] == refs[|refs| - 1];
  }

  /** A marked last coordinate is linked under the last-node reference. */
  lemma {:induction false} ChunkNodesLastLinked(w: Writer, cur: seq<Coord>, i: nat, tags: Option<FeatureTags>,
                                                markFirst: bool, firstRef: Option<string>, lastRef: Option<string>)
    requires i < |cur|
    requires ChunkNodes(w, cur, i, tags, markFirst, true, firstRef, lastRef).Ok?
    ensures var r := ChunkNodes(w, cur, i, tags, markFirst, true, firstRef, lastRef).value;
      LinkedLast(r.0, r.1, lastRef)
    decreases |cur| - i
  {
    var m := NodeStep(w, cur[i], EndKind(i, |cur|, markFirst, true), tags, firstRef, lastRef);
    ChunkNodesStep(w, cur, i, tags, markFirst, true, firstRef, lastRef);
    var rest := ChunkNodes(m.value.0, cur, i + 1, tags, markFirst, true, firstRef, lastRef);
    if i + 1 < |cur| {
      ChunkNodesLastLinked(m.value.0, cur, i + 1, tags, markFirst, firstRef, lastRef);
      LinkedLastCons(rest.value.0, m.value.1, rest.value.1, lastRef);
    }
  }

  // ---------------------------------------------------------------------------
  // Ways

  /** Whether the pass that leaves `rest` marks its last coordinate as the
      line's last node: as written, only when nothing remains; corrected,
      whenever the loop is about to stop. */
  function MarksEnd(rest: nat, fixedEnd: bool): bool {
    if fixedEnd then rest < 2 else rest == 0
  }

  lemma ChunksStep<T>(rem: seq<T>, size: nat)
    requires size >= 2
    ensures |Rest(rem, size)| < 2 ==> Chunks(rem, size) == [Take(rem, size)]
    ensures |Rest(rem, size)| >= 2 ==> Chunks(rem, size) == [Take(rem, size)] + Chunks(Rest(rem, size), size)
  {
  }

  /** The node references of one pass over `rem`, after the way's id was
      taken; `first` holds on the line's first pass. */
  function PassNodes(w: Writer, rem: seq<Coord>, tags: Option<FeatureTags>, atEnds: bool,
                     firstRef: Option<string>, lastRef: Option<string>, first: bool, fixedEnd: bool, size: nat)
    : Result<(Writer, seq<int>), TagError>
    requires size >= 2
  {
    ChunkNodes(w.(lastId := w.lastId - 1), Take(rem, size), 0, tags, atEnds && first,
               atEnds && MarksEnd(|Rest(rem, size)|, fixedEnd), firstRef, lastRef)
  }

  /** One pass of `build_way`'s loop: the way's id is taken before its
      nodes', the nodes are written, then the way with the feature's
      geometry tags. */
  function Pass(w: Writer, rem: seq<Coord>, tags: Option<FeatureTags>, atEnds: bool,
                firstRef: Option<string>, lastRef: Option<string>, first: bool, fixedEnd: bool, size: nat)
    : (r: Result<(Writer, Element), TagError>)
    requires size >= 2
    ensures r.Ok? ==> Extends(w, r.value.0) && |r.value.0.created| >= 1
                      && r.value.0.created[|r.value.0.created| - 1] == r.value.1
    ensures r.Ok? ==> r.value.1.Way? && r.value.1.id == w.lastId - 1 && |r.value.1.refs| == |Take(rem, size)|
                      && BuildTags(SpecsOf(tags), GeometryObject) == Ok(r.value.1.tags)
    ensures BuildTags(SpecsOf(tags), GeometryObject).Err? ==> r.Err?
  {
    var p := PassNodes(w, rem, tags, atEnds, firstRef, lastRef, first, fixedEnd, size);
    var wayTags := BuildTags(SpecsOf(tags), GeometryObject);
    if p.Err? then Err(p.error)
    else if wayTags.Err? then Err(wayTags.error)
    else
      var way := Way(w.lastId - 1, p.value.1, wayTags.value);
      ExtendsAppend(w, p.value.0, way);
      Ok((p.value.0.(created := p.value.0.created + [way]), way))
  }

  /** The loop of `build_way` from the remaining coordinates `rem`. */
  function WayLoop(w: Writer, rem: seq<Coord>, tags: Option<FeatureTags>, atEnds: bool,
                   firstRef: Option<string>, lastRef: Option<string>, first: bool, fixedEnd: bool, size: nat)
    : (r: Result<(Writer, seq<Element>), TagError>)
    requires size >= 2
    ensures r.Ok? ==> Extends(w, r.value.0)
    ensures r.Ok? ==> |r.value.1| == |Chunks(rem, size)| && r.value.1[0].id == w.lastId - 1
    ensures BuildTags(SpecsOf(tags), GeometryObject).Err? ==> r.Err?
    decreases |rem|
  {
    var p := Pass(w, rem, tags, atEnds, firstRef, lastRef, first, fixedEnd, size);
    if p.Err? then Err(p.error)
    else
      ChunksStep(rem, size);
      if |Rest(rem, size)| < 2 then Ok((p.value.0, [p.value.1]))
      else
        var q := WayLoop(p.value.0, Rest(rem, size), tags, atEnds, firstRef, lastRef, false, fixedEnd, size);
        if q.Err? then Err(q.error)
        else
          ExtendsTrans(w, p.value.0, q.value.0);
          Ok((q.value.0, [p.value.1] + q.value.1))
  }

  /** One step of the loop, for the proofs below. */
  lemma WayLoopStep(w: Writer, rem: seq<Coord>, tags: Option<FeatureTags>, atEnds: bool,
                    firstRef: Option<string>, lastRef: Option<string>, first: bool, fixedEnd: bool, size: nat)
    requires size >= 2
    requires WayLoop(w, rem, tags, atEnds, firstRef, lastRef, first, fixedEnd, size).Ok?
    ensures var p := Pass(w, rem, tags, atEnds, firstRef, lastRef, first, fixedEnd, size);
      var r := WayLoop(w, rem, tags, atEnds, firstRef, lastRef, first, fixedEnd, size).value;
      p.Ok?
      && (|Rest(rem, size)| < 2 ==> r == (p.value.0, [p.value.1]))
      && (|Rest(rem, size)| >= 2 ==>
            var q := WayLoop(p.value.0, Rest(rem, size), tags, atEnds, firstRef, lastRef, false, fixedEnd, size);
            q.Ok? && r == (q.value.0, [p.value.1] + q.value.1))
  {
  }

  /** `ways` are ways below id `below`, in decreasing id order, one per chunk,
      each with one reference per coordinate of its chunk and tags `wayTags`. */
  predicate WaysShaped(ways: seq<Element>, chunks: seq<seq<Coord>>, wayTags: seq<Tag>, below: int)
    decreases |ways|
  {
    |ways| == |chunks|
    && (|ways| > 0 ==>
          ways[0].Way? && ways[0].id < below && |ways[0].refs| == |chunks[0]| && ways[0].tags == wayTags
          && WaysShaped(ways[1..], chunks[1..], wayTags, ways[0].id))
  }

  lemma {:induction false} WayLoopShape(w: Writer, rem: seq<Coord>, tags: Option<FeatureTags>, atEnds: bool,
                   firstRef: Option<string>, lastRef: Option<string>, first: bool, fixedEnd: bool, size: nat)
    requires size >= 2
    requires WayLoop(w, rem, tags, atEnds, firstRef, lastRef, first, fixedEnd, size).Ok?
    ensures BuildTags(SpecsOf(tags), GeometryObject).Ok?
    ensures WaysShaped(WayLoop(w, rem, tags, atEnds, firstRef, lastRef, first, fixedEnd, size).value.1,
                       Chunks(rem, size), BuildTags(SpecsOf(tags), GeometryObject).value, w.lastId)
    decreases |rem|
  {
    WayLoopStep(w, rem, tags, atEnds, firstRef, lastRef, first, fixedEnd, size);
    ChunksStep(rem, size);
    var p := Pass(w, rem, tags, atEnds, firstRef, lastRef, first, fixedEnd, size).value;
    var ways := WayLoop(w, rem, tags, atEnds, firstRef, lastRef, first, fixedEnd, size).value.1;
    if |Rest(rem, size)| >= 2 {
      WayLoopShape(p.0, Rest(rem, size), tags, atEnds, firstRef, lastRef, false, fixedEnd, size);
      assert ways[1..] == WayLoop(p.0, Rest(rem, size), tags, atEnds, firstRef, lastRef, false, fixedEnd, size).value.1;
      assert Chunks(rem, size)[1..] == Chunks(Rest(rem, size), size);
    } else {
      assert ways[1..] == [] && Chunks(rem, size)[1..] == [];
    }
  }

  /** Indexed form of `WaysShaped`. */
  lemma {:induction false} WaysShapedAt(ways: seq<Element>, chunks: seq<seq<Coord>>, wayTags: seq<Tag>,
                                        below: int, k: nat)
    requires WaysShaped(ways, chunks, wayTags, below) && k < |ways|
    ensures ways[k].Way? && ways[k].id < below && |ways[k].refs| == |chunks[k]| && ways[k].tags == wayTags
    decreases k
  {
    if k > 0 {
      WaysShapedAt(ways[1..], chunks[1..], wayTags, ways[0].id, k - 1);
    }
  }

  /** An element written before is still written after more work. */
  lemma ExtendsKeeps(w: Writer, v: Writer, e: Element)
    requires Extends(w, v) && e in w.created
    ensures e in v.created
  {
    assert e in v.created[..|w.created|];
  }

  lemma CreatedPrepend(w: Writer, v: Writer, e: Element, es: seq<Element>)
    requires Extends(w, v) && e in w.created
    requires forall k :: 0 <= k < |es| ==> es[k] in v.created
    ensures forall k :: 0 <= k < |es| + 1 ==> ([e] + es)[k] in v.created
  {
    ExtendsKeeps(w, v, e);
    forall k | 0 <= k < |es| + 1 ensures ([e] + es)[k] in v.created {
      if k > 0 { assert ([e] + es)[k] == es[k - 1]; }
    }
  }

  /** Every way returned is among the written elements. */
  lemma {:induction false} WayLoopCreated(w: Writer, rem: seq<Coord>, tags: Option<FeatureTags>, atEnds: bool,
                   firstRef: Option<string>, lastRef: Option<string>, first: bool, fixedEnd: bool, size: nat)
    requires size >= 2
    requires WayLoop(w, rem, tags, atEnds, firstRef, lastRef, first, fixedEnd, size).Ok?
    ensures var r := WayLoop(w, rem, tags, atEnds, firstRef, lastRef, first, fixedEnd, size).value;
      forall k :: 0 <= k < |r.1| ==> r.1[k] in r.0.created
    decreases |rem|
  {
    WayLoopStep(w, rem, tags, atEnds, firstRef, lastRef, first, fixedEnd, size);
    var r := WayLoop(w, rem, tags, atEnds, firstRef, lastRef, first, fixedEnd, size).value;
    var p := Pass(w, rem, tags, atEnds, firstRef, lastRef, first, fixedEnd, size).value;
    assert p.1 in p.0.created;
    if |Rest(rem, size)| >= 2 {
      var q := WayLoop(p.0, Rest(rem, size), tags, atEnds, firstRef, lastRef, false, fixedEnd, size).value;
      WayLoopCreated(p.0, Rest(rem, size), tags, atEnds, firstRef, lastRef, false, fixedEnd, size);
      CreatedPrepend(p.0, q.0, p.1, q.1);
    }
  }

  lemma EndTagsOkWeaken(tags: Option<FeatureTags>, markFirst: bool, markLast: bool, first: bool, last: bool)
    requires EndTagsOk(tags, markFirst, markLast) && (first ==> markFirst) && (last ==> markLast)
    ensures EndTagsOk(tags, first, last)
  {
  }

  lemma PassNodesOk(w: Writer, rem: seq<Coord>, tags: Option<FeatureTags>, atEnds: bool,
                    firstRef: Option<string>, lastRef: Option<string>, first: bool, fixedEnd: bool, size: nat)
    requires size >= 2 && EndTagsOk(tags, atEnds, atEnds)
    ensures PassNodes(w, rem, tags, atEnds, firstRef, lastRef, first, fixedEnd, size).Ok?
  {
    var markLast := atEnds && MarksEnd(|Rest(rem, size)|, fixedEnd);
    EndTagsOkWeaken(tags, atEnds, atEnds, atEnds && first, markLast);
    ChunkNodesOk(w.(lastId := w.lastId - 1), Take(rem, size), 0, tags, atEnds && first, markLast, firstRef, lastRef);
  }

  /** The last way of a line is the last element written. */
  predicate EndsWithLastWay(r: (Writer, seq<Element>)) {
    |r.1| >= 1 && |r.0.created| >= 1 && r.0.created[|r.0.created| - 1] == r.1[|r.1| - 1]
  }

  lemma EndsWithLastWayPrepend(way: Element, r: (Writer, seq<Element>))
    requires EndsWithLastWay(r)
    ensures EndsWithLastWay((r.0, [way] + r.1))
  {
    assert ([way] + r.1)[|r.1|] == r.1[|r.1| - 1];
  }

  lemma {:induction false} WayLoopEndsWritten(w: Writer, rem: seq<Coord>, tags: Option<FeatureTags>, atEnds: bool,
                   firstRef: Option<string>, lastRef: Option<string>, first: bool, fixedEnd: bool, size: nat)
    requires size >= 2
    requires WayLoop(w, rem, tags, atEnds, firstRef, lastRef, first, fixedEnd, size).Ok?
    ensures EndsWithLastWay(WayLoop(w, rem, tags, atEnds, firstRef, lastRef, first, fixedEnd, size).value)
    decreases |rem|
  {
    WayLoopStep(w, rem, tags, atEnds, firstRef, lastRef, first, fixedEnd, size);
    var p := Pass(w, rem, tags, atEnds, firstRef, lastRef, first, fixedEnd, size).value;
    if |Rest(rem, size)| >= 2 {
      var q := WayLoop(p.0, Rest(rem, size), tags, atEnds, firstRef, lastRef, false, fixedEnd, size).value;
      WayLoopEndsWritten(p.0, Rest(rem, size), tags, atEnds, firstRef, lastRef, false, fixedEnd, size);
      EndsWithLastWayPrepend(p.1, q);
    }
  }

  /** A pass is written whenever the tag lists it needs are within the limits. */
  lemma PassOk(w: Writer, rem: seq<Coord>, tags: Option<FeatureTags>, atEnds: bool,
               firstRef: Option<string>, lastRef: Option<string>, first: bool, fixedEnd: bool, size: nat)
    requires size >= 2
    requires BuildTags(SpecsOf(tags), GeometryObject).Ok? && EndTagsOk(tags, atEnds, atEnds)
    ensures Pass(w, rem, tags, atEnds, firstRef, lastRef, first, fixedEnd, size).Ok?
  {
    PassNodesOk(w, rem, tags, atEnds, firstRef, lastRef, first, fixedEnd, size);
  }

  /** A line is written whenever its geometry tags, and with tagged ends its
      end-node tags, are within the length limits. */
  lemma {:induction false} WayLoopOk(w: Writer, rem: seq<Coord>, tags: Option<FeatureTags>, atEnds: bool,
                   firstRef: Option<string>, lastRef: Option<string>, first: bool, fixedEnd: bool, size: nat)
    requires size >= 2
    requires BuildTags(SpecsOf(tags), GeometryObject).Ok? && EndTagsOk(tags, atEnds, atEnds)
    ensures WayLoop(w, rem, tags, atEnds, firstRef, lastRef, first, fixedEnd, size).Ok?
    decreases |rem|
  {
    PassOk(w, rem, tags, atEnds, firstRef, lastRef, first, fixedEnd, size);
    var p := Pass(w, rem, tags, atEnds, firstRef, lastRef, first, fixedEnd, size).value;
    if |Rest(rem, size)| >= 2 {
      WayLoopOk(p.0, Rest(rem, size), tags, atEnds, firstRef, lastRef, false, fixedEnd, size);
    }
    WayLoopOkStep(w, rem, tags, atEnds, firstRef, lastRef, first, fixedEnd, size);
  }

  /** The loop succeeds when its first pass does and, if the loop goes on,
      the rest of it does. */
  lemma WayLoopOkStep(w: Writer, rem: seq<Coord>, tags: Option<FeatureTags>, atEnds: bool,
                      firstRef: Option<string>, lastRef: Option<string>, first: bool, fixedEnd: bool, size: nat)
    requires size >= 2
    requires Pass(w, rem, tags, atEnds, firstRef, lastRef, first, fixedEnd, size).Ok?
    requires |Rest(rem, size)| >= 2 ==>
      WayLoop(Pass(w, rem, tags, atEnds, firstRef, lastRef, first, fixedEnd, size).value.0, Rest(rem, size),
              tags, atEnds, firstRef, lastRef, false, fixedEnd, size).Ok?
    ensures WayLoop(w, rem, tags, atEnds, firstRef, lastRef, first, fixedEnd, size).Ok?
  {
  }

  /** The last way's last reference is the node linked under `lastRef`. */
  predicate LastLinked(r: (Writer, seq<Element>), lastRef: Option<string>) {
    |r.1| >= 1 && r.1[|r.1| - 1].Way? && |r.1[|r.1| - 1].refs| >= 1
    && lastRef in r.0.osmNodes && r.0.osmNodes[lastRef] == r.1[|r.1| - 1].refs[|r.1[|r.1| - 1].refs| - 1]
  }

  lemma LastLinkedPrepend(way: Element, r: (Writer, seq<Element>), lastRef: Option<string>)
    requires LastLinked(r, lastRef)
    ensures LastLinked((r.0, [way] + r.1), lastRef)
  {
    assert ([way] + r.1)[|r.1|] == r.1[|r.1| - 1];
  }

  lemma LastLinkedOne(v: Writer, x: Writer, way: Element, lastRef: Option<string>)
    requires way.Way? && LinkedLast(v, way.refs, lastRef) && x.osmNodes == v.osmNodes
    ensures LastLinked((x, [way]), lastRef)
  {
  }

  /** What a pass is made of: the nodes of `PassNodes`, then the way. */
  lemma PassParts(w: Writer, rem: seq<Coord>, tags: Option<FeatureTags>, atEnds: bool,
                  firstRef: Option<string>, lastRef: Option<string>, first: bool, fixedEnd: bool, size: nat)
    requires size >= 2
    requires Pass(w, rem, tags, atEnds, firstRef, lastRef, first, fixedEnd, size).Ok?
    ensures var n := PassNodes(w, rem, tags, atEnds, firstRef, lastRef, first, fixedEnd, size);
      var p := Pass(w, rem, tags, atEnds, firstRef, lastRef, first, fixedEnd, size).value;
      n.Ok? && p.0.osmNodes == n.value.0.osmNodes && p.1.refs == n.value.1
  {
  }

  /** The nodes of a final pass with tagged ends and the corrected mark end
      at the node linked under the last-node reference. */
  lemma PassNodesLinksLast(w: Writer, rem: seq<Coord>, tags: Option<FeatureTags>,
                           firstRef: Option<string>, lastRef: Option<string>, first: bool, size: nat)
    requires size >= 2 && |rem| >= 1 && |Rest(rem, size)| < 2
    requires PassNodes(w, rem, tags, true, firstRef, lastRef, first, true, size).Ok?
    ensures var n := PassNodes(w, rem, tags, true, firstRef, lastRef, first, true, size).value;
      LinkedLast(n.0, n.1, lastRef)
  {
    ChunkNodesLastLinked(w.(lastId := w.lastId - 1), Take(rem, size), 0, tags, first, firstRef, lastRef);
  }

  /** The final pass of a line with tagged ends and the corrected mark links
      its last coordinate under the last-node reference. */
  lemma PassLinksLast(w: Writer, rem: seq<Coord>, tags: Option<FeatureTags>,
                      firstRef: Option<string>, lastRef: Option<string>, first: bool, size: nat)
    requires size >= 2 && |rem| >= 1 && |Rest(rem, size)| < 2
    requires Pass(w, rem, tags, true, firstRef, lastRef, first, true, size).Ok?
    ensures var p := Pass(w, rem, tags, true, firstRef, lastRef, first, true, size).value;
      LastLinked((p.0, [p.1]), lastRef)
  {
    PassParts(w, rem, tags, true, firstRef, lastRef, first, true, size);
    PassNodesLinksLast(w, rem, tags, firstRef, lastRef, first, size);
    var n := PassNodes(w, rem, tags, true, firstRef, lastRef, first, true, size).value;
    var p := Pass(w, rem, tags, true, firstRef, lastRef, first, true, size).value;
    LastLinkedOne(n.0, p.0, p.1, lastRef);
  }

  /** With the end marks corrected, a line's last coordinate is always linked
      under the last-node reference, as the last reference of the last way. */
  lemma {:induction false} WayLoopLinksLast(w: Writer, rem: seq<Coord>, tags: Option<FeatureTags>,
                   firstRef: Option<string>, lastRef: Option<string>, first: bool, size: nat)
    requires size >= 2 && |rem| >= 1
    requires WayLoop(w, rem, tags, true, firstRef, lastRef, first, true, size).Ok?
    ensures LastLinked(WayLoop(w, rem, tags, true, firstRef, lastRef, first, true, size).value, lastRef)
    decreases |rem|
  {
    WayLoopStep(w, rem, tags, true, firstRef, lastRef, first, true, size);
    var p := Pass(w, rem, tags, true, firstRef, lastRef, first, true, size).value;
    if |Rest(rem, size)| >= 2 {
      var q := WayLoop(p.0, Rest(rem, size), tags, true, firstRef, lastRef, false, true, size).value;
      WayLoopLinksLast(p.0, Rest(rem, size), tags, firstRef, lastRef, false, size);
      LastLinkedPrepend(p.1, q, lastRef);
    } else {
      PassLinksLast(w, rem, tags, firstRef, lastRef, first, size);
    }
  }

  /** As written, a line of exactly `size` coordinates leaves one coordinate
      behind on its only pass, so its last coordinate is never linked under a
      last-node reference that was not linked before. */
  lemma WayLoopAsWrittenMissesLast(w: Writer, rem: seq<Coord>, tags: Option<FeatureTags>,
                   firstRef: Option<string>, lastRef: Option<string>, size: nat)
    requires size >= 2 && |rem| == size
    requires lastRef != firstRef && lastRef !in w.osmNodes
    requires WayLoop(w, rem, tags, true, firstRef, lastRef, true, false, size).Ok?
    ensures lastRef !in WayLoop(w, rem, tags, true, firstRef, lastRef, true, false, size).value.0.osmNodes
  {
    WayLoopStep(w, rem, tags, true, firstRef, lastRef, true, false, size);
    assert |Rest(rem, size)| == 1;
    PassParts(w, rem, tags, true, firstRef, lastRef, true, false, size);
    PassNodesMissesLast(w, rem, tags, firstRef, lastRef, size);
  }

  /** The nodes of a pass whose last coordinate is left unmarked link only the
      first-node reference. */
  lemma PassNodesMissesLast(w: Writer, rem: seq<Coord>, tags: Option<FeatureTags>,
                            firstRef: Option<string>, lastRef: Option<string>, size: nat)
    requires size >= 2 && |Rest(rem, size)| == 1
    requires lastRef != firstRef && lastRef !in w.osmNodes
    requires PassNodes(w, rem, tags, true, firstRef, lastRef, true, false, size).Ok?
    ensures lastRef !in PassNodes(w, rem, tags, true, firstRef, lastRef, true, false, size).value.0.osmNodes
  {
    ChunkNodesLinks(w.(lastId := w.lastId - 1), Take(rem, size), 0, tags, true, false, firstRef, lastRef);
  }

  /** A line that fits in one pass is one way over the references of its
      coordinates. */
  lemma WayLoopSinglePass(w: Writer, rem: seq<Coord>, tags: Option<FeatureTags>, atEnds: bool,
                          firstRef: Option<string>, lastRef: Option<string>, fixedEnd: bool, size: nat)
    requires 2 <= size && |rem| <= size
    requires WayLoop(w, rem, tags, atEnds, firstRef, lastRef, true, fixedEnd, size).Ok?
    ensures PassNodes(w, rem, tags, atEnds, firstRef, lastRef, true, fixedEnd, size).Ok?
    ensures var ways := WayLoop(w, rem, tags, atEnds, firstRef, lastRef, true, fixedEnd, size).value.1;
      |ways| == 1 && ways[0].Way? && ways[0].id == w.lastId - 1
      && ways[0].refs == PassNodes(w, rem, tags, atEnds, firstRef, lastRef, true, fixedEnd, size).value.1
  {
    WayLoopStep(w, rem, tags, atEnds, firstRef, lastRef, true, fixedEnd, size);
    PassParts(w, rem, tags, atEnds, firstRef, lastRef, true, fixedEnd, size);
  }

  /** `build_way`: the line cut into chunks, one way per chunk. As written,
      the last coordinate is treated as the line's last node only when the
      final pass leaves nothing behind. */
  function BuildWay(w: Writer, coords: seq<Coord>, tags: Option<FeatureTags>, atEnds: bool,
                    firstRef: Option<string>, lastRef: Option<string>)
    : (r: Result<(Writer, seq<Element>), TagError>)
    ensures r.Ok? ==> Extends(w, r.value.0) && |r.value.1| == |Chunks(coords, WaySplitSize)|
    ensures BuildTags(SpecsOf(tags), GeometryObject).Err? ==> r.Err?
  {
    WayLoop(w, coords, tags, atEnds, firstRef, lastRef, true, false, WaySplitSize)
  }

  /** `build_way` as evidently intended: the last node is marked on the final
      pass whatever the line's length. */
  function BuildWayCorrected(w: Writer, coords: seq<Coord>, tags: Option<FeatureTags>, atEnds: bool,
                    firstRef: Option<string>, lastRef: Option<string>)
    : (r: Result<(Writer, seq<Element>), TagError>)
    ensures r.Ok? ==> Extends(w, r.value.0) && |r.value.1| == |Chunks(coords, WaySplitSize)|
    ensures BuildTags(SpecsOf(tags), GeometryObject).Err? ==> r.Err?
  {
    WayLoop(w, coords, tags, atEnds, firstRef, lastRef, true, true, WaySplitSize)
  }

  /** The ways of a line: one per chunk, ids decreasing from the next free id,
      one reference per coordinate, the feature's geometry tags on each; and
      the line is written unless one of the tag lists it needs is too long. */
  lemma BuildWayShape(w: Writer, coords: seq<Coord>, tags: Option<FeatureTags>, atEnds: bool,
                      firstRef: Option<string>, lastRef: Option<string>)
    ensures BuildTags(SpecsOf(tags), GeometryObject).Ok? && EndTagsOk(tags, atEnds, atEnds) ==>
      BuildWay(w, coords, tags, atEnds, firstRef, lastRef).Ok?
    ensures BuildWay(w, coords, tags, atEnds, firstRef, lastRef).Ok? ==>
      BuildTags(SpecsOf(tags), GeometryObject).Ok?
      && WaysShaped(BuildWay(w, coords, tags, atEnds, firstRef, lastRef).value.1, Chunks(coords, WaySplitSize),
                    BuildTags(SpecsOf(tags), GeometryObject).value, w.lastId)
  {
    if BuildTags(SpecsOf(tags), GeometryObject).Ok? && EndTagsOk(tags, atEnds, atEnds) {
      WayLoopOk(w, coords, tags, atEnds, firstRef, lastRef, true, false, WaySplitSize);
    }
    if BuildWay(w, coords, tags, atEnds, firstRef, lastRef).Ok? {
      WayLoopShape(w, coords, tags, atEnds, firstRef, lastRef, true, false, WaySplitSize);
    }
  }

  /** The ways of a line, indexed: each is written, is a way with one
      reference per coordinate of its chunk and the feature's geometry tags. */
  lemma BuildWayWays(w: Writer, coords: seq<Coord>, tags: Option<FeatureTags>, atEnds: bool,
                     firstRef: Option<string>, lastRef: Option<string>, k: nat)
    requires BuildWay(w, coords, tags, atEnds, firstRef, lastRef).Ok?
    requires k < |BuildWay(w, coords, tags, atEnds, firstRef, lastRef).value.1|
    ensures var r := BuildWay(w, coords, tags, atEnds, firstRef, lastRef).value;
      r.1[k] in r.0.created && r.1[k].Way? && r.1[k].id < w.lastId
      && BuildTags(SpecsOf(tags), GeometryObject) == Ok(r.1[k].tags)
      && |r.1[k].refs| == |Chunks(coords, WaySplitSize)[k]|
  {
    var r := BuildWay(w, coords, tags, atEnds, firstRef, lastRef).value;
    WayLoopShape(w, coords, tags, atEnds, firstRef, lastRef, true, false, WaySplitSize);
    WaysShapedAt(r.1, Chunks(coords, WaySplitSize), BuildTags(SpecsOf(tags), GeometryObject).value, w.lastId, k);
    WayLoopCreated(w, coords, tags, atEnds, firstRef, lastRef, true, false, WaySplitSize);
  }

  /** `build_way` appends its ways in order: the last way returned is the
      last element written. */
  lemma BuildWayEndsWritten(w: Writer, coords: seq<Coord>, tags: Option<FeatureTags>, atEnds: bool,
                            firstRef: Option<string>, lastRef: Option<string>)
    requires BuildWay(w, coords, tags, atEnds, firstRef, lastRef).Ok?
    ensures EndsWithLastWay(BuildWay(w, coords, tags, atEnds, firstRef, lastRef).value)
  {
    WayLoopEndsWritten(w, coords, tags, atEnds, firstRef, lastRef, true, false, WaySplitSize);
  }

  /** Corrected: with tagged ends, the line's last coordinate is the node
      linked under the last-node reference, whatever the line's length. */
  lemma BuildWayCorrectedLinksLast(w: Writer, coords: seq<Coord>, tags: Option<FeatureTags>,
                                   firstRef: Option<string>, lastRef: Option<string>)
    requires |coords| >= 1
    requires BuildWayCorrected(w, coords, tags, true, firstRef, lastRef).Ok?
    ensures LastLinked(BuildWayCorrected(w, coords, tags, true, firstRef, lastRef).value, lastRef)
  {
    WayLoopLinksLast(w, coords, tags, firstRef, lastRef, true, WaySplitSize);
  }

  /** As written, a line of exactly 495 coordinates never links its last
      coordinate under a new last-node reference: the link the next line
      would join at is missing. */
  lemma BuildWayMissesLast(w: Writer, coords: seq<Coord>, tags: Option<FeatureTags>,
                           firstRef: Option<string>, lastRef: Option<string>)
    requires |coords| == WaySplitSize
    requires lastRef != firstRef && lastRef !in w.osmNodes
    requires BuildWay(w, coords, tags, true, firstRef, lastRef).Ok?
    ensures lastRef !in BuildWay(w, coords, tags, true, firstRef, lastRef).value.0.osmNodes
    ensures !LastLinked(BuildWay(w, coords, tags, true, firstRef, lastRef).value, lastRef)
  {
    WayLoopAsWrittenMissesLast(w, coords, tags, firstRef, lastRef, WaySplitSize);
  }

  /** The nodes of a closed ring of four untagged coordinates: the first and
      the last reference are the same cached node. */
  lemma ClosedRingNodes(w: Writer, a: Coord, b: Coord, c: Coord)
    ensures var p := ChunkNodes(w, [a, b, c, a], 0, None, false, false, None, None);
      p.Ok? && |p.value.1| == 4 && p.value.1[0] == p.value.1[3]
  {
    RingNodesShared(w, [a, b, c, a]);
  }

  /** Any ring of untagged coordinates that returns to its start: its first
      and last references are the same cached node. */
  lemma RingNodesShared(w: Writer, coords: seq<Coord>)
    requires |coords| >= 2 && coords[0] == coords[|coords| - 1]
    ensures var p := ChunkNodes(w, coords, 0, None, false, false, None, None);
      p.Ok? && |p.value.1| == |coords| && p.value.1[0] == p.value.1[|coords| - 1]
  {
    ChunkNodesOk(w, coords, 0, None, false, false, None, None);
    var p := ChunkNodes(w, coords, 0, None, false, false, None, None);
    ChunkNodesPlain(w, coords, 0, None, false, false, None, None);
    PlainEndsShared(p.value.0.nodes, coords, p.value.1);
  }

  /** Unmarked references of a ring that returns to its start: the first and
      the last are the same node. */
  lemma PlainEndsShared(nodes: map<NodeKey, int>, cur: seq<Coord>, refs: seq<int>)
    requires |cur| >= 2 && |refs| == |cur| && cur[0] == cur[|cur| - 1]
    requires PlainCached(nodes, cur, refs, 0, false, false)
    ensures refs[0] == refs[|refs| - 1]
  {
    PlainCachedAt(nodes, cur, refs, 0, false, false, 0);
    PlainCachedAt(nodes, cur, refs, 0, false, false, |cur| - 1);
  }

  /** A closed ring of four coordinates without tagged ends: the way's first
      and last references are the same node. */
  lemma ClosedRingSharesNode(w: Writer, a: Coord, b: Coord, c: Coord)
    ensures var r := BuildWay(w, [a, b, c, a], None, false, None, None);
      r.Ok? && |r.value.1| == 1 && r.value.1[0].Way? && |r.value.1[0].refs| == 4
      && r.value.1[0].refs[0] == r.value.1[0].refs[3]
  {
    var coords := [a, b, c, a];
    WayLoopOk(w, coords, None, false, None, None, true, false, WaySplitSize);
    WayLoopSinglePass(w, coords, None, false, None, None, false, WaySplitSize);
    assert Take(coords, WaySplitSize) == coords;
    ClosedRingNodes(w.(lastId := w.lastId - 1), a, b, c);
  }

  function Ids(es: seq<Element>): (r: seq<int>)
    ensures |r| == |es| && forall k :: 0 <= k < |es| ==> r[k] == es[k].id
  {
    if |es| == 0 then [] else [es[0].id] + Ids(es[1..])
  }
}
