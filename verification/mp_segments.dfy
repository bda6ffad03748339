/** How the MP-file importer cuts a polyline into segments at its routing
    nodes, and how it inserts each routing node once per file. */
module MpSegments {
  import opened Wrappers

  /** A `NodN=point_idx,node_id,bound` line of a polyline. */
  datatype RouteNode = RouteNode(nodeNo: int, point: int, id: int, bound: bool)

  /** A segment: the routing nodes at its ends (`None` at an end of the
      polyline that is no routing node) and the indices of its first and
      last points. */
  datatype Segment = Segment(startNode: Option<int>, endNode: Option<int>, from: int, to: int)

  // ---------------------------------------------------------------------------
  // Sorting the nodes by point index

  predicate SortedByPoint(ns: seq<RouteNode>) {
    forall i :: 0 <= i < |ns| - 1 ==> ns[i].point <= ns[i + 1].point
  }

  /** `x` placed before the first node that does not lie before it. */
  function Insert(x: RouteNode, ns: seq<RouteNode>): (r: seq<RouteNode>)
    requires SortedByPoint(ns)
    ensures SortedByPoint(r)
    ensures multiset(r) == multiset(ns) + multiset{x}
    ensures |r| == |ns| + 1 && (r[0] == x || (|ns| > 0 && r[0] == ns[0]))
  {
    if |ns| == 0 || x.point <= ns[0].point then [x] + ns
    else
      assert ns == [ns[0]] + ns[1..];
      [ns[0]] + Insert(x, ns[1..])
  }

  /** `nodes.sort(key=point_idx)`. */
  function SortByPoint(ns: seq<RouteNode>): (r: seq<RouteNode>)
    ensures SortedByPoint(r)
    ensures multiset(r) == multiset(ns)
  {
    if |ns| == 0 then []
    else
      assert ns == [ns[0]] + ns[1..];
      Insert(ns[0], SortByPoint(ns[1..]))
  }

  // ---------------------------------------------------------------------------
  // generate_segments_and_nodes_sql: the segment intervals

  /** The segments between consecutive nodes, in node order. */
  function Between(ns: seq<RouteNode>): (r: seq<Segment>)
    ensures |ns| >= 1 ==> |r| == |ns| - 1
    ensures |ns| == 0 ==> r == []
    ensures forall k :: 0 <= k < |r| ==>
      r[k] == Segment(Some(ns[k].id), Some(ns[k + 1].id), ns[k].point, ns[k + 1].point)
  {
    if |ns| <= 1 then [] else [Segment(Some(ns[0].id), Some(ns[1].id), ns[0].point, ns[1].point)] + Between(ns[1..])
  }

  /** The segment from the first point to the first node, if that node is
      not on the first point. */
  function Head(ns: seq<RouteNode>): seq<Segment>
    requires |ns| >= 1
  {
    if ns[0].point > 0 then [Segment(None, Some(ns[0].id), 0, ns[0].point)] else []
  }

  /** The segment from the last node to the final point, if that node is not
      on the final point. */
  function Tail(ns: seq<RouteNode>, last: int): seq<Segment>
    requires |ns| >= 1
  {
    var n := ns[|ns| - 1];
    if n.point < last then [Segment(Some(n.id), None, n.point, last)] else []
  }

  /** The segments of a polyline whose final point index is `last`, in the
      order the importer emits them: the whole line when it has no routing
      node; otherwise the piece before the first node, the piece after the
      last node, then the pieces between consecutive nodes. */
  function Segments(nodes: seq<RouteNode>, last: int): (r: seq<Segment>)
    ensures |nodes| == 0 ==> r == [Segment(None, None, 0, last)]
  {
    var ns := SortByPoint(nodes);
    if |ns| == 0 then
      assert |nodes| == |multiset(nodes)| == 0;
      [Segment(None, None, 0, last)]
    else Head(ns) + Tail(ns, last) + Between(ns)
  }

  /** The same segments along the line: each ends where the next starts,
      at the same node. */
  predicate Chained(segs: seq<Segment>) {
    forall k :: 0 <= k < |segs| - 1 ==> segs[k].to == segs[k + 1].from && segs[k].endNode == segs[k + 1].startNode
  }

  /** The segments in line order. */
  function AlongLine(nodes: seq<RouteNode>, last: int): seq<Segment> {
    var ns := SortByPoint(nodes);
    if |ns| == 0 then [Segment(None, None, 0, last)] else Head(ns) + Between(ns) + Tail(ns, last)
  }

  predicate Within(nodes: seq<RouteNode>, last: int) {
    forall i :: 0 <= i < |nodes| ==> 0 <= nodes[i].point <= last
  }

  lemma SortedWithin(nodes: seq<RouteNode>, last: int)
    requires Within(nodes, last)
    ensures Within(SortByPoint(nodes), last)
  {
    var ns := SortByPoint(nodes);
    forall i | 0 <= i < |ns|
      ensures 0 <= ns[i].point <= last
    {
      assert ns[i] in multiset(nodes);
    }
  }

  lemma BetweenChained(ns: seq<RouteNode>)
    ensures Chained(Between(ns))
  {
  }

  /** The emitted segments are those along the line, reordered: the piece
      after the last node comes second instead of last. */
  lemma SegmentsReordered(nodes: seq<RouteNode>, last: int)
    ensures multiset(Segments(nodes, last)) == multiset(AlongLine(nodes, last))
  {
  }

  /** The last segment of `a` ends where and at the node the first of `b`
      starts. */
  predicate Joins(a: seq<Segment>, b: seq<Segment>) {
    |a| == 0 || |b| == 0 || (a[|a| - 1].to == b[0].from && a[|a| - 1].endNode == b[0].startNode)
  }

  lemma ChainedConcat(a: seq<Segment>, b: seq<Segment>)
    requires Chained(a) && Chained(b) && Joins(a, b)
    ensures Chained(a + b)
  {
    var c := a + b;
    forall k | 0 <= k < |c| - 1
      ensures c[k].to == c[k + 1].from && c[k].endNode == c[k + 1].startNode
    {
      if k >= |a| {
        assert c[k] == b[k - |a|] && c[k + 1] == b[k + 1 - |a|];
      }
    }
  }

  predicate Forward(segs: seq<Segment>) {
    forall k :: 0 <= k < |segs| ==> segs[k].from <= segs[k].to
  }

  /** `c` runs along the line from its first point to point `last`, each
      segment starting where and at the node the previous one ended, none
      running backwards. */
  predicate Tiles(c: seq<Segment>, last: int) {
    |c| >= 1 && c[0].from == 0 && c[|c| - 1].to == last && Chained(c) && Forward(c)
  }

  /** With every node on the line and a line of at least two points, the
      segments tile it: they run along the line from its first point to its
      last, each starting where and at the node the previous one ended, and
      none runs backwards. */
  lemma SegmentsTile(nodes: seq<RouteNode>, last: int)
    requires last >= 1 && Within(nodes, last)
    ensures Tiles(AlongLine(nodes, last), last)
  {
    var ns := SortByPoint(nodes);
    if |ns| > 0 {
      SortedWithin(nodes, last);
      TileParts(ns, last);
    }
  }

  lemma TileParts(ns: seq<RouteNode>, last: int)
    requires |ns| >= 1 && last >= 1 && Within(ns, last) && SortedByPoint(ns)
    ensures Tiles(Head(ns) + Between(ns) + Tail(ns, last), last)
  {
    var h, b, t := Head(ns), Between(ns), Tail(ns, last);
    BetweenChained(ns);
    ChainedConcat(h, b);
    assert Joins(h + b, t);
    ChainedConcat(h + b, t);
    BetweenForward(ns);
    ForwardConcat(h, b);
    ForwardConcat(h + b, t);
    TileEnds(ns, last);
  }

  lemma TileEnds(ns: seq<RouteNode>, last: int)
    requires |ns| >= 1 && last >= 1 && Within(ns, last)
    ensures var c := Head(ns) + Between(ns) + Tail(ns, last);
      |c| >= 1 && c[0].from == 0 && c[|c| - 1].to == last
  {
  }

  lemma BetweenForward(ns: seq<RouteNode>)
    requires SortedByPoint(ns)
    ensures Forward(Between(ns))
  {
  }

  lemma ForwardConcat(a: seq<Segment>, b: seq<Segment>)
    requires Forward(a) && Forward(b)
    ensures Forward(a + b)
  {
    var c := a + b;
    assert forall k :: |a| <= k < |c| ==> c[k] == b[k - |a|];
  }

  // ---------------------------------------------------------------------------
  // generate_segments_and_nodes_sql: inserting the routing nodes

  /** The ids of the nodes. */
  function Ids(ns: seq<RouteNode>): set<int> {
    set i | 0 <= i < |ns| :: ns[i].id
  }

  predicate DistinctIds(ns: seq<RouteNode>) {
    forall i, j :: 0 <= i < j < |ns| ==> ns[i].id != ns[j].id
  }

  /** The file's `created_nodes` after a polyline, the `mp_node` rows it
      inserts, and the ids it marks bound with an `UPDATE`. */
  datatype Placed = Placed(created: set<int>, inserted: seq<RouteNode>, boundUpdates: seq<int>)

  /** The node loop of one polyline, over its sorted nodes: a node whose id
      the file has not created yet is inserted and remembered; a node whose
      id it has is only marked bound, when it is bound. */
  function Place(ns: seq<RouteNode>, created: set<int>): (r: Placed)
    ensures r.created == created + Ids(ns)
  {
    if |ns| == 0 then Placed(created, [], [])
    else
      var n := ns[0];
      var rest := Place(ns[1..], created + {n.id});
      IdsCons(ns);
      if n.id !in created then Placed(rest.created, [n] + rest.inserted, rest.boundUpdates)
      else if n.bound then Placed(rest.created, rest.inserted, [n.id] + rest.boundUpdates)
      else rest
  }

  lemma IdsCons(ns: seq<RouteNode>)
    requires |ns| >= 1
    ensures Ids(ns) == {ns[0].id} + Ids(ns[1..])
  {
    assert forall i :: 1 <= i < |ns| ==> ns[i] == ns[1..][i - 1];
  }

  /** What one step of the node loop does with the first node. */
  lemma PlaceStep(ns: seq<RouteNode>, created: set<int>)
    requires |ns| >= 1
    ensures var n, rest := ns[0], Place(ns[1..], created + {ns[0].id});
      Place(ns, created) ==
        if n.id !in created then Placed(rest.created, [n] + rest.inserted, rest.boundUpdates)
        else if n.bound then Placed(rest.created, rest.inserted, [n.id] + rest.boundUpdates)
        else rest
  {
  }

  /** The rows inserted are for ids the file had not created, one row per
      id. */
  lemma {:induction false} PlaceInsertsNew(ns: seq<RouteNode>, created: set<int>)
    ensures var r := Place(ns, created);
      DistinctIds(r.inserted) &&
      forall i :: 0 <= i < |r.inserted| ==> r.inserted[i].id !in created && r.inserted[i].id in Ids(ns)
  {
    if |ns| >= 1 {
      var n := ns[0];
      var rest := Place(ns[1..], created + {n.id});
      PlaceInsertsNew(ns[1..], created + {n.id});
      PlaceStep(ns, created);
      IdsCons(ns);
      if n.id !in created {
        var ins := [n] + rest.inserted;
        assert forall i :: 1 <= i < |ins| ==> ins[i] == rest.inserted[i - 1];
      }
    }
  }

  /** Every id of the polyline the file had not created gets a row. */
  lemma {:induction false} PlaceCoversNew(ns: seq<RouteNode>, created: set<int>, id: int)
    requires id in Ids(ns) && id !in created
    ensures exists i :: 0 <= i < |Place(ns, created).inserted| && Place(ns, created).inserted[i].id == id
  {
    var n := ns[0];
    var rest := Place(ns[1..], created + {n.id});
    PlaceStep(ns, created);
    IdsCons(ns);
    if id != n.id {
      PlaceCoversNew(ns[1..], created + {n.id}, id);
      var i :| 0 <= i < |rest.inserted| && rest.inserted[i].id == id;
      if n.id !in created {
        assert Place(ns, created).inserted[i + 1].id == id;
      } else {
        assert Place(ns, created).inserted[i].id == id;
      }
    } else {
      assert Place(ns, created).inserted[0].id == id;
    }
  }

  /** Only a bound node whose id the file had already created is marked
      bound by an update. */
  lemma {:induction false} PlaceUpdatesBound(ns: seq<RouteNode>, created: set<int>, u: int)
    requires u in Place(ns, created).boundUpdates
    ensures exists i :: 0 <= i < |ns| && ns[i].id == u && ns[i].bound && u in created + Ids(ns[..i])
  {
    var n := ns[0];
    PlaceStep(ns, created);
    if n.id in created && n.bound && u == n.id {
      assert ns[0].id == u;
    } else {
      PlaceUpdatesBound(ns[1..], created + {n.id}, u);
      var i :| 0 <= i < |ns[1..]| && ns[1..][i].id == u && ns[1..][i].bound && u in created + {n.id} + Ids(ns[1..][..i]);
      assert ns[1..][..i] == ns[1..i + 1];
      assert Ids(ns[..i + 1]) == {n.id} + Ids(ns[1..i + 1]) by {
        IdsCons(ns[..i + 1]);
        assert ns[..i + 1][1..] == ns[1..i + 1];
      }
      assert ns[i + 1].id == u;
    }
  }

  /** The node rows of a whole file, polyline after polyline, each with its
      nodes sorted by point index. */
  function PlaceAll(lines: seq<seq<RouteNode>>, created: set<int>): (r: Placed)
    ensures DistinctIds(r.inserted)
    ensures forall i :: 0 <= i < |r.inserted| ==> r.inserted[i].id !in created && r.inserted[i].id in r.created
    ensures created <= r.created
  {
    if |lines| == 0 then Placed(created, [], [])
    else
      var first := Place(SortByPoint(lines[0]), created);
      PlaceInsertsNew(SortByPoint(lines[0]), created);
      var rest := PlaceAll(lines[1..], first.created);
      var inserted := first.inserted + rest.inserted;
      assert forall i :: 0 <= i < |first.inserted| ==> first.inserted[i].id in first.created;
      assert forall i :: |first.inserted| <= i < |inserted| ==> inserted[i] == rest.inserted[i - |first.inserted|];
      Placed(rest.created, inserted, first.boundUpdates + rest.boundUpdates)
  }
}
