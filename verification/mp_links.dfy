/** How the MP-file importer re-types link roads (slip roads, ramps) after
    the most important road they join: a link takes the type of the best
    road at either of its ends, and the links are revisited until none
    changes. */
module MpLinks {
  import opened Wrappers
  import opened Text

  // ---------------------------------------------------------------------------
  // The type hierarchy

  datatype Kind = Motorway | Trunk | Primary | Secondary | Tertiary

  /** A type of `TYPES_HEIRARCHY`: a road kind, perhaps as its link. */
  datatype RoadType = RoadType(kind: Kind, link: bool)

  /** A segment's `subtype` or `calculated_subtype`: a type of the
      hierarchy, or any other road type by its name. */
  datatype SubType = Known(t: RoadType) | Other(name: string)

  function KindName(k: Kind): string {
    match k
    case Motorway => "motorway"
    case Trunk => "trunk"
    case Primary => "primary"
    case Secondary => "secondary"
    case Tertiary => "tertiary"
  }

  function Name(t: RoadType): string {
    KindName(t.kind) + if t.link then "_link" else ""
  }

  /** `TYPES_HEIRARCHY`, most important first. */
  const Hierarchy: seq<string> := [
    "motorway", "trunk", "primary", "secondary", "tertiary",
    "motorway_link", "trunk_link", "primary_link", "secondary_link", "tertiary_link"]

  function KindRank(k: Kind): nat {
    match k
    case Motorway => 0
    case Trunk => 1
    case Primary => 2
    case Secondary => 3
    case Tertiary => 4
  }

  /** A type's place in the hierarchy: smaller is more important. */
  function Rank(t: RoadType): nat {
    KindRank(t.kind) + if t.link then 5 else 0
  }

  /** `Rank` is the position of the type's name in the hierarchy, and no two
      types share a position, so it is what `list.index` returns. */
  lemma RankIsIndex(t: RoadType, u: RoadType)
    ensures Rank(t) < |Hierarchy| && Hierarchy[Rank(t)] == Name(t)
    ensures Rank(t) == Rank(u) ==> t == u
  {
  }

  /** The name of a string subtype: the hierarchy's types by their names,
      anything else as it is. */
  function Classify(s: string): (r: SubType)
    ensures r.Other? ==> r.name == s
  {
    if s == "motorway" then Known(RoadType(Motorway, false))
    else if s == "trunk" then Known(RoadType(Trunk, false))
    else if s == "primary" then Known(RoadType(Primary, false))
    else if s == "secondary" then Known(RoadType(Secondary, false))
    else if s == "tertiary" then Known(RoadType(Tertiary, false))
    else if s == "motorway_link" then Known(RoadType(Motorway, true))
    else if s == "trunk_link" then Known(RoadType(Trunk, true))
    else if s == "primary_link" then Known(RoadType(Primary, true))
    else if s == "secondary_link" then Known(RoadType(Secondary, true))
    else if s == "tertiary_link" then Known(RoadType(Tertiary, true))
    else Other(s)
  }

  /** Classifying is `st in TYPES_HEIRARCHY`: a name of the hierarchy is
      known by its type, any other string is not. */
  lemma ClassifyName(t: RoadType)
    ensures Classify(Name(t)) == Known(t)
  {
    var n := Name(t);
    match t
    case RoadType(Motorway, false) => assert n == "motorway";
    case RoadType(Trunk, false) => assert n == "trunk";
    case RoadType(Primary, false) => assert n == "primary";
    case RoadType(Secondary, false) => assert n == "secondary";
    case RoadType(Tertiary, false) => assert n == "tertiary";
    case RoadType(Motorway, true) => assert n == "motorway_link";
    case RoadType(Trunk, true) => assert n == "trunk_link";
    case RoadType(Primary, true) => assert n == "primary_link";
    case RoadType(Secondary, true) => assert n == "secondary_link";
    case RoadType(Tertiary, true) => assert n == "tertiary_link";
  }

  lemma ClassifyOther(s: string)
    requires Classify(s).Other?
    ensures s !in Hierarchy
  {
  }

  /** `higher_type(a, b)`: the more important of the two, `b` when they
      tie. */
  function HigherType(a: RoadType, b: RoadType): (r: RoadType)
    ensures r == a || r == b
    ensures Rank(r) <= Rank(a) && Rank(r) <= Rank(b)
  {
    if Rank(a) < Rank(b) then a else b
  }

  /** The hierarchy names no type twice, so a tie means the same type:
      `higher_type` is commutative and idempotent. */
  lemma HigherTypeCommutes(a: RoadType, b: RoadType)
    ensures HigherType(a, b) == HigherType(b, a)
    ensures HigherType(a, a) == a
  {
    RankIsIndex(a, b);
  }

  /** How a neighbouring road counts: a type outside the hierarchy counts
      as `tertiary`. */
  function Effective(st: SubType): RoadType {
    match st
    case Known(t) => t
    case Other(_) => RoadType(Tertiary, false)
  }

  /** The loop of `best_type_at_node` from `best`: the most important of
      `best` and the types seen. */
  function BestFrom(types: seq<SubType>, best: RoadType): (r: RoadType)
    ensures Rank(r) <= Rank(best)
    ensures forall i :: 0 <= i < |types| ==> Rank(r) <= Rank(Effective(types[i]))
    ensures r == best || exists i :: 0 <= i < |types| && r == Effective(types[i])
  {
    if |types| == 0 then best
    else
      var r := BestFrom(types[1..], HigherType(Effective(types[0]), best));
      assert forall i :: 1 <= i < |types| ==> types[i] == types[1..][i - 1];
      r
  }

  /** `t.replace("_link", "")`: the kind without the link. */
  function BaseType(t: RoadType): (r: RoadType)
    ensures !r.link && r.kind == t.kind
    ensures Name(t) == Name(r) + if t.link then "_link" else ""
  {
    RoadType(t.kind, false)
  }

  // ---------------------------------------------------------------------------
  // The segments and the node index

  /** What the link pass reads and writes of an `mp_segment` row. */
  datatype Road = Road(
    line: int,
    pointStart: int,
    startNode: Option<int>,
    endNode: Option<int>,
    subtype: SubType,
    calculated: SubType)

  datatype LinkError = KeyError | OutOfFuel

  /** `if segment.record[part]`: a node id counts only when present and
      non-zero. */
  predicate Truthy(node: Option<int>) {
    node.Some? && node.value != 0
  }

  /** The road `j` ends at node `n` in a way the index records. */
  predicate Touches(road: Road, n: int) {
    n != 0 && (road.startNode == Some(n) || road.endNode == Some(n))
  }

  /** Both truthy end nodes of the road were created. */
  predicate EndsCreated(created: set<int>, road: Road) {
    (!Truthy(road.startNode) || road.startNode.value in created) &&
    (!Truthy(road.endNode) || road.endNode.value in created)
  }

  /** What one end of road `j` adds to the list of node `n`. */
  function Mark(node: Option<int>, n: int, j: nat): (r: seq<nat>)
    ensures forall i :: i in r <==> i == j && Truthy(node) && node.value == n
  {
    if Truthy(node) && node.value == n then [j] else []
  }

  /** `segs_for_node[n]` after the first `k` roads: the roads touching `n`,
      in order, a road that starts and ends at `n` twice. */
  function SegsAt(db: seq<Road>, k: nat, n: int): (r: seq<nat>)
    requires k <= |db|
    ensures forall j :: j in r <==> 0 <= j < k && Touches(db[j], n)
  {
    if k == 0 then []
    else SegsAt(db, k - 1, n) + Mark(db[k - 1].startNode, n, k - 1) + Mark(db[k - 1].endNode, n, k - 1)
  }

  /** Building `segs_for_node` raises `KeyError` when a road ends at a
      truthy node id the file never created. */
  predicate IndexBuilds(created: set<int>, db: seq<Road>) {
    forall j :: 0 <= j < |db| ==> EndsCreated(created, db[j])
  }

  /** `segs_for_node[node]`: `None` and ids the file never created are no
      keys. */
  function Lookup(created: set<int>, db: seq<Road>, node: Option<int>): (r: Result<seq<nat>, LinkError>)
    ensures r.Ok? <==> node.Some? && node.value in created
    ensures r.Err? ==> r.error == KeyError
    ensures r.Ok? ==> forall j :: j in r.value <==> 0 <= j < |db| && Touches(db[j], node.value)
  {
    match node
    case None => Err(KeyError)
    case Some(n) => if n in created then Ok(SegsAt(db, |db|, n)) else Err(KeyError)
  }

  // ---------------------------------------------------------------------------
  // best_type_at_node and upgraded_type

  predicate Within(db: seq<Road>, js: seq<nat>) {
    forall k :: 0 <= k < |js| ==> js[k] < |db|
  }

  /** The listed roads other than `self`, in order. */
  function Without(js: seq<nat>, self: nat): (r: seq<nat>)
    ensures forall j :: j in r <==> j in js && j != self
  {
    if |js| == 0 then []
    else if js[0] == self then Without(js[1..], self)
    else [js[0]] + Without(js[1..], self)
  }

  /** The `calculated_subtype` of each listed road. */
  function Calculated(db: seq<Road>, ks: seq<nat>): (r: seq<SubType>)
    requires Within(db, ks)
    ensures |r| == |ks| && forall i :: 0 <= i < |ks| ==> r[i] == db[ks[i]].calculated
  {
    seq(|ks|, i requires 0 <= i < |ks| => db[ks[i]].calculated)
  }

  /** The loop of `best_type_at_node`, before `_link` is dropped: of the
      other roads at the node, the type ranked best, `tertiary_link` when
      there is none. */
  function RawBestAtNode(created: set<int>, db: seq<Road>, self: nat, node: Option<int>): (r: Result<RoadType, LinkError>)
    ensures r.Ok? <==> node.Some? && node.value in created
    ensures r.Err? ==> r.error == KeyError
    ensures r.Ok? ==> forall j :: 0 <= j < |db| && j != self && Touches(db[j], node.value) ==>
      Rank(r.value) <= Rank(Effective(db[j].calculated))
    ensures r.Ok? ==> (r.value == RoadType(Tertiary, true) ||
      exists j :: 0 <= j < |db| && j != self && Touches(db[j], node.value) && r.value == Effective(db[j].calculated))
  {
    var js :- Lookup(created, db, node);
    var ks := Without(js, self);
    assert Within(db, ks) by {
      forall i | 0 <= i < |ks|
        ensures ks[i] < |db|
      {
        assert ks[i] in ks;
      }
    }
    var types := Calculated(db, ks);
    var best := BestFrom(types, RoadType(Tertiary, true));
    assert forall j :: 0 <= j < |db| && j != self && Touches(db[j], node.value) ==> j in ks;
    assert forall j :: j in ks ==> exists i :: 0 <= i < |ks| && ks[i] == j;
    Ok(best)
  }

  /** `best_type_at_node`: the kind of the best-ranked type at the node. A
      node the file never created, or a missing node, raises `KeyError`. */
  function BestTypeAtNode(created: set<int>, db: seq<Road>, self: nat, node: Option<int>): (r: Result<RoadType, LinkError>)
    ensures r.Ok? <==> node.Some? && node.value in created
    ensures r.Err? ==> r.error == KeyError
    ensures r.Ok? ==> !r.value.link && r.value.kind == RawBestAtNode(created, db, self, node).value.kind
  {
    var raw :- RawBestAtNode(created, db, self, node);
    Ok(BaseType(raw))
  }

  /** `upgraded_type`: the link of the better of the kinds at the two ends;
      a road with a missing end node raises `KeyError`. */
  function UpgradedType(created: set<int>, db: seq<Road>, i: nat): (r: Result<SubType, LinkError>)
    requires i < |db|
    ensures r.Ok? <==> db[i].startNode.Some? && db[i].startNode.value in created &&
                       db[i].endNode.Some? && db[i].endNode.value in created
    ensures r.Err? ==> r.error == KeyError
    ensures r.Ok? ==> r.value.Known? && r.value.t.link
  {
    var a :- BestTypeAtNode(created, db, i, db[i].startNode);
    var b :- BestTypeAtNode(created, db, i, db[i].endNode);
    Ok(Known(RoadType(HigherType(a, b).kind, true)))
  }

  /** The upgraded type is the link of one of the two ends' kinds, and of
      the more important one. */
  lemma UpgradedTypeIsBest(created: set<int>, db: seq<Road>, i: nat)
    requires i < |db| && UpgradedType(created, db, i).Ok?
    ensures var k := UpgradedType(created, db, i).value.t.kind;
      var a := BestTypeAtNode(created, db, i, db[i].startNode).value.kind;
      var b := BestTypeAtNode(created, db, i, db[i].endNode).value.kind;
      (k == a || k == b) && KindRank(k) <= KindRank(a) && KindRank(k) <= KindRank(b)
  {
  }

  // ---------------------------------------------------------------------------
  // segments_link_types_sql

  /** `LINK_RE.search(subtype)` for `^(?P<prefix>.*)_link$`: the name ends
      in `_link`, perhaps before one final newline, and no other newline
      comes before it. */
  predicate LinkName(s: string) {
    ('\n' !in s && EndsWith(s, "_link")) ||
    (|s| >= 1 && s[|s| - 1] == '\n' && '\n' !in s[..|s| - 1] && EndsWith(s[..|s| - 1], "_link"))
  }

  /** `MPSegment.is_link`, read off the segment's original `subtype`. */
  predicate IsLink(st: SubType) {
    match st
    case Known(t) => t.link
    case Other(name) => LinkName(name)
  }

  /** The names of the hierarchy that the pattern matches are exactly the
      links. */
  lemma LinkNameOfType(t: RoadType)
    ensures LinkName(Name(t)) <==> t.link
  {
    var n := Name(t);
    assert '\n' !in n by {
      if t.link {
        assert n == KindName(t.kind) + "_link";
      } else {
        assert n == KindName(t.kind);
      }
    }
    if !t.link {
      assert n == KindName(t.kind);
      assert !EndsWith(n, "_link");
    }
  }

  /** The indexes of the link segments, in order. */
  function Links(db: seq<Road>, k: nat): (r: seq<nat>)
    requires k <= |db|
    ensures Within(db, r)
    ensures forall j :: j in r <==> 0 <= j < k && IsLink(db[j].subtype)
  {
    if k == 0 then []
    else
      var rest := Links(db, k - 1);
      if IsLink(db[k - 1].subtype) then rest + [k - 1] else rest
  }

  /** `db2` differs from `db` in the `calculated_subtype`s at most. */
  predicate Retyped(db2: seq<Road>, db: seq<Road>) {
    |db2| == |db| && forall j :: 0 <= j < |db| ==> db2[j] == db[j].(calculated := db2[j].calculated)
  }

  /** `upgraded_type` finds both end nodes of the segment in the index. */
  predicate Upgradable(created: set<int>, road: Road) {
    road.startNode.Some? && road.startNode.value in created &&
    road.endNode.Some? && road.endNode.value in created
  }

  predicate AllUpgradable(created: set<int>, db: seq<Road>, links: seq<nat>)
    requires Within(db, links)
  {
    forall k :: 0 <= k < |links| ==> Upgradable(created, db[links[k]])
  }

  /** Every listed link already has the type `upgraded_type` gives it: a
      pass over the links changes nothing. */
  predicate Settled(created: set<int>, db: seq<Road>, links: seq<nat>)
    requires Within(db, links)
  {
    forall k :: 0 <= k < |links| ==> UpgradedType(created, db, links[k]) == Ok(db[links[k]].calculated)
  }

  /** Retyping keeps the end nodes, so whether a link can be upgraded. */
  lemma RetypedUpgradable(created: set<int>, db2: seq<Road>, db: seq<Road>, links: seq<nat>)
    requires Retyped(db2, db) && Within(db, links)
    ensures Within(db2, links)
    ensures AllUpgradable(created, db2, links) <==> AllUpgradable(created, db, links)
  {
    forall k | 0 <= k < |links|
      ensures Upgradable(created, db2[links[k]]) <==> Upgradable(created, db[links[k]])
    {
      assert db2[links[k]] == db[links[k]].(calculated := db2[links[k]].calculated);
    }
  }

  lemma RetypedTrans(db3: seq<Road>, db2: seq<Road>, db: seq<Road>)
    requires Retyped(db3, db2) && Retyped(db2, db)
    ensures Retyped(db3, db)
  {
    forall j | 0 <= j < |db|
      ensures db3[j] == db[j].(calculated := db3[j].calculated)
    {
      assert db3[j] == db2[j].(calculated := db3[j].calculated);
      assert db2[j] == db[j].(calculated := db2[j].calculated);
    }
  }

  /** The first link of a pass: its new type written back when it differs. */
  function Step(created: set<int>, db: seq<Road>, i: nat): (r: Result<(seq<Road>, bool), LinkError>)
    requires i < |db|
    ensures r.Ok? <==> Upgradable(created, db[i])
    ensures r.Err? ==> r.error == KeyError
    ensures r.Ok? ==> Retyped(r.value.0, db)
    ensures r.Ok? ==> forall j :: 0 <= j < |db| && j != i ==> r.value.0[j] == db[j]
    ensures r.Ok? ==> Ok(r.value.0[i].calculated) == UpgradedType(created, db, i)
    ensures r.Ok? ==> (r.value.1 <==> r.value.0 != db)
  {
    var t :- UpgradedType(created, db, i);
    if t != db[i].calculated then
      var db2 := db[i := db[i].(calculated := t)];
      assert db2[i] != db[i];
      Ok((db2, true))
    else Ok((db, false))
  }

  /** Whether a sweep can finish is decided link by link, and retyping the
      first link does not change it for the rest. */
  lemma {:induction false} AllUpgradableCons(created: set<int>, db1: seq<Road>, db: seq<Road>, links: seq<nat>)
    requires Retyped(db1, db) && Within(db, links) && |links| >= 1
    ensures Within(db1, links[1..])
    ensures AllUpgradable(created, db, links) <==>
      Upgradable(created, db[links[0]]) && AllUpgradable(created, db1, links[1..])
  {
    RetypedUpgradable(created, db1, db, links);
    assert forall k :: 1 <= k < |links| ==> links[k] == links[1..][k - 1];
  }

  /** One sweep of the `while True` loop: each link in turn takes its
      upgraded type, later links seeing the types given earlier in the
      sweep; whether any type changed. */
  function Pass(created: set<int>, db: seq<Road>, links: seq<nat>): (r: Result<(seq<Road>, bool), LinkError>)
    requires Within(db, links)
    ensures r.Ok? <==> AllUpgradable(created, db, links)
    ensures r.Err? ==> r.error == KeyError
    ensures r.Ok? ==> Retyped(r.value.0, db)
    ensures r.Ok? ==> forall j :: 0 <= j < |db| && j !in links ==> r.value.0[j] == db[j]
    ensures r.Ok? && !r.value.1 ==> r.value.0 == db
    decreases |links|
  {
    if |links| == 0 then Ok((db, false))
    else
      var first :- Step(created, db, links[0]);
      AllUpgradableCons(created, first.0, db, links);
      var rest :- Pass(created, first.0, links[1..]);
      RetypedTrans(rest.0, first.0, db);
      Ok((rest.0, first.1 || rest.1))
  }

  /** A sweep that changes nothing leaves every link with its upgraded type:
      the loop stops at a fixpoint. */
  lemma {:induction false} PassSettles(created: set<int>, db: seq<Road>, links: seq<nat>)
    requires Within(db, links)
    requires Pass(created, db, links).Ok? && !Pass(created, db, links).value.1
    ensures Settled(created, db, links)
  {
    if |links| > 0 {
      QuietPassCons(created, db, links);
      PassSettles(created, db, links[1..]);
      SettledCons(created, db, links);
    }
  }

  /** A sweep that changes nothing changes nothing at its first link and
      nothing in the rest of the sweep. */
  lemma QuietPassCons(created: set<int>, db: seq<Road>, links: seq<nat>)
    requires Within(db, links) && |links| > 0
    requires Pass(created, db, links).Ok? && !Pass(created, db, links).value.1
    ensures UpgradedType(created, db, links[0]) == Ok(db[links[0]].calculated)
    ensures Within(db, links[1..])
    ensures Pass(created, db, links[1..]).Ok? && !Pass(created, db, links[1..]).value.1
  {
    var step := Step(created, db, links[0]);
    assert step.Ok? && !step.value.1;
    assert step.value.0 == db;
  }

  /** Settledness of the first link and of the rest is settledness of all. */
  lemma SettledCons(created: set<int>, db: seq<Road>, links: seq<nat>)
    requires Within(db, links) && |links| > 0
    requires UpgradedType(created, db, links[0]) == Ok(db[links[0]].calculated)
    requires Within(db, links[1..]) && Settled(created, db, links[1..])
    ensures Settled(created, db, links)
  {
    forall k | 0 <= k < |links|
      ensures UpgradedType(created, db, links[k]) == Ok(db[links[k]].calculated)
    {
      if k > 0 {
        assert links[k] == links[1..][k - 1];
      }
    }
  }

  /** The `while True` loop, given at most `fuel` sweeps: it stops after the
      first sweep that changes nothing. */
  function Loop(created: set<int>, db: seq<Road>, links: seq<nat>, fuel: nat): (r: Result<seq<Road>, LinkError>)
    requires Within(db, links)
    ensures r == Err(KeyError) <==> fuel > 0 && !AllUpgradable(created, db, links)
    ensures r.Ok? ==> Retyped(r.value, db) && Settled(created, r.value, links)
    ensures r.Ok? ==> forall j :: 0 <= j < |db| && j !in links ==> r.value[j] == db[j]
    decreases fuel
  {
    if fuel == 0 then Err(OutOfFuel)
    else
      var sweep :- Pass(created, db, links);
      if !sweep.1 then
        PassSettles(created, db, links);
        Ok(db)
      else
        RetypedUpgradable(created, sweep.0, db, links);
        var next :- Loop(created, sweep.0, links, fuel - 1);
        RetypedTrans(next, sweep.0, db);
        Ok(next)
  }

  /** The name a subtype is written under. */
  function SubName(st: SubType): string {
    match st
    case Known(t) => Name(t)
    case Other(name) => name
  }

  /** Names tell subtypes apart, so comparing the stored strings is
      comparing subtypes. */
  lemma SubNameInjective(a: SubType, b: SubType)
    requires a.Known? || Classify(a.name).Other?
    requires b.Known? || Classify(b.name).Other?
    ensures SubName(a) == SubName(b) <==> a == b
  {
    if a.Known? {
      ClassifyName(a.t);
    }
    if b.Known? {
      ClassifyName(b.t);
    }
  }

  /** An `UPDATE` statement of the output: the segment, by its line and
      first point, and its new `calculated_subtype`. */
  datatype Update = Update(line: int, pointStart: int, calculated: string)

  /** The rows whose `calculated_subtype` differs from their `subtype`,
      among the first `k`, in order. */
  function Changed(db: seq<Road>, k: nat): (r: seq<nat>)
    requires k <= |db|
    ensures Within(db, r)
    ensures forall j :: j in r <==> 0 <= j < k && db[j].calculated != db[j].subtype
    ensures forall i :: 0 <= i < |r| ==> r[i] < k
    ensures forall a, b :: 0 <= a < b < |r| ==> r[a] < r[b]
  {
    if k == 0 then []
    else
      var rest := Changed(db, k - 1);
      if db[k - 1].calculated != db[k - 1].subtype then rest + [k - 1] else rest
  }

  function Updates(db: seq<Road>): (r: seq<Update>)
    ensures var rows := Changed(db, |db|);
      |r| == |rows| &&
      forall i :: 0 <= i < |rows| ==>
        r[i] == Update(db[rows[i]].line, db[rows[i]].pointStart, SubName(db[rows[i]].calculated))
  {
    var rows := Changed(db, |db|);
    seq(|rows|, i requires 0 <= i < |rows| => Update(db[rows[i]].line, db[rows[i]].pointStart, SubName(db[rows[i]].calculated)))
  }

  /** `segments_link_types_sql`, up to the SQL text: the index must build,
      the links are swept until settled, and every segment whose type ended
      up changed gets an update. */
  function LinkTypes(created: set<int>, db: seq<Road>, fuel: nat): (r: Result<seq<Update>, LinkError>)
    ensures !IndexBuilds(created, db) ==> r == Err(KeyError)
    ensures r.Ok? ==> exists db2 ::
      (Retyped(db2, db) && Settled(created, db2, Links(db, |db|)) &&
       (forall j :: 0 <= j < |db| && !IsLink(db[j].subtype) ==> db2[j] == db[j]) &&
       r.value == Updates(db2))
  {
    if !IndexBuilds(created, db) then Err(KeyError)
    else
      var links := Links(db, |db|);
      var db2 :- Loop(created, db, links, fuel);
      Ok(Updates(db2))
  }

  /** A road that is no link keeps its type, so it gets an update only when
      it came in retyped. */
  lemma NonLinksKeepType(created: set<int>, db: seq<Road>, fuel: nat, j: nat)
    requires 0 <= j < |db| && !IsLink(db[j].subtype) && db[j].calculated == db[j].subtype
    requires Loop(created, db, Links(db, |db|), fuel).Ok?
    ensures j !in Changed(Loop(created, db, Links(db, |db|), fuel).value, |db|)
  {
  }
}
