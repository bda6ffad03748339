/** The lines of a `[Restrict]` record of an MP file: the nodes and roads of
    a turn restriction, its node count, and the vehicles it applies to. */
module MpRestrict {
  import opened Wrappers
  import opened Text

  /** The restriction's columns: `node_id_1` .. `node_id_4`, `road_id_1` ..
      `road_id_3`, `nod`, and the eight `not_for_<vehicle>` flags in the
      positional order of a `RestrParam` line: emergency, goods, car, bus,
      taxi, foot, bicycle, truck. */
  datatype Restriction = Restriction(
    nodes: seq<Option<int>>,
    roads: seq<Option<string>>,
    nod: Option<int>,
    notFor: seq<bool>)

  predicate Shaped(r: Restriction) {
    |r.nodes| == 4 && |r.roads| == 3 && |r.notFor| == 8
  }

  /** The record a `[Restrict]` header opens: every column unset. */
  const Empty: Restriction :=
    Restriction([None, None, None, None], [None, None, None], None, [false, false, false, false, false, false, false, false])

  datatype LineError = IndexError | ValueError

  /** A split gives more than one piece exactly when the separator occurs. */
  lemma {:induction false} SplitPieces(s: string, c: char)
    ensures |Split(s, c)| >= 2 <==> c in s
  {
    if c !in s {
      SplitWithout(s, c);
    } else if s[0] != c {
      SplitPieces(s[1..], c);
      assert c in s[1..] by {
        var i :| 0 <= i < |s| && s[i] == c;
        assert s[1..][i - 1] == c;
      }
    }
  }

  /** `line.split("=")[1]`: the text after the first `=` up to the next;
      a line without `=` raises `IndexError`. */
  function Value(line: string): (r: Result<string, LineError>)
    ensures r.Ok? <==> '=' in line
  {
    var parts := Split(line, '=');
    SplitPieces(line, '=');
    if |parts| < 2 then Err(IndexError) else Ok(parts[1])
  }

  function Min(a: nat, b: nat): nat {
    if a < b then a else b
  }

  /** `int(p)` for each piece, stopping at the first that is no integer. */
  function ParseInts(pieces: seq<string>): (r: Result<seq<int>, LineError>)
    ensures r.Ok? <==> forall k :: 0 <= k < |pieces| ==> ParseInt(pieces[k]).Some?
    ensures r.Ok? ==> |r.value| == |pieces|
    ensures r.Ok? ==> forall k :: 0 <= k < |pieces| ==> r.value[k] == ParseInt(pieces[k]).value
  {
    if |pieces| == 0 then Ok([])
    else
      match ParseInt(pieces[0])
      case None => Err(ValueError)
      case Some(v) =>
        var rest :- ParseInts(pieces[1..]);
        Ok([v] + rest)
  }

  /** Slots `0 .. |vs| - 1` of `slots` set to the values, the rest kept. */
  function Fill<T>(slots: seq<Option<T>>, vs: seq<T>): (r: seq<Option<T>>)
    requires |vs| <= |slots|
    ensures |r| == |slots|
    ensures forall k :: 0 <= k < |vs| ==> r[k] == Some(vs[k])
    ensures forall k :: |vs| <= k < |slots| ==> r[k] == slots[k]
  {
    if |vs| == 0 then slots else [Some(vs[0])] + Fill(slots[1..], vs[1..])
  }

  /** The flags after `RestrParam`: a flag is raised where the line's
      piece at its position is `1`, and no flag is ever lowered. */
  function Raise(notFor: seq<bool>, flags: seq<string>): (r: seq<bool>)
    requires |flags| <= |notFor|
    ensures |r| == |notFor|
    ensures forall k :: 0 <= k < |flags| ==> r[k] == (notFor[k] || Strip(flags[k]) == "1")
    ensures forall k :: |flags| <= k < |notFor| ==> r[k] == notFor[k]
  {
    seq(|notFor|, k requires 0 <= k < |notFor| => notFor[k] || (k < |flags| && Strip(flags[k]) == "1"))
  }

  /** The comma-separated pieces of the text after `=`, at most `n` of them. */
  function Pieces(v: string, n: nat): (r: seq<string>)
    ensures |r| == Min(n, |Split(Strip(v), ',')|)
    ensures forall k :: 0 <= k < |r| ==> r[k] == Split(Strip(v), ',')[k]
  {
    var pieces := Split(Strip(v), ',');
    pieces[..Min(n, |pieces|)]
  }

  /** `TraffPoints=`: the node columns, one per number, from the first four
      pieces; a piece that is no integer raises `ValueError`. */
  function TraffPoints(rec: Restriction, v: string): (r: Result<Restriction, LineError>)
    requires Shaped(rec)
    ensures var p := Pieces(v, 4);
      (r.Ok? <==> forall k :: 0 <= k < |p| ==> ParseInt(p[k]).Some?) &&
      (r.Ok? ==> r.value.roads == rec.roads && r.value.nod == rec.nod && r.value.notFor == rec.notFor) &&
      (r.Ok? ==> |r.value.nodes| == 4) &&
      (r.Ok? ==> forall k :: 0 <= k < |p| ==> r.value.nodes[k] == Some(ParseInt(p[k]).value)) &&
      (r.Ok? ==> forall k :: |p| <= k < 4 ==> r.value.nodes[k] == rec.nodes[k])
  {
    var ids :- ParseInts(Pieces(v, 4));
    Ok(rec.(nodes := Fill(rec.nodes, ids)))
  }

  /** `TraffRoads=`: the road columns from the first three pieces. */
  function TraffRoads(rec: Restriction, v: string): (r: Restriction)
    requires Shaped(rec)
    ensures var p := Pieces(v, 3);
      r.nodes == rec.nodes && r.nod == rec.nod && r.notFor == rec.notFor && |r.roads| == 3 &&
      (forall k :: 0 <= k < |p| ==> r.roads[k] == Some(p[k])) &&
      (forall k :: |p| <= k < 3 ==> r.roads[k] == rec.roads[k])
  {
    rec.(roads := Fill(rec.roads, Pieces(v, 3)))
  }

  /** `RestrParam=`: the flags of the vehicles whose piece is `1` raised;
      pieces past the eighth are ignored. */
  function RestrParam(rec: Restriction, v: string): (r: Restriction)
    requires Shaped(rec)
    ensures var p := Pieces(v, 8);
      r.nodes == rec.nodes && r.roads == rec.roads && r.nod == rec.nod && |r.notFor| == 8 &&
      (forall k :: 0 <= k < |p| ==> r.notFor[k] == (rec.notFor[k] || Strip(p[k]) == "1")) &&
      (forall k :: |p| <= k < 8 ==> r.notFor[k] == rec.notFor[k])
  {
    rec.(notFor := Raise(rec.notFor, Pieces(v, 8)))
  }

  /** `MPRestrict.handle_line`: whether the line was understood, and the
      record after it. The four line kinds are told apart by their prefix,
      in this order; any other line is understood only when it is blank,
      and changes nothing. */
  function HandleLine(rec: Restriction, line: string): (r: Result<(bool, Restriction), LineError>)
    requires Shaped(rec)
    ensures r.Ok? ==> Shaped(r.value.1)
    ensures StartsWith(line, "TraffPoints") || StartsWith(line, "TraffRoads") ||
            StartsWith(line, "Nod") || StartsWith(line, "RestrParam") ==>
            (r.Ok? ==> r.value.0) && ('=' !in line ==> r == Err(IndexError))
    ensures StartsWith(line, "TraffPoints") && '=' in line ==>
            r == (var t := TraffPoints(rec, Value(line).value); if t.Ok? then Ok((true, t.value)) else Err(t.error))
    ensures !StartsWith(line, "TraffPoints") && StartsWith(line, "TraffRoads") && '=' in line ==>
            r == Ok((true, TraffRoads(rec, Value(line).value)))
    ensures !StartsWith(line, "TraffPoints") && !StartsWith(line, "TraffRoads") && StartsWith(line, "Nod") && '=' in line ==>
            (r.Ok? <==> ParseInt(Strip(Value(line).value)).Some?) &&
            (r.Ok? ==> r.value.1 == rec.(nod := ParseInt(Strip(Value(line).value))))
    ensures !StartsWith(line, "TraffPoints") && !StartsWith(line, "TraffRoads") && !StartsWith(line, "Nod") &&
            StartsWith(line, "RestrParam") && '=' in line ==>
            r == Ok((true, RestrParam(rec, Value(line).value)))
    ensures !StartsWith(line, "TraffPoints") && !StartsWith(line, "TraffRoads") &&
            !StartsWith(line, "Nod") && !StartsWith(line, "RestrParam") ==>
            r == Ok((Strip(line) == "", rec))
  {
    if StartsWith(line, "TraffPoints") then
      var v :- Value(line);
      var next :- TraffPoints(rec, v);
      Ok((true, next))
    else if StartsWith(line, "TraffRoads") then
      var v :- Value(line);
      Ok((true, TraffRoads(rec, v)))
    else if StartsWith(line, "Nod") then
      var v :- Value(line);
      match ParseInt(Strip(v))
      case None => Err(ValueError)
      case Some(n) => Ok((true, rec.(nod := Some(n))))
    else if StartsWith(line, "RestrParam") then
      var v :- Value(line);
      Ok((true, RestrParam(rec, v)))
    else
      Ok((Strip(line) == "", rec))
  }
}
