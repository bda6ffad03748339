/** The geometry processors a layer may be configured with: the shared
    `process` dispatch of `BaseProcessor`, its warning log, and the line
    reverser. */
module Processing {
  import opened Wrappers
  import opened Geometry
  import opened Seqs

  datatype ProcError =
    | InvalidGeometryType(geomType: string)   // the processor's `Error`
    | NoSuchAttribute(name: string)           // Python's `AttributeError`

  /** The class attributes `process` consults: the accepted classes
      (`geom_types`, none when empty) and whether `handle` takes whole
      collections (`multi_geometries`). */
  datatype Processor = Processor(geomTypes: set<GeomClass>, multiGeometries: bool)

  // ---------------------------------------------------------------------------
  // warn

  /** `if id:` — a missing or empty id adds no prefix. */
  predicate Truthy(id: Option<string>) {
    id.Some? && id.value != ""
  }

  /** `BaseProcessor.warn`: the warnings with the message appended, after
      `"<id>: "` when the id is truthy. */
  function Warn(warnings: seq<string>, message: string, id: Option<string>): (r: seq<string>)
    ensures |r| == |warnings| + 1 && r[..|warnings|] == warnings
    ensures var last := r[|warnings|];
      |last| >= |message| && last[|last| - |message|..] == message
    ensures Truthy(id) ==> var last := r[|warnings|];
      last[..|last| - |message|] == id.value + ": "
    ensures !Truthy(id) ==> r[|warnings|] == message
  {
    var line := if Truthy(id) then id.value + ": " + message else message;
    warnings + [line]
  }

  // ---------------------------------------------------------------------------
  // process

  /** `handle` applied to each part in turn, stopping at the first error. */
  function HandleEach(handle: Geom -> Result<Geom, ProcError>, parts: seq<Geom>): (r: Result<seq<Geom>, ProcError>)
    ensures r.Ok? <==> forall i :: 0 <= i < |parts| ==> handle(parts[i]).Ok?
    ensures r.Ok? ==> |r.value| == |parts| && forall i :: 0 <= i < |parts| ==> r.value[i] == handle(parts[i]).value
    ensures r.Err? ==> exists i :: 0 <= i < |parts| && handle(parts[i]) == Err(r.error) &&
                                   forall j :: 0 <= j < i ==> handle(parts[j]).Ok?
  {
    if |parts| == 0 then Ok([])
    else
      var first :- handle(parts[0]);
      var rest := HandleEach(handle, parts[1..]);
      assert forall i :: 1 <= i < |parts| ==> parts[i] == parts[1..][i - 1];
      if rest.Err? then
        var k :| 0 <= k < |parts| - 1 && handle(parts[1..][k]) == Err(rest.error) &&
                 forall j :: 0 <= j < k ==> handle(parts[1..][j]).Ok?;
        assert forall j :: 1 <= j < k + 1 ==> handle(parts[j]).Ok?;
        Err(rest.error)
      else Ok([first] + rest.value)
  }

  /** The geometry gets past the processor's class check. */
  predicate Accepted(p: Processor, g: Geom) {
    p.geomTypes == {} || IsInstanceOfAny(g, p.geomTypes)
  }

  /** `process` splits the geometry into its parts. */
  predicate Splits(p: Processor, g: Geom) {
    !p.multiGeometries && g.Collection?
  }

  /** `BaseProcessor.process`: nothing for no geometry; `Error` for a class
      the processor does not take; a collection rebuilt from its handled
      parts when the processor handles parts; otherwise `handle` on the
      whole geometry. */
  function Process(p: Processor, handle: Geom -> Result<Geom, ProcError>, g: Option<Geom>): (r: Result<Option<Geom>, ProcError>)
    ensures g.None? ==> r == Ok(None)
    ensures g.Some? && !Accepted(p, g.value) ==> r == Err(InvalidGeometryType(GeomType(g.value)))
    ensures g.Some? && Accepted(p, g.value) && Splits(p, g.value) ==>
      var parts := g.value.parts;
      (r.Ok? <==> forall i :: 0 <= i < |parts| ==> handle(parts[i]).Ok?) &&
      (r.Ok? ==> r.value.Some? && r.value.value.Collection? && r.value.value.kind == g.value.kind &&
                 |r.value.value.parts| == |parts| &&
                 forall i :: 0 <= i < |parts| ==> r.value.value.parts[i] == handle(parts[i]).value)
    ensures g.Some? && Accepted(p, g.value) && !Splits(p, g.value) ==>
      (r.Ok? <==> handle(g.value).Ok?) &&
      (r.Ok? ==> r.value == Some(handle(g.value).value)) &&
      (r.Err? ==> r.error == handle(g.value).error)
  {
    match g
    case None => Ok(None)
    case Some(geom) =>
      if !Accepted(p, geom) then Err(InvalidGeometryType(GeomType(geom)))
      else if Splits(p, geom) then
        var parts :- HandleEach(handle, geom.parts);
        Ok(Some(Collection(geom.kind, parts)))
      else
        var h :- handle(geom);
        Ok(Some(h))
  }

  // ---------------------------------------------------------------------------
  // ReverseLine

  /** `ReverseLine`'s attributes: lines and multi-lines only, handled part by
      part. */
  const ReverseLineProcessor: Processor :=
    Processor({LineStringClass, MultiLineStringClass}, false)

  predicate IsMultiLine(g: Geom) {
    g.Collection? && g.kind == MultiLineString
  }

  /** `ReverseLine.handle` as written: a line comes back with its
      coordinates in reverse order, but a multi-line asks the `geos` module
      for `MultiLinestring`, a name it does not have. `process` keeps every
      other class away from `handle`; called directly on one, GEOS's own
      list reversal would run, which is not modelled, and the result is the
      type error `process` would raise. */
  function ReverseHandleAsWritten(g: Geom): (r: Result<Geom, ProcError>)
    ensures g.LineString? ==> r == Ok(LineString(Reverse(g.coords)))
    ensures IsMultiLine(g) ==> r == Err(NoSuchAttribute("MultiLinestring"))
  {
    match g
    case LineString(cs) => Ok(LineString(Reverse(cs)))
    case Collection(MultiLineString, _) => Err(NoSuchAttribute("MultiLinestring"))
    case _ => Err(InvalidGeometryType(GeomType(g)))
  }

  /** `ReverseLine.handle` as evidently intended: a multi-line is rebuilt
      from its reversed lines, in their order. */
  function ReverseHandle(g: Geom): (r: Result<Geom, ProcError>)
    ensures g.LineString? ==> r == Ok(LineString(Reverse(g.coords)))
    ensures IsMultiLine(g) && (forall i :: 0 <= i < |g.parts| ==> g.parts[i].LineString?) ==>
      r.Ok? && r.value.Collection? && r.value.kind == MultiLineString && |r.value.parts| == |g.parts| &&
      forall i :: 0 <= i < |g.parts| ==> r.value.parts[i] == LineString(Reverse(g.parts[i].coords))
    decreases g, 1
  {
    match g
    case LineString(cs) => Ok(LineString(Reverse(cs)))
    case Collection(MultiLineString, parts) =>
      var ps :- ReverseEach(g, parts);
      Ok(Collection(MultiLineString, ps))
    case _ => Err(InvalidGeometryType(GeomType(g)))
  }

  /** The parts of `whole`, each through `ReverseHandle`. */
  function ReverseEach(whole: Geom, parts: seq<Geom>): (r: Result<seq<Geom>, ProcError>)
    requires forall i :: 0 <= i < |parts| ==> parts[i] < whole
    ensures r.Ok? <==> forall i :: 0 <= i < |parts| ==> ReverseHandle(parts[i]).Ok?
    ensures r.Ok? ==> |r.value| == |parts| && forall i :: 0 <= i < |parts| ==> r.value[i] == ReverseHandle(parts[i]).value
    decreases whole, 0, |parts|
  {
    if |parts| == 0 then Ok([])
    else
      var first :- ReverseHandle(parts[0]);
      var rest :- ReverseEach(whole, parts[1..]);
      assert forall i :: 1 <= i < |parts| ==> parts[i] == parts[1..][i - 1];
      Ok([first] + rest)
  }

  /** Through `process` a line is reversed, a multi-line is reversed line by
      line keeping the order of its lines, and every other geometry is
      refused. */
  lemma ReverseLineProcess(g: Geom)
    requires WellFormed(g)
    ensures var r := Process(ReverseLineProcessor, ReverseHandleAsWritten, Some(g));
      (g.LineString? ==> r == Ok(Some(LineString(Reverse(g.coords))))) &&
      (IsMultiLine(g) ==>
         (r.Ok? && r.value.Some? && r.value.value.Collection? &&
          r.value.value.kind == MultiLineString && |r.value.value.parts| == |g.parts| &&
          forall i :: 0 <= i < |g.parts| ==> r.value.value.parts[i] == LineString(Reverse(g.parts[i].coords)))) &&
      (!g.LineString? && !IsMultiLine(g) ==> r == Err(InvalidGeometryType(GeomType(g))))
  {
    if IsMultiLine(g) {
      assert IsInstance(g, MultiLineStringClass);
      assert forall i :: 0 <= i < |g.parts| ==> PartOfKind(MultiLineString, g.parts[i]);
    } else if g.LineString? {
      assert IsInstance(g, LineStringClass);
    }
  }

  /** Inside `process` the misspelt name is never reached: the multi-line is
      split before `handle` sees it, so the written and the intended
      `handle` give the same results. */
  lemma ProcessMasksMultiLine(g: Option<Geom>)
    requires g.Some? ==> WellFormed(g.value)
    ensures Process(ReverseLineProcessor, ReverseHandleAsWritten, g) == Process(ReverseLineProcessor, ReverseHandle, g)
  {
    if g.Some? && Accepted(ReverseLineProcessor, g.value) && Splits(ReverseLineProcessor, g.value) {
      var parts := g.value.parts;
      assert IsMultiLine(g.value);
      forall i | 0 <= i < |parts|
        ensures ReverseHandleAsWritten(parts[i]) == ReverseHandle(parts[i])
      {
        assert PartOfKind(MultiLineString, parts[i]);
      }
      HandleEachSame(ReverseHandleAsWritten, ReverseHandle, parts);
    }
  }

  /** Handles that agree on every part agree on the parts together. */
  lemma {:induction false} HandleEachSame(f: Geom -> Result<Geom, ProcError>, h: Geom -> Result<Geom, ProcError>, parts: seq<Geom>)
    requires forall i :: 0 <= i < |parts| ==> f(parts[i]) == h(parts[i])
    ensures HandleEach(f, parts) == HandleEach(h, parts)
  {
    if |parts| > 0 {
      HandleEachSame(f, h, parts[1..]);
      assert forall i :: 1 <= i < |parts| ==> parts[i] == parts[1..][i - 1];
    }
  }

  /** Processing the processed line or multi-line again gives it back. */
  lemma {:induction false} ReverseLineTwice(g: Geom)
    requires WellFormed(g) && (g.LineString? || IsMultiLine(g))
    ensures var once := Process(ReverseLineProcessor, ReverseHandleAsWritten, Some(g));
      once.Ok? && once.value.Some? &&
      Process(ReverseLineProcessor, ReverseHandleAsWritten, once.value) == Ok(Some(g))
  {
    ReverseLineProcess(g);
    var h := Process(ReverseLineProcessor, ReverseHandleAsWritten, Some(g)).value.value;
    if g.LineString? {
      ReverseReverse(g.coords);
      assert h == LineString(Reverse(g.coords));
    } else {
      forall i | 0 <= i < |h.parts|
        ensures PartOfKind(MultiLineString, h.parts[i]) && WellFormed(h.parts[i])
      {
        assert PartOfKind(MultiLineString, g.parts[i]);
      }
      assert WellFormed(h);
      ReverseLineProcess(h);
      var back := Process(ReverseLineProcessor, ReverseHandleAsWritten, Some(h)).value.value;
      forall i | 0 <= i < |g.parts|
        ensures back.parts[i] == g.parts[i]
      {
        assert PartOfKind(MultiLineString, g.parts[i]);
        ReverseReverse(g.parts[i].coords);
      }
      assert back == g;
    }
  }

  /** The line from (0, 0) to (1, 1) comes back from (1, 1) to (0, 0). */
  lemma ReverseLineExample()
    ensures ReverseHandleAsWritten(LineString([Coord(0.0, 0.0), Coord(1.0, 1.0)])) ==
            Ok(LineString([Coord(1.0, 1.0), Coord(0.0, 0.0)]))
  {
    var cs := [Coord(0.0, 0.0), Coord(1.0, 1.0)];
    assert Reverse(cs) == [Coord(1.0, 1.0), Coord(0.0, 0.0)];
  }

  /** Called directly on a multi-line of two lines, the written `handle`
      fails where the intended one reverses both lines. */
  lemma DirectMultiLineFails(l: seq<Coord>)
    ensures var m := Collection(MultiLineString, [LineString(l), LineString(l)]);
      ReverseHandleAsWritten(m) == Err(NoSuchAttribute("MultiLinestring")) &&
      ReverseHandle(m) == Ok(Collection(MultiLineString, [LineString(Reverse(l)), LineString(Reverse(l))]))
  {
    var m := Collection(MultiLineString, [LineString(l), LineString(l)]);
    assert forall i :: 0 <= i < |m.parts| ==> m.parts[i].LineString?;
    var r := ReverseHandle(m).value;
    assert r.parts == [LineString(Reverse(l)), LineString(Reverse(l))];
  }
}
