/** The GEOS geometries the exporter and the processors see, reduced to their
    class and coordinates. */
module Geometry {
  /** A coordinate pair: longitude (x) then latitude (y). */
  datatype Coord = Coord(x: real, y: real)

  datatype CollectionKind = MultiPoint | MultiLineString | MultiPolygon | GeometryCollection

  datatype Geom =
    | Point(at: Coord)
    | LineString(coords: seq<Coord>)
    | Polygon(rings: seq<seq<Coord>>)   // ring 0 is the exterior ring
    | Collection(kind: CollectionKind, parts: seq<Geom>)

  /** The GEOS classes an `isinstance` test can name. */
  datatype GeomClass =
    | PointClass | LineStringClass | PolygonClass
    | MultiPointClass | MultiLineStringClass | MultiPolygonClass | GeometryCollectionClass

  function ClassOf(g: Geom): GeomClass {
    match g
    case Point(_) => PointClass
    case LineString(_) => LineStringClass
    case Polygon(_) => PolygonClass
    case Collection(k, _) =>
      match k
      case MultiPoint => MultiPointClass
      case MultiLineString => MultiLineStringClass
      case MultiPolygon => MultiPolygonClass
      case GeometryCollection => GeometryCollectionClass
  }

  /** `isinstance(g, c)`: the multi-geometries are subclasses of
      `GeometryCollection`. */
  predicate IsInstance(g: Geom, c: GeomClass) {
    ClassOf(g) == c || (c == GeometryCollectionClass && g.Collection?)
  }

  /** `isinstance(g, classes)` for a tuple of classes. */
  predicate IsInstanceOfAny(g: Geom, classes: set<GeomClass>) {
    exists c :: c in classes && IsInstance(g, c)
  }

  /** The `geom_type` property. */
  function GeomType(g: Geom): string {
    match ClassOf(g)
    case PointClass => "Point"
    case LineStringClass => "LineString"
    case PolygonClass => "Polygon"
    case MultiPointClass => "MultiPoint"
    case MultiLineStringClass => "MultiLineString"
    case MultiPolygonClass => "MultiPolygon"
    case GeometryCollectionClass => "GeometryCollection"
  }

  /** What a multi-geometry may hold: a MultiPoint only points, a
      MultiLineString only lines, a MultiPolygon only polygons. */
  predicate PartOfKind(k: CollectionKind, p: Geom) {
    match k
    case MultiPoint => p.Point?
    case MultiLineString => p.LineString?
    case MultiPolygon => p.Polygon?
    case GeometryCollection => true
  }

  /** The shapes GEOS can build: every part of a collection fits its kind. */
  predicate WellFormed(g: Geom) {
    match g
    case Collection(k, parts) => forall i :: 0 <= i < |parts| ==> PartOfKind(k, parts[i]) && WellFormed(parts[i])
    case _ => true
  }
}
