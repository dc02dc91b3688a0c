/**
 * The geometric objects a statement can refer to, and the name-to-object
 * tables (the construction map and the auxiliary-objects map) the converter
 * resolves argument names against. Only an object's name, its class and its
 * identity matter here; the geometry it carries is opaque.
 */
module GeoObjects {
  import opened Wrappers

  /** `id` stands for the Java object's reference identity. */
  datatype Point = Point(name: string, id: nat)
  datatype Line = Line(name: string, id: nat)
  datatype Circle = Circle(name: string, id: nat)
  datatype Segment = Segment(name: string, id: nat)
  datatype Angle = Angle(name: string, id: nat)

  /** The closed set of object classes the converter tells apart with `instanceof`. */
  datatype Kind = PointKind | LineKind | CircleKind | SegmentKind | AngleKind

  /** A geometric object as stored in a table: exactly one of the five classes. */
  datatype GeoObject =
    | PointObject(point: Point)
    | LineObject(line: Line)
    | CircleObject(circle: Circle)
    | SegmentObject(segment: Segment)
    | AngleObject(angle: Angle)
  {
    function Kind(): Kind {
      match this
      case PointObject(_) => PointKind
      case LineObject(_) => LineKind
      case CircleObject(_) => CircleKind
      case SegmentObject(_) => SegmentKind
      case AngleObject(_) => AngleKind
    }

    function Name(): string {
      match this
      case PointObject(p) => p.name
      case LineObject(l) => l.name
      case CircleObject(c) => c.name
      case SegmentObject(s) => s.name
      case AngleObject(a) => a.name
    }
  }

  /* The Java downcasts `(Point) o`, `(Line) o`, ... on a non-null reference:
     `None` is the ClassCastException. */

  function AsPoint(o: GeoObject): (r: Option<Point>)
    ensures r.Some? <==> o.Kind() == PointKind
    ensures r.Some? ==> o == PointObject(r.value)
  {
    if o.PointObject? then Some(o.point) else None
  }

  function AsLine(o: GeoObject): (r: Option<Line>)
    ensures r.Some? <==> o.Kind() == LineKind
    ensures r.Some? ==> o == LineObject(r.value)
  {
    if o.LineObject? then Some(o.line) else None
  }

  function AsCircle(o: GeoObject): (r: Option<Circle>)
    ensures r.Some? <==> o.Kind() == CircleKind
    ensures r.Some? ==> o == CircleObject(r.value)
  {
    if o.CircleObject? then Some(o.circle) else None
  }

  function AsSegment(o: GeoObject): (r: Option<Segment>)
    ensures r.Some? <==> o.Kind() == SegmentKind
    ensures r.Some? ==> o == SegmentObject(r.value)
  {
    if o.SegmentObject? then Some(o.segment) else None
  }

  function AsAngle(o: GeoObject): (r: Option<Angle>)
    ensures r.Some? <==> o.Kind() == AngleKind
    ensures r.Some? ==> o == AngleObject(r.value)
  {
    if o.AngleObject? then Some(o.angle) else None
  }

  /** A name-to-object table; a name that is not a key reads as `null`. */
  type SymbolTable = map<string, GeoObject>

  /** `Map.get`: the object bound to `name`, or `None` for `null`. */
  function Lookup(m: SymbolTable, name: string): (r: Option<GeoObject>)
    ensures r.Some? <==> name in m
    ensures r.Some? ==> r.value == m[name]
  {
    if name in m then Some(m[name]) else None
  }

  /** Every one of `names` is bound in `m`. */
  predicate AllBound(m: SymbolTable, names: seq<string>) {
    forall i :: 0 <= i < |names| ==> names[i] in m
  }

  /** `name` is bound in `m` to an object of class `k`. */
  predicate BoundTo(m: SymbolTable, name: string, k: Kind) {
    name in m && m[name].Kind() == k
  }

  /** `name` is bound in `m` to an object of some class other than `k`. */
  predicate BoundToOther(m: SymbolTable, name: string, k: Kind) {
    name in m && m[name].Kind() != k
  }

  /** Every key names the object it is bound to, as the construction protocol keeps it. */
  predicate NameConsistent(m: SymbolTable) {
    forall name :: name in m ==> m[name].Name() == name
  }

  /** `m` and `m'` bind each of `names` alike (or leave it unbound alike). */
  predicate AgreeOn(m: SymbolTable, m': SymbolTable, names: seq<string>) {
    forall i :: 0 <= i < |names| ==> Lookup(m, names[i]) == Lookup(m', names[i])
  }
}
