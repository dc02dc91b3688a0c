/**
 * The statement commands the converter accepts and the typed theorem
 * statements it produces for the algebraic provers.
 */
module ThmStatements {
  import opened GeoObjects

  /** The kinds of statement command the algebraic-prover converter handles. */
  datatype CommandKind = Collinear | Concurrent | Equal | Parallel | Perpendicular

  /** The number of argument names each command kind takes. */
  function Arity(kind: CommandKind): nat {
    match kind
    case Collinear => 3
    case Concurrent => 3
    case Equal => 2
    case Parallel => 2
    case Perpendicular => 2
  }

  /** A typed theorem statement; each variant holds the objects it was built from. */
  datatype ThmStatement =
    | CollinearPoints(points: seq<Point>)
    | ConcurrentLines(lines: seq<Line>)
    | ConcurrentCircles(circles: seq<Circle>)
    | IdenticalPoints(p1: Point, p2: Point)
    | SegmentsOfEqualLengths(s1: Segment, s2: Segment)
    | EqualAngles(a1: Angle, a2: Angle)
    | TwoParallelLines(l1: Line, l2: Line)
    | TwoPerpendicularLines(l1: Line, l2: Line)

  /** The command kind whose conversion yields statements of this variant. */
  function CommandOf(s: ThmStatement): CommandKind {
    match s
    case CollinearPoints(_) => Collinear
    case ConcurrentLines(_) => Concurrent
    case ConcurrentCircles(_) => Concurrent
    case IdenticalPoints(_, _) => Equal
    case SegmentsOfEqualLengths(_, _) => Equal
    case EqualAngles(_, _) => Equal
    case TwoParallelLines(_, _) => Parallel
    case TwoPerpendicularLines(_, _) => Perpendicular
  }

  /** The objects a statement refers to, in argument order. */
  function Objects(s: ThmStatement): seq<GeoObject> {
    match s
    case CollinearPoints(ps) => seq(|ps|, i requires 0 <= i < |ps| => PointObject(ps[i]))
    case ConcurrentLines(ls) => seq(|ls|, i requires 0 <= i < |ls| => LineObject(ls[i]))
    case ConcurrentCircles(cs) => seq(|cs|, i requires 0 <= i < |cs| => CircleObject(cs[i]))
    case IdenticalPoints(p1, p2) => [PointObject(p1), PointObject(p2)]
    case SegmentsOfEqualLengths(s1, s2) => [SegmentObject(s1), SegmentObject(s2)]
    case EqualAngles(a1, a2) => [AngleObject(a1), AngleObject(a2)]
    case TwoParallelLines(l1, l2) => [LineObject(l1), LineObject(l2)]
    case TwoPerpendicularLines(l1, l2) => [LineObject(l1), LineObject(l2)]
  }

  /** The names of the objects a statement refers to, in argument order. */
  function ArgNames(s: ThmStatement): (names: seq<string>)
    ensures |names| == |Objects(s)|
  {
    var objs := Objects(s);
    seq(|objs|, i requires 0 <= i < |objs| => objs[i].Name())
  }

  /** The statement refers to as many objects as its command kind takes. */
  predicate WellFormed(s: ThmStatement) {
    |Objects(s)| == Arity(CommandOf(s))
  }
}
