/**
 * The statement converter for the algebraic provers: one conversion per
 * command kind, each checking the argument count, resolving the argument
 * names, dispatching on the class of the first resolved object and building
 * the typed statement. The Java converter returns `null` on every failure and logs
 * which one happened; here the failure is kept as a tag, and `ToOption()`
 * gives back the caller's view (a statement or `null`).
 */
module StatConverter {
  import opened Wrappers
  import opened GeoObjects
  import opened ThmStatements
  import opened Resolution

  /** One tag per failure message the converter logs. */
  datatype Failure =
    | WrongArity       // incorrect number of arguments
    | MissingArgument  // an argument name resolved to null
    | UnsupportedType  // the first object's class has no matching statement
    | CastFailure      // a ClassCastException: an object of the wrong class

  type Conversion = Result<ThmStatement, Failure>

  /**
   * Shared by Collinear, Parallel and Perpendicular: `(T) cp.get(name)` for
   * each name, then the null check. A bound object of the wrong class fails
   * with CastFailure even when another name is unbound, because every cast
   * happens before the null check.
   */
  function CastArgs<T>(m: SymbolTable, names: seq<string>, cast: GeoObject -> Option<T>): (r: Result<seq<T>, Failure>)
    ensures r.Success? <==> forall i :: 0 <= i < |names| ==> names[i] in m && cast(m[names[i]]).Some?
    ensures r.Success? ==> |r.value| == |names|
    ensures r.Success? ==> forall i :: 0 <= i < |names| ==> cast(m[names[i]]) == Some(r.value[i])
    ensures r.Failure? ==> r.error in {CastFailure, MissingArgument}
    ensures r.Failure? ==> (r.error == CastFailure <==> exists i :: 0 <= i < |names| && names[i] in m && cast(m[names[i]]).None?)
  {
    match CastLookups(m, names, cast)
    case None => Failure(CastFailure)
    case Some(slots) =>
      match AllPresent(slots)
      case None => Failure(MissingArgument)
      case Some(xs) => Success(xs)
  }

  /** Collinear(p1, p2, p3): three Points of the construction map, in argument order. */
  function ConvertCollinear(args: seq<string>, cp: SymbolTable): (r: Conversion)
    ensures |args| != 3 ==> r == Failure(WrongArity)
    ensures r.Success? <==> |args| == 3 && forall i :: 0 <= i < 3 ==> BoundTo(cp, args[i], PointKind)
    ensures (&& |args| == 3
             && (exists i :: 0 <= i < 3 && BoundToOther(cp, args[i], PointKind)))
      ==> r == Failure(CastFailure)
    ensures (&& |args| == 3
             && (forall i :: 0 <= i < 3 ==> !BoundToOther(cp, args[i], PointKind))
             && !AllBound(cp, args))
      ==> r == Failure(MissingArgument)
    ensures r.Success? ==> CommandOf(r.value) == Collinear && Objects(r.value) == [cp[args[0]], cp[args[1]], cp[args[2]]]
  {
    if |args| != 3 then Failure(WrongArity)
    else
      match CastArgs(cp, args, AsPoint)
      case Failure(e) => Failure(e)
      case Success(points) =>
        var s := CollinearPoints(points);
        assert Objects(s) == [cp[args[0]], cp[args[1]], cp[args[2]]];
        Success(s)
  }

  /**
   * The statement for Concurrent once its objects are resolved: the class of
   * the first object picks Lines or Circles, and every other object must be
   * castable to that class.
   */
  function ConcurrentStatement(objs: seq<GeoObject>): (r: Conversion)
    requires |objs| > 0
    ensures r.Success? <==>
              || (forall i :: 0 <= i < |objs| ==> objs[i].Kind() == LineKind)
              || (forall i :: 0 <= i < |objs| ==> objs[i].Kind() == CircleKind)
    ensures objs[0].Kind() !in {LineKind, CircleKind} ==> r == Failure(UnsupportedType)
    ensures objs[0].Kind() in {LineKind, CircleKind} && r.Failure? ==> r.error == CastFailure
    ensures r.Success? ==> CommandOf(r.value) == Concurrent && Objects(r.value) == objs
  {
    match objs[0]
    case LineObject(_) =>
      (match CastAll(objs, AsLine)
       case None => Failure(CastFailure)
       case Some(lines) =>
         var s := ConcurrentLines(lines);
         assert Objects(s) == objs;
         Success(s))
    case CircleObject(_) =>
      (match CastAll(objs, AsCircle)
       case None => Failure(CastFailure)
       case Some(circles) =>
         var s := ConcurrentCircles(circles);
         assert Objects(s) == objs;
         Success(s))
    case _ => Failure(UnsupportedType)
  }

  /** Concurrent(a, b, c): three Lines or three Circles of the construction map. */
  function ConvertConcurrent(args: seq<string>, cp: SymbolTable): (r: Conversion)
    ensures |args| != 3 ==> r == Failure(WrongArity)
    ensures |args| == 3 && !AllBound(cp, args) ==> r == Failure(MissingArgument)
    ensures r.Success? <==> |args| == 3 && ((forall i :: 0 <= i < 3 ==> BoundTo(cp, args[i], LineKind))
                                         || (forall i :: 0 <= i < 3 ==> BoundTo(cp, args[i], CircleKind)))
    ensures (&& |args| == 3
             && AllBound(cp, args)
             && cp[args[0]].Kind() !in {LineKind, CircleKind})
      ==> r == Failure(UnsupportedType)
    ensures (&& |args| == 3
             && AllBound(cp, args)
             && cp[args[0]].Kind() in {LineKind, CircleKind}
             && (exists i :: 0 <= i < 3 && cp[args[i]].Kind() != cp[args[0]].Kind()))
      ==> r == Failure(CastFailure)
    ensures r.Success? ==> CommandOf(r.value) == Concurrent && Objects(r.value) == [cp[args[0]], cp[args[1]], cp[args[2]]]
  {
    if |args| != 3 then Failure(WrongArity)
    else
      match LookupAll(cp, args)
      case None => Failure(MissingArgument)
      case Some(objs) =>
        assert objs == [cp[args[0]], cp[args[1]], cp[args[2]]];
        ConcurrentStatement(objs)
  }

  /**
   * The statement for Equal once both objects are resolved: the class of the
   * first picks IdenticalPoints, SegmentsOfEqualLengths or EqualAngles, and the
   * second must be castable to the same class.
   */
  function EqualStatement(o1: GeoObject, o2: GeoObject): (r: Conversion)
    ensures r.Success? <==> o1.Kind() == o2.Kind() && o1.Kind() in {PointKind, SegmentKind, AngleKind}
    ensures o1.Kind() !in {PointKind, SegmentKind, AngleKind} ==> r == Failure(UnsupportedType)
    ensures o1.Kind() in {PointKind, SegmentKind, AngleKind} && o2.Kind() != o1.Kind() ==> r == Failure(CastFailure)
    ensures r.Success? ==> CommandOf(r.value) == Equal && Objects(r.value) == [o1, o2]
  {
    match o1
    case PointObject(p1) =>
      (match AsPoint(o2)
       case None => Failure(CastFailure)
       case Some(p2) => Success(IdenticalPoints(p1, p2)))
    case SegmentObject(s1) =>
      (match AsSegment(o2)
       case None => Failure(CastFailure)
       case Some(s2) => Success(SegmentsOfEqualLengths(s1, s2)))
    case AngleObject(a1) =>
      (match AsAngle(o2)
       case None => Failure(CastFailure)
       case Some(a2) => Success(EqualAngles(a1, a2)))
    case _ => Failure(UnsupportedType)
  }

  /**
   * Equal(a, b): both objects from the auxiliary map when it binds both names,
   * otherwise both from the construction map; never one from each.
   */
  function ConvertEqual(args: seq<string>, cp: SymbolTable, aux: SymbolTable): (r: Conversion)
    ensures |args| != 2 ==> r == Failure(WrongArity)
    ensures |args| == 2 && !AllBound(aux, args) && !AllBound(cp, args) ==> r == Failure(MissingArgument)
    ensures |args| == 2 && AllBound(aux, args) ==> r == EqualStatement(aux[args[0]], aux[args[1]])
    ensures |args| == 2 && !AllBound(aux, args) && AllBound(cp, args) ==> r == EqualStatement(cp[args[0]], cp[args[1]])
  {
    if |args| != 2 then Failure(WrongArity)
    else
      match ResolveEqualArgs(args, cp, aux)
      case None => Failure(MissingArgument)
      case Some(objs) => EqualStatement(objs[0], objs[1])
  }

  /** Parallel(l1, l2): two Lines of the construction map, in argument order. */
  function ConvertParallel(args: seq<string>, cp: SymbolTable): (r: Conversion)
    ensures |args| != 2 ==> r == Failure(WrongArity)
    ensures r.Success? <==> |args| == 2 && forall i :: 0 <= i < 2 ==> BoundTo(cp, args[i], LineKind)
    ensures |args| == 2 && (exists i :: 0 <= i < 2 && BoundToOther(cp, args[i], LineKind)) ==> r == Failure(CastFailure)
    ensures (&& |args| == 2
             && (forall i :: 0 <= i < 2 ==> !BoundToOther(cp, args[i], LineKind))
             && !AllBound(cp, args))
      ==> r == Failure(MissingArgument)
    ensures r.Success? ==> r.value.TwoParallelLines? && Objects(r.value) == [cp[args[0]], cp[args[1]]]
  {
    if |args| != 2 then Failure(WrongArity)
    else
      match CastArgs(cp, args, AsLine)
      case Failure(e) => Failure(e)
      case Success(lines) => Success(TwoParallelLines(lines[0], lines[1]))
  }

  /** Perpendicular(l1, l2): two Lines of the construction map, in argument order. */
  function ConvertPerpendicular(args: seq<string>, cp: SymbolTable): (r: Conversion)
    ensures |args| != 2 ==> r == Failure(WrongArity)
    ensures r.Success? <==> |args| == 2 && forall i :: 0 <= i < 2 ==> BoundTo(cp, args[i], LineKind)
    ensures |args| == 2 && (exists i :: 0 <= i < 2 && BoundToOther(cp, args[i], LineKind)) ==> r == Failure(CastFailure)
    ensures (&& |args| == 2
             && (forall i :: 0 <= i < 2 ==> !BoundToOther(cp, args[i], LineKind))
             && !AllBound(cp, args))
      ==> r == Failure(MissingArgument)
    ensures r.Success? ==> r.value.TwoPerpendicularLines? && Objects(r.value) == [cp[args[0]], cp[args[1]]]
  {
    if |args| != 2 then Failure(WrongArity)
    else
      match CastArgs(cp, args, AsLine)
      case Failure(e) => Failure(e)
      case Success(lines) => Success(TwoPerpendicularLines(lines[0], lines[1]))
  }

  /** The conversion selected by a command's kind, over the same two tables. */
  function Convert(kind: CommandKind, args: seq<string>, cp: SymbolTable, aux: SymbolTable): Conversion {
    match kind
    case Collinear => ConvertCollinear(args, cp)
    case Concurrent => ConvertConcurrent(args, cp)
    case Equal => ConvertEqual(args, cp, aux)
    case Parallel => ConvertParallel(args, cp)
    case Perpendicular => ConvertPerpendicular(args, cp)
  }
}
