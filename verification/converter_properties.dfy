/**
 * Properties relating the five conversions to each other and to the
 * statements they produce: arity is checked first, unresolved names yield no
 * statement, the auxiliary map wins for Equal, a produced statement refers to
 * exactly the named objects in argument order (and every such statement is
 * produced), and a conversion reads nothing but the entries of its argument names.
 */
module ConverterProperties {
  import opened Wrappers
  import opened GeoObjects
  import opened ThmStatements
  import opened Resolution
  import opened StatConverter

  /**
   * A well-formed statement is fixed by its command kind and the objects it
   * refers to (the class of the first object tells the variants of one kind apart).
   */
  lemma {:induction false} StatementDeterminedByObjects(s: ThmStatement, s': ThmStatement)
    requires WellFormed(s)
    requires CommandOf(s) == CommandOf(s')
    requires Objects(s) == Objects(s')
    ensures s == s'
  {
    var objs := Objects(s);
    assert |objs| > 0;
    match s
    case CollinearPoints(ps) =>
      var ps' := s'.points;
      forall i | 0 <= i < |ps| ensures ps[i] == ps'[i] {
        assert objs[i] == PointObject(ps[i]) == PointObject(ps'[i]);
      }
    case ConcurrentLines(ls) =>
      assert objs[0] == LineObject(ls[0]);
      var ls' := s'.lines;
      forall i | 0 <= i < |ls| ensures ls[i] == ls'[i] {
        assert objs[i] == LineObject(ls[i]) == LineObject(ls'[i]);
      }
    case ConcurrentCircles(cs) =>
      assert objs[0] == CircleObject(cs[0]);
      var cs' := s'.circles;
      forall i | 0 <= i < |cs| ensures cs[i] == cs'[i] {
        assert objs[i] == CircleObject(cs[i]) == CircleObject(cs'[i]);
      }
    case IdenticalPoints(_, _) =>
      assert objs[0].Kind() == PointKind;
    case SegmentsOfEqualLengths(_, _) =>
      assert objs[0].Kind() == SegmentKind;
    case EqualAngles(_, _) =>
      assert objs[0].Kind() == AngleKind;
    case TwoParallelLines(_, _) =>
    case TwoPerpendicularLines(_, _) =>
  }

  /** Every kind checks the argument count before any lookup: a wrong count fails whatever the tables hold. */
  lemma ArityCheckedFirst(kind: CommandKind, args: seq<string>, cp: SymbolTable, aux: SymbolTable)
    requires |args| != Arity(kind)
    ensures Convert(kind, args, cp, aux) == Failure(WrongArity)
  {
  }

  /** Collinear, Concurrent, Parallel and Perpendicular yield nothing when an argument is unbound in the construction map. */
  lemma UnboundArgumentYieldsNothing(kind: CommandKind, args: seq<string>, cp: SymbolTable, aux: SymbolTable, i: nat)
    requires kind != Equal
    requires i < |args| && args[i] !in cp
    ensures Convert(kind, args, cp, aux).Failure?
  {
  }

  /**
   * Equal yields nothing when one name, in either position, is bound only in
   * the auxiliary map and the other is missing from it: the fallback
   * re-resolves both names in the construction map, where the first is missing.
   */
  lemma EqualMixedHitYieldsNothing(a: string, b: string, cp: SymbolTable, aux: SymbolTable)
    requires (a in aux && a !in cp && b !in aux) || (b in aux && b !in cp && a !in aux)
    ensures ConvertEqual([a, b], cp, aux) == Failure(MissingArgument)
  {
  }

  /** Equal never takes one object from each map: a produced statement holds both objects of one map. */
  lemma EqualNeverMixesMaps(args: seq<string>, cp: SymbolTable, aux: SymbolTable)
    requires ConvertEqual(args, cp, aux).Success?
    ensures |args| == 2
    ensures || (AllBound(aux, args) && Objects(ConvertEqual(args, cp, aux).value) == [aux[args[0]], aux[args[1]]])
            || (AllBound(cp, args) && Objects(ConvertEqual(args, cp, aux).value) == [cp[args[0]], cp[args[1]]])
  {
  }

  /** When the auxiliary map binds both names, Equal does not consult the construction map at all. */
  lemma EqualAuxiliaryTakesPrecedence(args: seq<string>, cp: SymbolTable, cp': SymbolTable, aux: SymbolTable)
    requires |args| == 2 && AllBound(aux, args)
    ensures ConvertEqual(args, cp, aux) == ConvertEqual(args, cp', aux)
  {
  }

  /**
   * Over name-consistent tables, a produced statement comes from the command
   * that was converted, is well formed, and refers to objects whose names are
   * exactly the argument names in argument order.
   */
  lemma ConversionNamesRoundTrip(kind: CommandKind, args: seq<string>, cp: SymbolTable, aux: SymbolTable)
    requires NameConsistent(cp) && NameConsistent(aux)
    requires Convert(kind, args, cp, aux).Success?
    ensures CommandOf(Convert(kind, args, cp, aux).value) == kind
    ensures WellFormed(Convert(kind, args, cp, aux).value)
    ensures ArgNames(Convert(kind, args, cp, aux).value) == args
  {
  }

  /** Table `m` binds each name the statement refers to, to the very object the statement holds. */
  predicate Stored(s: ThmStatement, m: SymbolTable) {
    var objs := Objects(s);
    forall i :: 0 <= i < |objs| ==> objs[i].Name() in m && m[objs[i].Name()] == objs[i]
  }

  /** All objects a statement refers to are of the same class. */
  lemma StatementObjectsShareKind(s: ThmStatement, i: nat)
    requires i < |Objects(s)|
    ensures Objects(s)[i].Kind() == Objects(s)[0].Kind()
  {
  }

  /**
   * Every well-formed statement is produced by converting its own command
   * kind and argument names, provided the table that command consults holds
   * the statement's objects under their names.
   */
  lemma ConversionComplete(s: ThmStatement, cp: SymbolTable, aux: SymbolTable)
    requires WellFormed(s)
    requires Stored(s, if CommandOf(s) == Equal && AllBound(aux, ArgNames(s)) then aux else cp)
    ensures Convert(CommandOf(s), ArgNames(s), cp, aux) == Success(s)
  {
    var kind, args, objs := CommandOf(s), ArgNames(s), Objects(s);
    var tbl := if kind == Equal && AllBound(aux, args) then aux else cp;
    assert AllBound(tbl, args);
    forall i | 0 <= i < |args| ensures tbl[args[i]] == objs[i] && objs[i].Kind() == objs[0].Kind() {
      StatementObjectsShareKind(s, i);
    }
    var r := Convert(kind, args, cp, aux);
    assert r.Success?;
    StatementDeterminedByObjects(s, r.value);
  }

  /** A conversion reads only the entries bound to its argument names, in either table. */
  lemma ConversionIsLocal(kind: CommandKind, args: seq<string>, cp: SymbolTable, cp': SymbolTable, aux: SymbolTable, aux': SymbolTable)
    requires AgreeOn(cp, cp', args) && AgreeOn(aux, aux', args)
    ensures Convert(kind, args, cp, aux) == Convert(kind, args, cp', aux')
  {
    var r, r' := Convert(kind, args, cp, aux), Convert(kind, args, cp', aux');
    forall i | 0 <= i < |args|
      ensures (args[i] in cp <==> args[i] in cp') && (args[i] in cp ==> cp[args[i]] == cp'[args[i]])
      ensures (args[i] in aux <==> args[i] in aux') && (args[i] in aux ==> aux[args[i]] == aux'[args[i]])
    {
      assert Lookup(cp, args[i]) == Lookup(cp', args[i]);
      assert Lookup(aux, args[i]) == Lookup(aux', args[i]);
    }
    if r.Success? && r'.Success? && |args| == Arity(kind) {
      StatementDeterminedByObjects(r.value, r'.value);
    }
  }
}
