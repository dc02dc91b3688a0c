# OpenGeoProver statement converter for algebraic provers, in Dafny

This project models `GGStatConverterForAlgebraicProvers` from OpenGeoProver. It is
the stage that turns a GeoGebra statement command into a typed theorem statement
for the algebraic provers. A command is an ordered list of argument names. The
converter resolves them against two read-only name-to-object tables: the
construction map of the construction protocol, and the auxiliary-objects map.
There is one conversion per command kind: Collinear, Concurrent, Equal, Parallel
and Perpendicular. Each one checks the argument count, looks the names up,
dispatches on the class of the first object and builds the statement. The Java
returns `null` on every failure.

Files:

- `wrappers.dfy`: `Option` and `Result`.
- `geo_objects.dfy`: the five object classes (Point, Line, Circle, Segment,
  Angle), the Java downcasts as `AsPoint`, `AsLine`, ..., and symbol tables.
- `thm_statements.dfy`: command kinds, their arities, and the eight statement
  variants with the objects each one refers to.
- `resolution.dfy`: lookup with the null check, lookup fused with a downcast,
  and the Equal command's two-tier lookup. It also has a general resolution over
  an ordered list of tables, which Equal is proved to be an instance of.
- `stat_converter.dfy`: the five conversions. Each returns
  `Result<ThmStatement, Failure>`. The `Failure` tag tells apart the four
  failures the Java logs: wrong argument count, missing argument, unsupported
  type, and class-cast failure. `ToOption()` gives the caller's view, a
  statement or `null`.
- `converter_properties.dfy`: lemmas that relate the conversions to the
  statements they produce.

Inputs the Java reads from inherited fields (`ggStatCmd`, `consProtocol`,
`auxiliaryObjectsMap`) are parameters here: `args: seq<string>`,
`cp: SymbolTable` and `aux: SymbolTable`. The conversions are pure functions of
these parameters. So they cannot change either table, and the same inputs always
give the same result. `ConversionIsLocal` states the stronger fact: a conversion
reads only the entries bound to its own argument names.

Evaluation order matters for which failure is reported, and the model keeps the
Java order:

- Collinear, Parallel and Perpendicular write `(Point) map.get(name)`. Each cast
  happens before the null check, and casting `null` succeeds. So a bound object
  of the wrong class gives a cast failure even when another name is unbound.
- Concurrent and Equal run the null check first. They then dispatch on the first
  object and cast the others.

Equal re-resolves both names in the construction map when either auxiliary
lookup misses (lines 172-176). A later argument of the
wrong class is caught by the converter's own ClassCastException handler (lines
144-146 and 197-199), which reports it as a failure of its own.

## Model

| member | source | states |
|---|---|---|
| GeoObjects.AsPoint | branches/geogebra_ogp_for_area_method/geogebra_ogp/OpenGeoProver/src/com/ogprover/api/converter/GGStatConverterForAlgebraicProvers.java:79-81 | The downcast `(Point) o` on a non-null object: succeeds exactly when the object is a Point, and then yields that very Point. The five classes are disjoint, so every other class is a cast failure |
| GeoObjects.AsLine | branches/geogebra_ogp_for_area_method/geogebra_ogp/OpenGeoProver/src/com/ogprover/api/converter/GGStatConverterForAlgebraicProvers.java:128-130 | The downcast `(Line) o`: succeeds exactly when the object is a Line, yielding that Line |
| GeoObjects.AsCircle | branches/geogebra_ogp_for_area_method/geogebra_ogp/OpenGeoProver/src/com/ogprover/api/converter/GGStatConverterForAlgebraicProvers.java:137-139 | The downcast `(Circle) o`: succeeds exactly when the object is a Circle, yielding that Circle |
| GeoObjects.AsSegment | branches/geogebra_ogp_for_area_method/geogebra_ogp/OpenGeoProver/src/com/ogprover/api/converter/GGStatConverterForAlgebraicProvers.java:187-189 | The downcast `(Segment) o`: succeeds exactly when the object is a Segment, yielding that Segment |
| GeoObjects.AsAngle | branches/geogebra_ogp_for_area_method/geogebra_ogp/OpenGeoProver/src/com/ogprover/api/converter/GGStatConverterForAlgebraicProvers.java:191-193 | The downcast `(Angle) o`: succeeds exactly when the object is an Angle, yielding that Angle |
| GeoObjects.Lookup | branches/geogebra_ogp_for_area_method/geogebra_ogp/OpenGeoProver/src/com/ogprover/api/converter/GGStatConverterForAlgebraicProvers.java:117-119 | `Map.get(name)`: a value exactly when the name is a key, and then the object bound to it; `None` plays the part of `null` |
| StatConverter.ConvertCollinear | branches/geogebra_ogp_for_area_method/geogebra_ogp/OpenGeoProver/src/com/ogprover/api/converter/GGStatConverterForAlgebraicProvers.java:68-100 | Fails with the arity tag unless there are exactly 3 names. Succeeds exactly when all three are bound to Points in the construction map, and the statement is CollinearPoints of those three objects in argument order. A bound non-Point anywhere gives the cast failure; otherwise an unbound name gives the missing-argument failure |
| StatConverter.ConvertConcurrent | branches/geogebra_ogp_for_area_method/geogebra_ogp/OpenGeoProver/src/com/ogprover/api/converter/GGStatConverterForAlgebraicProvers.java:105-151 | Fails with the arity tag unless there are exactly 3 names, and with the missing-argument tag if any name is unbound. Succeeds exactly when all three are Lines or all three are Circles, referring to those objects in order. A first object that is neither gives the unsupported-type failure; a later object of another class gives the cast failure |
| StatConverter.ConcurrentStatement | branches/geogebra_ogp_for_area_method/geogebra_ogp/OpenGeoProver/src/com/ogprover/api/converter/GGStatConverterForAlgebraicProvers.java:126-143 | For resolved objects: the first one's class picks ConcurrentLines or ConcurrentCircles, which hold exactly those objects in order. Success iff all objects share that class; any other first class is unsupported; a mismatch after a Line or Circle is a cast failure |
| StatConverter.ConvertEqual | branches/geogebra_ogp_for_area_method/geogebra_ogp/OpenGeoProver/src/com/ogprover/api/converter/GGStatConverterForAlgebraicProvers.java:156-204 | Fails with the arity tag unless there are exactly 2 names. If the auxiliary map binds both names, the statement is built from the auxiliary objects. Otherwise, if the construction map binds both, it is built from the construction-map objects. If neither map binds both names, it fails with the missing-argument tag |
| StatConverter.EqualStatement | branches/geogebra_ogp_for_area_method/geogebra_ogp/OpenGeoProver/src/com/ogprover/api/converter/GGStatConverterForAlgebraicProvers.java:183-196 | Point, Segment and Angle as the first object give IdenticalPoints, SegmentsOfEqualLengths and EqualAngles of the two objects in order. Success iff the second object has the same class; any other first class is unsupported; a differing second class is a cast failure |
| StatConverter.ConvertParallel | branches/geogebra_ogp_for_area_method/geogebra_ogp/OpenGeoProver/src/com/ogprover/api/converter/GGStatConverterForAlgebraicProvers.java:209-236 | Fails with the arity tag unless there are exactly 2 names. Succeeds exactly when both are bound to Lines, giving TwoParallelLines of those lines in order. A bound non-Line gives the cast failure; otherwise an unbound name gives the missing-argument failure |
| StatConverter.ConvertPerpendicular | branches/geogebra_ogp_for_area_method/geogebra_ogp/OpenGeoProver/src/com/ogprover/api/converter/GGStatConverterForAlgebraicProvers.java:241-268 | As for Parallel, but the statement is TwoPerpendicularLines |
| StatConverter.CastArgs | branches/geogebra_ogp_for_area_method/geogebra_ogp/OpenGeoProver/src/com/ogprover/api/converter/GGStatConverterForAlgebraicProvers.java:221-227 | Cast-then-null-check over any number of names. Succeeds iff every name is bound to an object the cast accepts, returning the cast values in order. It fails with the cast tag exactly when some bound object is rejected, and otherwise with the missing-argument tag |
| Resolution.CastLookups | branches/geogebra_ogp_for_area_method/geogebra_ogp/OpenGeoProver/src/com/ogprover/api/converter/GGStatConverterForAlgebraicProvers.java:79-81 | Downcasting each lookup: an unbound name gives an empty slot, and the sequence fails iff some bound object is of another class. The slots hold the cast objects in argument order |
| Resolution.AllPresent | branches/geogebra_ogp_for_area_method/geogebra_ogp/OpenGeoProver/src/com/ogprover/api/converter/GGStatConverterForAlgebraicProvers.java:83-86 | The null check: yields the contents iff no slot is empty, in the same order |
| Resolution.LookupAll | branches/geogebra_ogp_for_area_method/geogebra_ogp/OpenGeoProver/src/com/ogprover/api/converter/GGStatConverterForAlgebraicProvers.java:117-124 | Lookup then null check: yields a value iff every name is bound, namely the bound objects in argument order |
| Resolution.CastAll | branches/geogebra_ogp_for_area_method/geogebra_ogp/OpenGeoProver/src/com/ogprover/api/converter/GGStatConverterForAlgebraicProvers.java:127-130 | Casting each resolved object: succeeds iff the cast accepts every object, and returns the cast values in order |
| Resolution.ResolveEqualArgs | branches/geogebra_ogp_for_area_method/geogebra_ogp/OpenGeoProver/src/com/ogprover/api/converter/GGStatConverterForAlgebraicProvers.java:168-181 | The Equal lookup yields objects iff one of the two maps binds both names. The auxiliary map's objects win when it binds both; otherwise both objects come from the construction map |
| Resolution.FirstTier | branches/geogebra_ogp_for_area_method/geogebra_ogp/OpenGeoProver/src/com/ogprover/api/converter/GGStatConverterForAlgebraicProvers.java:168-176 | The index of the first table in an ordered list that binds every name. None iff no table does, and every earlier table misses some name |
| Resolution.ResolveInTiers | branches/geogebra_ogp_for_area_method/geogebra_ogp/OpenGeoProver/src/com/ogprover/api/converter/GGStatConverterForAlgebraicProvers.java:168-181 | Resolution over ordered tables yields a value iff some table binds every name. All objects come from one table, the first such, in argument order |
| Resolution.EqualResolutionIsTiered | branches/geogebra_ogp_for_area_method/geogebra_ogp/OpenGeoProver/src/com/ogprover/api/converter/GGStatConverterForAlgebraicProvers.java:168-181 | The Equal lookup equals tiered resolution over [auxiliary map, construction map] |
| ConverterProperties.ArityCheckedFirst | branches/geogebra_ogp_for_area_method/geogebra_ogp/OpenGeoProver/src/com/ogprover/api/converter/GGStatConverterForAlgebraicProvers.java:72-76 | For every command kind, a wrong argument count fails with the arity tag, whatever the tables hold. The same check sits at lines 111-114, 162-165, 215-218 and 247-250 |
| ConverterProperties.UnboundArgumentYieldsNothing | branches/geogebra_ogp_for_area_method/geogebra_ogp/OpenGeoProver/src/com/ogprover/api/converter/GGStatConverterForAlgebraicProvers.java:83-86 | Collinear, Concurrent, Parallel and Perpendicular yield no statement when any argument name is unbound in the construction map. The same check sits at lines 121-124, 224-227 and 256-259 |
| ConverterProperties.EqualMixedHitYieldsNothing | branches/geogebra_ogp_for_area_method/geogebra_ogp/OpenGeoProver/src/com/ogprover/api/converter/GGStatConverterForAlgebraicProvers.java:172-181 | Equal fails with the missing-argument tag when one of the two names, in either position, is bound only in the auxiliary map and the other is not bound there: the fallback re-resolves both names in the construction map, where the first one is missing |
| ConverterProperties.EqualNeverMixesMaps | branches/geogebra_ogp_for_area_method/geogebra_ogp/OpenGeoProver/src/com/ogprover/api/converter/GGStatConverterForAlgebraicProvers.java:169-181 | Whenever Equal produces a statement, both of its objects come from one map: either the auxiliary map binds both names and the statement holds those two objects in order, or the construction map binds both and it holds those |
| ConverterProperties.EqualAuxiliaryTakesPrecedence | branches/geogebra_ogp_for_area_method/geogebra_ogp/OpenGeoProver/src/com/ogprover/api/converter/GGStatConverterForAlgebraicProvers.java:168-176 | When the auxiliary map binds both names, Equal's result does not depend on the construction map |
| ConverterProperties.ConversionNamesRoundTrip | branches/geogebra_ogp_for_area_method/geogebra_ogp/OpenGeoProver/src/com/ogprover/api/converter/GGStatConverterForAlgebraicProvers.java:88-92 | Over tables whose keys are the names of their objects, a produced statement is well formed. It belongs to the converted command kind, and the names of its objects are exactly the argument names in order |
| ConverterProperties.ConversionComplete | branches/geogebra_ogp_for_area_method/geogebra_ogp/OpenGeoProver/src/com/ogprover/api/converter/GGStatConverterForAlgebraicProvers.java:68-268 | Every well-formed statement is what converting its own kind and object names yields, when the table that kind consults holds its objects under their names. This is the converse of the round trip |
| ConverterProperties.ConversionIsLocal | branches/geogebra_ogp_for_area_method/geogebra_ogp/OpenGeoProver/src/com/ogprover/api/converter/GGStatConverterForAlgebraicProvers.java:68-268 | Two pairs of tables that agree on the argument names give the same result. The conversion reads nothing else, and it is a pure function of its inputs |

## Left out

- Logging through `ILogger`: the model records the failure as a tag instead of writing a message.
- The generic `catch (Exception ex)` branches: the model assumes that the three inherited fields (`ggStatCmd`, `consProtocol`, `auxiliaryObjectsMap`) and the result of `getConstructionMap()` are non-null, because the base class that sets them is not part of this model, and it takes the statement constructors as total. A null there raises a NullPointerException that those branches turn into `null`. For Equal this matters: with a null `auxiliaryObjectsMap` the Java fails at line 169 even when the construction map binds both names, while `ConvertEqual` with an empty `aux` returns a statement.
- The base class `GeoGebraStatementConverter`, which dispatches on the command name, and the theorem converter's loop over commands: they are not part of this model. `StatConverter.Convert` is only a combinator used to state the lemmas over all kinds at once.
- The Java class hierarchy: the five object classes are taken as disjoint, so a cast succeeds exactly on its own class.
- `null` keys, `null` values stored in a map, and `null` argument strings: a table binds names to objects, and absence is `null`.
- Geometric data inside objects: an object is its name, its class and an identity.
- `MTestQDParser.java`, a manual test driver doing file I/O and printing, with no converter logic.
