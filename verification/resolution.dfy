/**
 * Resolving a command's argument names against the symbol tables: plain
 * lookup followed by the null check, lookup fused with a downcast, and the
 * two-tier (auxiliary map, then construction map) lookup of the Equal command.
 */
module Resolution {
  import opened Wrappers
  import opened GeoObjects

  /** `m.get(name)` for every name, followed by the null check: a value only when all names are bound. */
  function LookupAll(m: SymbolTable, names: seq<string>): (r: Option<seq<GeoObject>>)
    ensures r.Some? <==> AllBound(m, names)
    ensures r.Some? ==> |r.value| == |names|
    ensures r.Some? ==> forall i :: 0 <= i < |names| ==> r.value[i] == m[names[i]]
    decreases |names|
  {
    if |names| == 0 then Some([])
    else
      match LookupAll(m, names[1..])
      case None => None
      case Some(rest) => if names[0] in m then Some([m[names[0]]] + rest) else None
  }

  /** The downcast `(T) o` applied to each non-null object in turn; `None` once one is of another class. */
  function CastAll<T>(objs: seq<GeoObject>, cast: GeoObject -> Option<T>): (r: Option<seq<T>>)
    ensures r.Some? <==> forall i :: 0 <= i < |objs| ==> cast(objs[i]).Some?
    ensures r.Some? ==> |r.value| == |objs|
    ensures r.Some? ==> forall i :: 0 <= i < |objs| ==> cast(objs[i]) == Some(r.value[i])
    decreases |objs|
  {
    if |objs| == 0 then Some([])
    else
      match cast(objs[0])
      case None => None
      case Some(x) =>
        match CastAll(objs[1..], cast)
        case None => None
        case Some(rest) => Some([x] + rest)
  }

  /**
   * `(T) m.get(name)` for each name in turn, before any null check: an unbound
   * name yields a `null` slot without failing (casting `null` succeeds in Java),
   * while a bound object of another class makes the whole sequence fail.
   */
  function CastLookups<T>(m: SymbolTable, names: seq<string>, cast: GeoObject -> Option<T>): (r: Option<seq<Option<T>>>)
    ensures r.Some? <==> forall i :: 0 <= i < |names| && names[i] in m ==> cast(m[names[i]]).Some?
    ensures r.Some? ==> |r.value| == |names|
    ensures r.Some? ==> forall i :: 0 <= i < |names| ==> (r.value[i].Some? <==> names[i] in m)
    ensures r.Some? ==> forall i :: 0 <= i < |names| && names[i] in m ==> r.value[i] == cast(m[names[i]])
    decreases |names|
  {
    if |names| == 0 then Some([])
    else
      var head: Option<T> := if names[0] in m then cast(m[names[0]]) else None;
      if names[0] in m && head.None? then None
      else
        match CastLookups(m, names[1..], cast)
        case None => None
        case Some(rest) => Some([head] + rest)
  }

  /** The null check over a sequence of slots: their contents when none is `null`. */
  function AllPresent<T>(slots: seq<Option<T>>): (r: Option<seq<T>>)
    ensures r.Some? <==> forall i :: 0 <= i < |slots| ==> slots[i].Some?
    ensures r.Some? ==> |r.value| == |slots|
    ensures r.Some? ==> forall i :: 0 <= i < |slots| ==> slots[i] == Some(r.value[i])
    decreases |slots|
  {
    if |slots| == 0 then Some([])
    else
      match slots[0]
      case None => None
      case Some(x) =>
        match AllPresent(slots[1..])
        case None => None
        case Some(rest) => Some([x] + rest)
  }

  /** The index of the first table that binds every one of `names`, if any does. */
  function FirstTier(tiers: seq<SymbolTable>, names: seq<string>): (r: Option<nat>)
    ensures r.None? <==> forall t :: 0 <= t < |tiers| ==> !AllBound(tiers[t], names)
    ensures r.Some? ==> r.value < |tiers| && AllBound(tiers[r.value], names)
    ensures r.Some? ==> forall t :: 0 <= t < r.value ==> !AllBound(tiers[t], names)
    decreases |tiers|
  {
    if |tiers| == 0 then None
    else if AllBound(tiers[0], names) then Some(0)
    else
      match FirstTier(tiers[1..], names)
      case None => None
      case Some(t) => Some(t + 1)
  }

  /**
   * Resolution against an ordered list of tables: all names are taken from the
   * first table that binds every one of them, never some from one table and
   * some from another.
   */
  function ResolveInTiers(tiers: seq<SymbolTable>, names: seq<string>): (r: Option<seq<GeoObject>>)
    ensures r.Some? <==> exists t :: 0 <= t < |tiers| && AllBound(tiers[t], names)
    ensures r.Some? ==> |r.value| == |names|
    ensures r.Some? ==> exists t :: 0 <= t < |tiers| && AllBound(tiers[t], names)
                                   && (forall u :: 0 <= u < t ==> !AllBound(tiers[u], names))
                                   && (forall i :: 0 <= i < |names| ==> r.value[i] == tiers[t][names[i]])
  {
    match FirstTier(tiers, names)
    case None => None
    case Some(t) => LookupAll(tiers[t], names)
  }

  /**
   * The Equal command's lookup: both names in the auxiliary map; if either is
   * missing there, both names again in the construction map; then the null check.
   */
  function ResolveEqualArgs(args: seq<string>, cp: SymbolTable, aux: SymbolTable): (r: Option<seq<GeoObject>>)
    requires |args| == 2
    ensures r.Some? <==> AllBound(aux, args) || AllBound(cp, args)
    ensures AllBound(aux, args) ==> r == Some([aux[args[0]], aux[args[1]]])
    ensures !AllBound(aux, args) && AllBound(cp, args) ==> r == Some([cp[args[0]], cp[args[1]]])
  {
    var fromAux := [Lookup(aux, args[0]), Lookup(aux, args[1])];
    var found := if fromAux[0].None? || fromAux[1].None? then [Lookup(cp, args[0]), Lookup(cp, args[1])] else fromAux;
    if found[0].None? || found[1].None? then None else Some([found[0].value, found[1].value])
  }

  /** The Equal command's lookup is resolution over the tiers [auxiliary map, construction map]. */
  lemma EqualResolutionIsTiered(args: seq<string>, cp: SymbolTable, aux: SymbolTable)
    requires |args| == 2
    ensures ResolveEqualArgs(args, cp, aux) == ResolveInTiers([aux, cp], args)
  {
    var tiers := [aux, cp];
    assert tiers[0] == aux && tiers[1] == cp;
    var r := ResolveInTiers(tiers, args);
    if r.Some? {
      var t :| 0 <= t < |tiers| && AllBound(tiers[t], args)
               && (forall u :: 0 <= u < t ==> !AllBound(tiers[u], args))
               && (forall i :: 0 <= i < |args| ==> r.value[i] == tiers[t][args[i]]);
      assert r.value == [tiers[t][args[0]], tiers[t][args[1]]];
    }
  }
}
