/** The resolution algorithm of src/GraphQL/ValueConverter.cs: ConvertTo,
    ConvertTo<T> and GetConversion, as functions of the registry's three tables.
    The tiers are tried in a fixed order and the first that matches wins. */
module Resolution {
  import opened Wrappers
  import opened Types

  /** The registry's tables: direct pairs keyed by (runtime type, target type),
      pairs of generic definitions, and the one table that both unwrap and wrap
      registrations fill. */
  datatype Tables = Tables(
    valueConversions: map<Ty, map<Ty, Conversion>>,
    typeDefinitionConversions: map<Ty, map<Ty, GenericConversion>>,
    unwrapConversions: map<Ty, GenericConversion>)

  /** TryGetValue on a dictionary of dictionaries, outer key first. */
  function LookupPair<C>(m: map<Ty, map<Ty, C>>, a: Ty, b: Ty): Option<C> {
    if a in m && b in m[a] then Some(m[a][b]) else None
  }

  function Lookup<C>(m: map<Ty, C>, a: Ty): Option<C> {
    if a in m then Some(m[a]) else None
  }

  /** Which of the three closures over a generic conversion was built. */
  datatype Tier = DefinitionPair | SourceUnwrap | TargetWrap

  /** What GetConversion returns: a direct conversion, or a closure that hands
      a generic conversion the type arguments of one side. */
  datatype Bound =
    | Direct(f: Conversion)
    | WithTypeArgs(tier: Tier, g: GenericConversion, typeArgs: seq<Ty>)

  function Invoke(b: Bound, v: Value): Result<Value, Error> {
    match b
    case Direct(f) => f.apply(v)
    case WithTypeArgs(_, g, typeArgs) => g.apply(v, typeArgs)
  }

  /** Both types generic, with element-wise equal type arguments. */
  predicate ShapesMatch(valueType: Ty, targetType: Ty) {
    IsGenericType(valueType) && IsGenericType(targetType)
    && SequenceEqual(GenericTypeArguments(valueType), GenericTypeArguments(targetType))
  }

  /** The definition-pair conversion the fourth tier would use, if any. */
  function DefinitionPairFor(tables: Tables, valueType: Ty, targetType: Ty): Option<GenericConversion> {
    if ShapesMatch(valueType, targetType) then
      LookupPair(tables.typeDefinitionConversions,
                 GetGenericTypeDefinition(valueType), GetGenericTypeDefinition(targetType))
    else None
  }

  /** The entry of the unwrap table for `t`'s generic definition, if `t` is
      generic and there is one. */
  function ContainerConversionFor(tables: Tables, t: Ty): Option<GenericConversion> {
    if IsGenericType(t) then Lookup(tables.unwrapConversions, GetGenericTypeDefinition(t)) else None
  }

  /** GetConversion: exact pair, then definition pair for matching shapes,
      then unwrap by the source's definition, then wrap by the target's, then
      InvalidOperationException naming both types. */
  function GetConversion(tables: Tables, valueType: Ty, targetType: Ty): (r: Result<Bound, Error>)
    ensures r.Failure? ==> r.error == NotSupported(valueType, targetType)
    ensures r.Success? && r.value.Direct? ==>
              LookupPair(tables.valueConversions, valueType, targetType) == Some(r.value.f)
    ensures r.Success? && r.value.WithTypeArgs? ==>
              LookupPair(tables.valueConversions, valueType, targetType).None?
    ensures r.Success? && r.value.WithTypeArgs? && r.value.tier == DefinitionPair ==>
              IsGenericType(valueType) && IsGenericType(targetType)
              && GenericTypeArguments(valueType) == GenericTypeArguments(targetType) == r.value.typeArgs
              && LookupPair(tables.typeDefinitionConversions,
                            GetGenericTypeDefinition(valueType), GetGenericTypeDefinition(targetType))
                 == Some(r.value.g)
    ensures r.Success? && r.value.WithTypeArgs? && r.value.tier == SourceUnwrap ==>
              IsGenericType(valueType) && r.value.typeArgs == GenericTypeArguments(valueType)
              && Lookup(tables.unwrapConversions, GetGenericTypeDefinition(valueType)) == Some(r.value.g)
    ensures r.Success? && r.value.WithTypeArgs? && r.value.tier == TargetWrap ==>
              IsGenericType(targetType) && r.value.typeArgs == GenericTypeArguments(targetType)
              && Lookup(tables.unwrapConversions, GetGenericTypeDefinition(targetType)) == Some(r.value.g)
              && ContainerConversionFor(tables, valueType).None?
  {
    match LookupPair(tables.valueConversions, valueType, targetType)
    case Some(f) => Success(Direct(f))
    case None =>
      match DefinitionPairFor(tables, valueType, targetType)
      case Some(g) => Success(WithTypeArgs(DefinitionPair, g, GenericTypeArguments(valueType)))
      case None =>
        match ContainerConversionFor(tables, valueType)
        case Some(g) => Success(WithTypeArgs(SourceUnwrap, g, GenericTypeArguments(valueType)))
        case None =>
          match ContainerConversionFor(tables, targetType)
          case Some(g) => Success(WithTypeArgs(TargetWrap, g, GenericTypeArguments(targetType)))
          case None => Failure(NotSupported(valueType, targetType))
  }

  /** ConvertTo(object, Type). The argument is boxed on the way in, so a
      Nullable<T> arrives as null or as its content. `assignable` is
      Type.IsAssignableFrom, which decides targetType.IsInstanceOfType(value)
      for a value that is not null. A conversion found for the value's runtime
      type is applied to the boxed value. */
  function ConvertTo(tables: Tables, v: Value, targetType: Ty, assignable: (Ty, Ty) -> bool): (r: Result<Value, Error>)
    ensures Box(v) == Null ==> r == Success(Null)
    ensures Box(v) != Null && assignable(TypeOf(Box(v)), targetType) ==> r == Success(Box(v))
    ensures Box(v) != Null && !assignable(TypeOf(Box(v)), targetType)
            && GetConversion(tables, TypeOf(Box(v)), targetType).Failure? ==>
              r == Failure(NotSupported(TypeOf(Box(v)), targetType))
    ensures Box(v) != Null && !assignable(TypeOf(Box(v)), targetType)
            && GetConversion(tables, TypeOf(Box(v)), targetType).Success? ==>
              r == Invoke(GetConversion(tables, TypeOf(Box(v)), targetType).value, Box(v))
  {
    var value := Box(v);
    if value == Null then Success(Null)
    else if assignable(TypeOf(value), targetType) then Success(value)
    else
      match GetConversion(tables, TypeOf(value), targetType)
      case Failure(e) => Failure(e)
      case Success(conversion) => Invoke(conversion, value)
  }

  /** ConvertTo<T>(object): a null result becomes default(T); any other result
      goes through the cast `(T)v`, which fails unless it is a T. */
  function ConvertToTyped(tables: Tables, v: Value, targetType: Ty, assignable: (Ty, Ty) -> bool): (r: Result<Value, Error>)
    ensures ConvertTo(tables, v, targetType, assignable) == Success(Null) ==>
              r == Success(DefaultOf(targetType))
    ensures ConvertTo(tables, v, targetType, assignable).Success?
            && ConvertTo(tables, v, targetType, assignable).value != Null ==>
              r == if assignable(TypeOf(ConvertTo(tables, v, targetType, assignable).value), targetType)
                   then ConvertTo(tables, v, targetType, assignable)
                   else Failure(InvalidCast)
    ensures r.Success? ==>
              r.value == DefaultOf(targetType) || (r.value != Null && assignable(TypeOf(r.value), targetType))
    ensures ConvertTo(tables, v, targetType, assignable).Failure? ==>
              r == ConvertTo(tables, v, targetType, assignable)
  {
    match ConvertTo(tables, v, targetType, assignable)
    case Failure(e) => Failure(e)
    case Success(w) =>
      if w == Null then Success(DefaultOf(targetType))
      else if assignable(TypeOf(w), targetType) then Success(w)
      else Failure(InvalidCast)
  }

  /** A null input converts to null for every target, and to default(T)
      through ConvertTo<T>, whatever the tables hold. */
  lemma NullConvertsToNull(tables: Tables, targetType: Ty, assignable: (Ty, Ty) -> bool)
    ensures ConvertTo(tables, Null, targetType, assignable) == Success(Null)
    ensures ConvertToTyped(tables, Null, targetType, assignable) == Success(DefaultOf(targetType))
  {
  }

  /** A Nullable<T> passed as `object` converts exactly as its content does,
      and an empty one converts to null: its own type takes no part. */
  lemma BoxedNullableConvertsAsContent(tables: Tables, elem: Ty, x: Value, targetType: Ty, assignable: (Ty, Ty) -> bool)
    ensures ConvertTo(tables, NullableBox(elem, Some(x)), targetType, assignable)
            == ConvertTo(tables, x, targetType, assignable)
    ensures ConvertTo(tables, NullableBox(elem, None), targetType, assignable) == Success(Null)
  {
  }

  /** Both shortcuts come before any table is read: two registries agree on
      a null input and on an input that already is a target instance, even
      when one of them registers a conversion for that very pair. */
  lemma ShortcutsIgnoreTables(t1: Tables, t2: Tables, v: Value, targetType: Ty, assignable: (Ty, Ty) -> bool)
    requires Box(v) == Null || assignable(TypeOf(Box(v)), targetType)
    ensures ConvertTo(t1, v, targetType, assignable) == ConvertTo(t2, v, targetType, assignable)
  {
  }

  /** A registered exact pair is used, whatever the other three tiers would
      have matched. */
  lemma DirectPairWins(tables: Tables, valueType: Ty, targetType: Ty)
    requires LookupPair(tables.valueConversions, valueType, targetType).Some?
    ensures GetConversion(tables, valueType, targetType)
            == Success(Direct(LookupPair(tables.valueConversions, valueType, targetType).value))
  {
  }

  /** The definition-pair tier fires exactly when there is no exact pair, both
      types are generic with equal type arguments and the pair of their
      definitions is registered; it passes the source's type arguments. */
  lemma DefinitionPairTier(tables: Tables, valueType: Ty, targetType: Ty)
    ensures (GetConversion(tables, valueType, targetType).Success?
             && GetConversion(tables, valueType, targetType).value.WithTypeArgs?
             && GetConversion(tables, valueType, targetType).value.tier == DefinitionPair)
        <==> (LookupPair(tables.valueConversions, valueType, targetType).None?
              && IsGenericType(valueType) && IsGenericType(targetType)
              && GenericTypeArguments(valueType) == GenericTypeArguments(targetType)
              && LookupPair(tables.typeDefinitionConversions,
                            GetGenericTypeDefinition(valueType), GetGenericTypeDefinition(targetType)).Some?)
  {
  }

  /** A missing definition pair does not fail the lookup: resolution goes on
      as if the definition table were empty. */
  lemma DefinitionMissFallsThrough(tables: Tables, valueType: Ty, targetType: Ty)
    requires DefinitionPairFor(tables, valueType, targetType).None?
    ensures GetConversion(tables, valueType, targetType)
            == GetConversion(tables.(typeDefinitionConversions := map[]), valueType, targetType)
  {
  }

  /** With no exact pair and no definition pair, a registered source
      definition is unwrapped even when the target's definition is registered
      too. */
  lemma UnwrapBeforeWrap(tables: Tables, valueType: Ty, targetType: Ty)
    requires LookupPair(tables.valueConversions, valueType, targetType).None?
    requires DefinitionPairFor(tables, valueType, targetType).None?
    requires IsGenericType(valueType) && GetGenericTypeDefinition(valueType) in tables.unwrapConversions
    ensures GetConversion(tables, valueType, targetType)
            == Success(WithTypeArgs(SourceUnwrap, tables.unwrapConversions[GetGenericTypeDefinition(valueType)],
                                    GenericTypeArguments(valueType)))
  {
  }

  /** The lookup fails exactly when no tier matches, and the error names both
      types. */
  lemma NotSupportedExactly(tables: Tables, valueType: Ty, targetType: Ty)
    ensures GetConversion(tables, valueType, targetType) == Failure(NotSupported(valueType, targetType))
        <==> (LookupPair(tables.valueConversions, valueType, targetType).None?
              && DefinitionPairFor(tables, valueType, targetType).None?
              && !(IsGenericType(valueType) && GetGenericTypeDefinition(valueType) in tables.unwrapConversions)
              && !(IsGenericType(targetType) && GetGenericTypeDefinition(targetType) in tables.unwrapConversions))
  {
  }

  /** Between two non-generic types only the exact-pair table is read. */
  lemma NonGenericReadsOnlyDirect(tables: Tables, valueType: Ty, targetType: Ty)
    requires !IsGenericType(valueType) && !IsGenericType(targetType)
    ensures GetConversion(tables, valueType, targetType)
            == GetConversion(Tables(tables.valueConversions, map[], map[]), valueType, targetType)
  {
  }
}
