/** The registry of src/GraphQL/ValueConverter.cs: three process-wide tables
    that the registration methods change in place. Direct and definition-pair
    registrations overwrite (the last one wins); unwrap and wrap registrations
    share one table and keep the first entry for a definition. */
module ValueConverter {
  import opened Wrappers
  import opened Types
  import Leaves
  import opened Resolution
  import Catalog

  const DefinitionPairMessage := "valueTypeDef and targetTypeDef must be generic type definitions"
  const UnwrapMessage := "valueTypeDef must be generic type definitions"
  const WrapMessage := "wrappedTypeDef must be generic type definitions"

  /** The indexer assignment `conversions[b] = c` on the inner dictionary for
      `a`, which is created on demand. */
  function WithPair<C>(m: map<Ty, map<Ty, C>>, a: Ty, b: Ty, c: C): map<Ty, map<Ty, C>> {
    m[a := (if a in m then m[a] else map[])[b := c]]
  }

  /** After storing `c` for (a, b), the pair (a, b) finds `c` and every other
      pair finds what it found before; `a` becomes an outer key. */
  lemma WithPairLookup<C>(m: map<Ty, map<Ty, C>>, a: Ty, b: Ty, c: C)
    ensures WithPair(m, a, b, c).Keys == m.Keys + {a}
    ensures LookupPair(WithPair(m, a, b, c), a, b) == Some(c)
    ensures forall x, y :: (x, y) != (a, b) ==> LookupPair(WithPair(m, a, b, c), x, y) == LookupPair(m, x, y)
  {
  }

  /** `if (!ContainsKey(d)) Add(d, c)`: an existing entry is kept. */
  function WithFirst<C>(m: map<Ty, C>, d: Ty, c: C): (m': map<Ty, C>)
    ensures m'.Keys == m.Keys + {d}
    ensures Lookup(m', d) == Some(if d in m then m[d] else c)
    ensures forall x :: x != d ==> Lookup(m', x) == Lookup(m, x)
  {
    if d in m then m else m[d := c]
  }

  /** Every inner dictionary holds at least one entry. */
  ghost predicate InnerNonEmpty<C>(m: map<Ty, map<Ty, C>>) {
    forall a :: a in m ==> |m[a]| > 0
  }

  /** Only open generic definitions key the table, outside and inside. */
  ghost predicate DefinitionKeyed<C>(m: map<Ty, map<Ty, C>>) {
    forall d :: d in m ==> IsGenericTypeDefinition(d) && forall e :: e in m[d] ==> IsGenericTypeDefinition(e)
  }

  /** The shape the registration methods keep: inner dictionaries exist only
      once something is stored in them, and only open generic definitions key
      the definition-pair and unwrap tables. */
  ghost predicate WellKeyed(t: Tables) {
    && InnerNonEmpty(t.valueConversions)
    && InnerNonEmpty(t.typeDefinitionConversions)
    && DefinitionKeyed(t.typeDefinitionConversions)
    && (forall d :: d in t.unwrapConversions ==> IsGenericTypeDefinition(d))
  }

  /** Storing into the inner dictionary of a key already present. */
  lemma WithPairOnto<C>(m: map<Ty, map<Ty, C>>, a: Ty, inner: map<Ty, C>, b: Ty, c: C)
    ensures WithPair(m[a := inner], a, b, c) == m[a := inner[b := c]]
  {
  }

  /** Storing the first pair for a key. */
  lemma WithPairFresh<C>(m: map<Ty, map<Ty, C>>, a: Ty, b: Ty, c: C)
    requires a !in m
    ensures WithPair(m, a, b, c) == m[a := map[b := c]]
  {
  }

  /** The registrations of lines 21-33, in order, build one inner dictionary. */
  lemma ParsersFill<C>(m: map<Ty, map<Ty, C>>,
    toInt16: C, toUInt16: C, toInt32: C, toUInt32: C, toInt64: C, toUInt64: C,
    toSingle: C, toDouble: C, toDecimal: C, toDateTime: C, toDateTimeOffset: C,
    toBoolean: C, toGuid: C)
    requires StringTy !in m
    ensures WithPair(WithPair(WithPair(WithPair(WithPair(WithPair(WithPair(WithPair(WithPair(WithPair(WithPair(WithPair(WithPair(m,
              StringTy, IntTy(Int16), toInt16),
              StringTy, IntTy(UInt16), toUInt16),
              StringTy, IntTy(Int32), toInt32),
              StringTy, IntTy(UInt32), toUInt32),
              StringTy, IntTy(Int64), toInt64),
              StringTy, IntTy(UInt64), toUInt64),
              StringTy, SingleTy, toSingle),
              StringTy, DoubleTy, toDouble),
              StringTy, DecimalTy, toDecimal),
              StringTy, DateTimeTy, toDateTime),
              StringTy, DateTimeOffsetTy, toDateTimeOffset),
              StringTy, BoolTy, toBoolean),
              StringTy, GuidTy, toGuid)
            == m[StringTy := map[
              IntTy(Int16) := toInt16,
              IntTy(UInt16) := toUInt16,
              IntTy(Int32) := toInt32,
              IntTy(UInt32) := toUInt32,
              IntTy(Int64) := toInt64,
              IntTy(UInt64) := toUInt64,
              SingleTy := toSingle,
              DoubleTy := toDouble,
              DecimalTy := toDecimal,
              DateTimeTy := toDateTime,
              DateTimeOffsetTy := toDateTimeOffset,
              BoolTy := toBoolean,
              GuidTy := toGuid]]
  {
    WithPairFresh(m, StringTy, IntTy(Int16), toInt16);
    var inner := map[IntTy(Int16) := toInt16];
    WithPairOnto(m, StringTy, inner, IntTy(UInt16), toUInt16);
    inner := inner[IntTy(UInt16) := toUInt16];
    WithPairOnto(m, StringTy, inner, IntTy(Int32), toInt32);
    inner := inner[IntTy(Int32) := toInt32];
    WithPairOnto(m, StringTy, inner, IntTy(UInt32), toUInt32);
    inner := inner[IntTy(UInt32) := toUInt32];
    WithPairOnto(m, StringTy, inner, IntTy(Int64), toInt64);
    inner := inner[IntTy(Int64) := toInt64];
    WithPairOnto(m, StringTy, inner, IntTy(UInt64), toUInt64);
    inner := inner[IntTy(UInt64) := toUInt64];
    WithPairOnto(m, StringTy, inner, SingleTy, toSingle);
    inner := inner[SingleTy := toSingle];
    WithPairOnto(m, StringTy, inner, DoubleTy, toDouble);
    inner := inner[DoubleTy := toDouble];
    WithPairOnto(m, StringTy, inner, DecimalTy, toDecimal);
    inner := inner[DecimalTy := toDecimal];
    WithPairOnto(m, StringTy, inner, DateTimeTy, toDateTime);
    inner := inner[DateTimeTy := toDateTime];
    WithPairOnto(m, StringTy, inner, DateTimeOffsetTy, toDateTimeOffset);
    inner := inner[DateTimeOffsetTy := toDateTimeOffset];
    WithPairOnto(m, StringTy, inner, BoolTy, toBoolean);
    inner := inner[BoolTy := toBoolean];
    WithPairOnto(m, StringTy, inner, GuidTy, toGuid);
    inner := inner[GuidTy := toGuid];
  }

  /** The registrations of lines 39-47, in order, build one inner dictionary. */
  lemma Int32Fill<C>(m: map<Ty, map<Ty, C>>,
    toInt16: C, toUInt16: C, toBoolean: C, toUInt32: C, toInt64: C, toUInt64: C,
    toDouble: C, toDecimal: C, toTimeSpan: C)
    requires IntTy(Int32) !in m
    ensures WithPair(WithPair(WithPair(WithPair(WithPair(WithPair(WithPair(WithPair(WithPair(m,
              IntTy(Int32), IntTy(Int16), toInt16),
              IntTy(Int32), IntTy(UInt16), toUInt16),
              IntTy(Int32), BoolTy, toBoolean),
              IntTy(Int32), IntTy(UInt32), toUInt32),
              IntTy(Int32), IntTy(Int64), toInt64),
              IntTy(Int32), IntTy(UInt64), toUInt64),
              IntTy(Int32), DoubleTy, toDouble),
              IntTy(Int32), DecimalTy, toDecimal),
              IntTy(Int32), TimeSpanTy, toTimeSpan)
            == m[IntTy(Int32) := map[
              IntTy(Int16) := toInt16,
              IntTy(UInt16) := toUInt16,
              BoolTy := toBoolean,
              IntTy(UInt32) := toUInt32,
              IntTy(Int64) := toInt64,
              IntTy(UInt64) := toUInt64,
              DoubleTy := toDouble,
              DecimalTy := toDecimal,
              TimeSpanTy := toTimeSpan]]
  {
    WithPairFresh(m, IntTy(Int32), IntTy(Int16), toInt16);
    var inner := map[IntTy(Int16) := toInt16];
    WithPairOnto(m, IntTy(Int32), inner, IntTy(UInt16), toUInt16);
    inner := inner[IntTy(UInt16) := toUInt16];
    WithPairOnto(m, IntTy(Int32), inner, BoolTy, toBoolean);
    inner := inner[BoolTy := toBoolean];
    WithPairOnto(m, IntTy(Int32), inner, IntTy(UInt32), toUInt32);
    inner := inner[IntTy(UInt32) := toUInt32];
    WithPairOnto(m, IntTy(Int32), inner, IntTy(Int64), toInt64);
    inner := inner[IntTy(Int64) := toInt64];
    WithPairOnto(m, IntTy(Int32), inner, IntTy(UInt64), toUInt64);
    inner := inner[IntTy(UInt64) := toUInt64];
    WithPairOnto(m, IntTy(Int32), inner, DoubleTy, toDouble);
    inner := inner[DoubleTy := toDouble];
    WithPairOnto(m, IntTy(Int32), inner, DecimalTy, toDecimal);
    inner := inner[DecimalTy := toDecimal];
    WithPairOnto(m, IntTy(Int32), inner, TimeSpanTy, toTimeSpan);
    inner := inner[TimeSpanTy := toTimeSpan];
  }

  /** The registrations of lines 49-56, in order, build one inner dictionary. */
  lemma Int64Fill<C>(m: map<Ty, map<Ty, C>>,
    toInt16: C, toUInt16: C, toInt32: C, toUInt32: C, toUInt64: C, toDouble: C,
    toDecimal: C, toTimeSpan: C)
    requires IntTy(Int64) !in m
    ensures WithPair(WithPair(WithPair(WithPair(WithPair(WithPair(WithPair(WithPair(m,
              IntTy(Int64), IntTy(Int16), toInt16),
              IntTy(Int64), IntTy(UInt16), toUInt16),
              IntTy(Int64), IntTy(Int32), toInt32),
              IntTy(Int64), IntTy(UInt32), toUInt32),
              IntTy(Int64), IntTy(UInt64), toUInt64),
              IntTy(Int64), DoubleTy, toDouble),
              IntTy(Int64), DecimalTy, toDecimal),
              IntTy(Int64), TimeSpanTy, toTimeSpan)
            == m[IntTy(Int64) := map[
              IntTy(Int16) := toInt16,
              IntTy(UInt16) := toUInt16,
              IntTy(Int32) := toInt32,
              IntTy(UInt32) := toUInt32,
              IntTy(UInt64) := toUInt64,
              DoubleTy := toDouble,
              DecimalTy := toDecimal,
              TimeSpanTy := toTimeSpan]]
  {
    WithPairFresh(m, IntTy(Int64), IntTy(Int16), toInt16);
    var inner := map[IntTy(Int16) := toInt16];
    WithPairOnto(m, IntTy(Int64), inner, IntTy(UInt16), toUInt16);
    inner := inner[IntTy(UInt16) := toUInt16];
    WithPairOnto(m, IntTy(Int64), inner, IntTy(Int32), toInt32);
    inner := inner[IntTy(Int32) := toInt32];
    WithPairOnto(m, IntTy(Int64), inner, IntTy(UInt32), toUInt32);
    inner := inner[IntTy(UInt32) := toUInt32];
    WithPairOnto(m, IntTy(Int64), inner, IntTy(UInt64), toUInt64);
    inner := inner[IntTy(UInt64) := toUInt64];
    WithPairOnto(m, IntTy(Int64), inner, DoubleTy, toDouble);
    inner := inner[DoubleTy := toDouble];
    WithPairOnto(m, IntTy(Int64), inner, DecimalTy, toDecimal);
    inner := inner[DecimalTy := toDecimal];
    WithPairOnto(m, IntTy(Int64), inner, TimeSpanTy, toTimeSpan);
    inner := inner[TimeSpanTy := toTimeSpan];
  }

  /** The blocks of the static constructor, then the Uri parser of line 63,
      assemble the direct table of the catalog. */
  lemma CatalogFill<C>(
    fromString: map<Ty, C>, fromDateTime: map<Ty, C>, fromDateTimeOffset: map<Ty, C>, fromTimeSpan: map<Ty, C>,
    fromInt32: map<Ty, C>, fromInt64: map<Ty, C>, fromSingle: map<Ty, C>, fromDouble: map<Ty, C>, toUri: C)
    ensures
      var blocks := map[
        StringTy := fromString,
        DateTimeTy := fromDateTime,
        DateTimeOffsetTy := fromDateTimeOffset,
        TimeSpanTy := fromTimeSpan,
        IntTy(Int32) := fromInt32,
        IntTy(Int64) := fromInt64,
        SingleTy := fromSingle,
        DoubleTy := fromDouble];
      WithPair(map[][StringTy := fromString][DateTimeTy := fromDateTime][DateTimeOffsetTy := fromDateTimeOffset]
                 [TimeSpanTy := fromTimeSpan][IntTy(Int32) := fromInt32][IntTy(Int64) := fromInt64]
                 [SingleTy := fromSingle][DoubleTy := fromDouble],
               StringTy, UriTy, toUri)
      == blocks[StringTy := blocks[StringTy][UriTy := toUri]]
  {
  }

  class Registry {
    var valueConversions: map<Ty, map<Ty, Conversion>>
    var typeDefinitionConversions: map<Ty, map<Ty, GenericConversion>>
    var unwrapConversions: map<Ty, GenericConversion>

    /** The tables are well keyed. This records the shape every registration
        keeps (Empty and Init establish it, each registration method preserves
        it); resolution does not depend on it. */
    ghost predicate Valid()
      reads this
    {
      WellKeyed(Snapshot())
    }

    /** The three tables as a value, as resolution reads them. */
    function Snapshot(): Tables
      reads this
    {
      Tables(valueConversions, typeDefinitionConversions, unwrapConversions)
    }

    /** The field initialisers: three empty tables. */
    constructor Empty()
      ensures Valid()
      ensures valueConversions == map[] && typeDefinitionConversions == map[] && unwrapConversions == map[]
    {
      valueConversions := map[];
      typeDefinitionConversions := map[];
      unwrapConversions := map[];
    }

    /** Stores `conversion` for the exact pair, replacing any earlier one;
        the other two tables are left alone. */
    method Register(valueType: Ty, targetType: Ty, conversion: Conversion)
      modifies this`valueConversions
      ensures valueConversions == WithPair(old(valueConversions), valueType, targetType, conversion)
      ensures old(Valid()) ==> Valid()
    {
      ghost var before := Snapshot();
      if valueType !in valueConversions {
        valueConversions := valueConversions[valueType := map[]];
      }
      var conversions := valueConversions[valueType];
      valueConversions := valueConversions[valueType := conversions[targetType := conversion]];
      assert Snapshot() == before.(valueConversions := WithPair(before.valueConversions, valueType, targetType, conversion));
      RegisterKeepsWellKeyed(before, valueType, targetType, conversion);
    }

    /** Rejects a pair that is not two open generic definitions before
        touching any table; otherwise stores `conversion` for the pair,
        replacing any earlier one. */
    method RegisterTypeDefinition(valueTypeDef: Ty, targetTypeDef: Ty, conversion: GenericConversion)
      returns (r: Outcome<Error>)
      modifies this`typeDefinitionConversions
      ensures r.Fail? <==> !IsGenericTypeDefinition(valueTypeDef) || !IsGenericTypeDefinition(targetTypeDef)
      ensures r.Fail? ==> r.error == Argument(DefinitionPairMessage) && unchanged(this)
      ensures r.Pass? ==>
                typeDefinitionConversions
                == WithPair(old(typeDefinitionConversions), valueTypeDef, targetTypeDef, conversion)
      ensures old(Valid()) ==> Valid()
    {
      if !IsGenericTypeDefinition(valueTypeDef) || !IsGenericTypeDefinition(targetTypeDef) {
        return Fail(Argument(DefinitionPairMessage));
      }
      ghost var before := Snapshot();
      if valueTypeDef !in typeDefinitionConversions {
        typeDefinitionConversions := typeDefinitionConversions[valueTypeDef := map[]];
      }
      var conversions := typeDefinitionConversions[valueTypeDef];
      typeDefinitionConversions := typeDefinitionConversions[valueTypeDef := conversions[targetTypeDef := conversion]];
      RegisterTypeDefinitionKeepsWellKeyed(before, valueTypeDef, targetTypeDef, conversion);
      r := Pass;
    }

    /** Rejects a type that is not an open generic definition; otherwise
        adds `conversion` unless the definition already has an entry. */
    method RegisterUnwrap(valueTypeDef: Ty, conversion: GenericConversion) returns (r: Outcome<Error>)
      modifies this`unwrapConversions
      ensures r.Fail? <==> !IsGenericTypeDefinition(valueTypeDef)
      ensures r.Fail? ==> r.error == Argument(UnwrapMessage) && unchanged(this)
      ensures r.Pass? ==> unwrapConversions == WithFirst(old(unwrapConversions), valueTypeDef, conversion)
      ensures old(Valid()) ==> Valid()
    {
      if !IsGenericTypeDefinition(valueTypeDef) {
        return Fail(Argument(UnwrapMessage));
      }
      ghost var before := Snapshot();
      if valueTypeDef !in unwrapConversions {
        unwrapConversions := unwrapConversions[valueTypeDef := conversion];
      }
      RegisterContainerKeepsWellKeyed(before, valueTypeDef, conversion);
      r := Pass;
    }

    /** RegisterUnwrap with its own message: it writes the same table, so a
        definition has one entry, whichever of the two registered it first. */
    method RegisterWrap(wrappedTypeDef: Ty, conversion: GenericConversion) returns (r: Outcome<Error>)
      modifies this`unwrapConversions
      ensures r.Fail? <==> !IsGenericTypeDefinition(wrappedTypeDef)
      ensures r.Fail? ==> r.error == Argument(WrapMessage) && unchanged(this)
      ensures r.Pass? ==> unwrapConversions == WithFirst(old(unwrapConversions), wrappedTypeDef, conversion)
      ensures old(Valid()) ==> Valid()
    {
      if !IsGenericTypeDefinition(wrappedTypeDef) {
        return Fail(Argument(WrapMessage));
      }
      ghost var before := Snapshot();
      if wrappedTypeDef !in unwrapConversions {
        unwrapConversions := unwrapConversions[wrappedTypeDef := conversion];
      }
      RegisterContainerKeepsWellKeyed(before, wrappedTypeDef, conversion);
      r := Pass;
    }

    /** Lines 21-33: the parsers from string. */
    method RegisterParsers(external: Catalog.Externals)
      requires StringTy !in valueConversions
      modifies this`valueConversions
      ensures valueConversions == old(valueConversions)[StringTy := Catalog.ParseConversions(external)]
    {
      Register(StringTy, IntTy(Int16), external.parseShort);
      Register(StringTy, IntTy(UInt16), external.parseUShort);
      Register(StringTy, IntTy(Int32), external.parseInt);
      Register(StringTy, IntTy(UInt32), external.parseUInt);
      Register(StringTy, IntTy(Int64), external.parseLong);
      Register(StringTy, IntTy(UInt64), external.parseULong);
      Register(StringTy, SingleTy, external.parseFloat);
      Register(StringTy, DoubleTy, external.parseDouble);
      Register(StringTy, DecimalTy, external.parseDecimal);
      Register(StringTy, DateTimeTy, external.parseDateTime);
      Register(StringTy, DateTimeOffsetTy, external.parseDateTimeOffset);
      Register(StringTy, BoolTy, Conversion(Leaves.ParseBool));
      Register(StringTy, GuidTy, external.parseGuid);
      ParsersFill(
        old(valueConversions),
        external.parseShort,
        external.parseUShort,
        external.parseInt,
        external.parseUInt,
        external.parseLong,
        external.parseULong,
        external.parseFloat,
        external.parseDouble,
        external.parseDecimal,
        external.parseDateTime,
        external.parseDateTimeOffset,
        Conversion(Leaves.ParseBool),
        external.parseGuid);
    }

    /** Lines 35-37: the date and time conversions. */
    method RegisterClockConversions(external: Catalog.Externals)
      requires DateTimeTy !in valueConversions && DateTimeOffsetTy !in valueConversions
      requires TimeSpanTy !in valueConversions
      modifies this`valueConversions
      ensures valueConversions == old(valueConversions)
                [DateTimeTy := map[DateTimeOffsetTy := external.dateTimeToDateTimeOffset]]
                [DateTimeOffsetTy := map[DateTimeTy := external.dateTimeOffsetToDateTime]]
                [TimeSpanTy := map[IntTy(Int64) := external.timeSpanToLong]]
    {
      Register(DateTimeTy, DateTimeOffsetTy, external.dateTimeToDateTimeOffset);
      Register(DateTimeOffsetTy, DateTimeTy, external.dateTimeOffsetToDateTime);
      Register(TimeSpanTy, IntTy(Int64), external.timeSpanToLong);
    }

    /** Lines 39-47: the conversions from int. */
    method RegisterInt32Conversions(external: Catalog.Externals)
      requires IntTy(Int32) !in valueConversions
      modifies this`valueConversions
      ensures valueConversions == old(valueConversions)[IntTy(Int32) := Catalog.Int32Conversions(external)]
    {
      Register(IntTy(Int32), IntTy(Int16), Conversion(Leaves.IntToShort));
      Register(IntTy(Int32), IntTy(UInt16), Conversion(Leaves.IntToUShort));
      Register(IntTy(Int32), BoolTy, Conversion(Leaves.IntToBool));
      Register(IntTy(Int32), IntTy(UInt32), Conversion(Leaves.IntToUInt));
      Register(IntTy(Int32), IntTy(Int64), Conversion(Leaves.IntToLong));
      Register(IntTy(Int32), IntTy(UInt64), Conversion(Leaves.IntToULong));
      Register(IntTy(Int32), DoubleTy, external.intToDouble);
      Register(IntTy(Int32), DecimalTy, external.intToDecimal);
      Register(IntTy(Int32), TimeSpanTy, external.intToTimeSpan);
      Int32Fill(
        old(valueConversions),
        Conversion(Leaves.IntToShort),
        Conversion(Leaves.IntToUShort),
        Conversion(Leaves.IntToBool),
        Conversion(Leaves.IntToUInt),
        Conversion(Leaves.IntToLong),
        Conversion(Leaves.IntToULong),
        external.intToDouble,
        external.intToDecimal,
        external.intToTimeSpan);
    }

    /** Lines 49-56: the conversions from long. */
    method RegisterInt64Conversions(external: Catalog.Externals)
      requires IntTy(Int64) !in valueConversions
      modifies this`valueConversions
      ensures valueConversions == old(valueConversions)[IntTy(Int64) := Catalog.Int64Conversions(external)]
    {
      Register(IntTy(Int64), IntTy(Int16), Conversion(Leaves.LongToShort));
      Register(IntTy(Int64), IntTy(UInt16), Conversion(Leaves.LongToUShort));
      Register(IntTy(Int64), IntTy(Int32), Conversion(Leaves.LongToInt));
      Register(IntTy(Int64), IntTy(UInt32), Conversion(Leaves.LongToUInt));
      Register(IntTy(Int64), IntTy(UInt64), Conversion(Leaves.LongToULong));
      Register(IntTy(Int64), DoubleTy, external.longToDouble);
      Register(IntTy(Int64), DecimalTy, external.longToDecimal);
      Register(IntTy(Int64), TimeSpanTy, external.longToTimeSpan);
      Int64Fill(
        old(valueConversions),
        Conversion(Leaves.LongToShort),
        Conversion(Leaves.LongToUShort),
        Conversion(Leaves.LongToInt),
        Conversion(Leaves.LongToUInt),
        Conversion(Leaves.LongToULong),
        external.longToDouble,
        external.longToDecimal,
        external.longToTimeSpan);
    }

    /** Lines 58-61: the conversions from float and double. */
    method RegisterFloatingConversions(external: Catalog.Externals)
      requires SingleTy !in valueConversions && DoubleTy !in valueConversions
      modifies this`valueConversions
      ensures valueConversions == old(valueConversions)
                [SingleTy := map[DoubleTy := external.floatToDouble, DecimalTy := external.floatToDecimal]]
                [DoubleTy := map[DecimalTy := external.doubleToDecimal]]
    {
      Register(SingleTy, DoubleTy, external.floatToDouble);
      Register(SingleTy, DecimalTy, external.floatToDecimal);
      Register(DoubleTy, DecimalTy, external.doubleToDecimal);
    }

    /** Lines 21-63: the direct registrations. */
    method RegisterBuiltinConversions(external: Catalog.Externals)
      requires valueConversions == map[]
      modifies this`valueConversions
      ensures valueConversions == Catalog.BuiltinValueConversions(external)
    {
      RegisterParsers(external);
      RegisterClockConversions(external);
      RegisterInt32Conversions(external);
      RegisterInt64Conversions(external);
      RegisterFloatingConversions(external);
      Register(StringTy, UriTy, external.parseUri);
      CatalogFill(
        Catalog.ParseConversions(external),
        map[DateTimeOffsetTy := external.dateTimeToDateTimeOffset],
        map[DateTimeTy := external.dateTimeOffsetToDateTime],
        map[IntTy(Int64) := external.timeSpanToLong],
        Catalog.Int32Conversions(external),
        Catalog.Int64Conversions(external),
        map[DoubleTy := external.floatToDouble, DecimalTy := external.floatToDecimal],
        map[DecimalTy := external.doubleToDecimal],
        external.parseUri);
    }

    /** The static constructor: the built-in registrations, in source order,
        on empty tables. */
    method Init(external: Catalog.Externals)
      requires valueConversions == map[] && typeDefinitionConversions == map[] && unwrapConversions == map[]
      modifies this`valueConversions, this`unwrapConversions
      ensures Valid()
      ensures Snapshot() == Catalog.BuiltinTables(external)
    {
      RegisterBuiltinConversions(external);
      var registered := RegisterUnwrap(NullableDef, GenericConversion(Leaves.UnwrapNullable));
      BuiltinTablesWellKeyed(external);
    }
  }

  /** Register keeps the tables well keyed, whatever pair it stores. */
  lemma RegisterKeepsWellKeyed(t: Tables, valueType: Ty, targetType: Ty, conversion: Conversion)
    ensures WellKeyed(t) ==> WellKeyed(t.(valueConversions := WithPair(t.valueConversions, valueType, targetType, conversion)))
  {
  }

  /** A definition pair that passes the check keeps the tables well keyed. */
  lemma RegisterTypeDefinitionKeepsWellKeyed(t: Tables, valueTypeDef: Ty, targetTypeDef: Ty, conversion: GenericConversion)
    requires IsGenericTypeDefinition(valueTypeDef) && IsGenericTypeDefinition(targetTypeDef)
    ensures WellKeyed(t) ==> WellKeyed(t.(typeDefinitionConversions :=
                         WithPair(t.typeDefinitionConversions, valueTypeDef, targetTypeDef, conversion)))
  {
  }

  /** An unwrap or wrap registration that passes the check keeps the tables
      well keyed. */
  lemma RegisterContainerKeepsWellKeyed(t: Tables, typeDef: Ty, conversion: GenericConversion)
    requires IsGenericTypeDefinition(typeDef)
    ensures WellKeyed(t) ==> WellKeyed(t.(unwrapConversions := WithFirst(t.unwrapConversions, typeDef, conversion)))
  {
  }

  /** The catalog the static constructor builds is well keyed. */
  lemma BuiltinTablesWellKeyed(external: Catalog.Externals)
    ensures WellKeyed(Catalog.BuiltinTables(external))
  {
    BuiltinValueConversionsNonEmpty(external);
  }

  /** Every source type of the direct catalog has at least one target. */
  lemma BuiltinValueConversionsNonEmpty(external: Catalog.Externals)
    ensures InnerNonEmpty(Catalog.BuiltinValueConversions(external))
  {
    var parsers := Catalog.ParseConversions(external);
    var fromInt32 := Catalog.Int32Conversions(external);
    var fromInt64 := Catalog.Int64Conversions(external);
    CatalogBlocksNonEmpty(external);
    DisplayInnerNonEmpty(
      StringTy, parsers,
      DateTimeTy, map[DateTimeOffsetTy := external.dateTimeToDateTimeOffset],
      DateTimeOffsetTy, map[DateTimeTy := external.dateTimeOffsetToDateTime],
      TimeSpanTy, map[IntTy(Int64) := external.timeSpanToLong],
      IntTy(Int32), fromInt32,
      IntTy(Int64), fromInt64,
      SingleTy, map[DoubleTy := external.floatToDouble, DecimalTy := external.floatToDecimal],
      DoubleTy, map[DecimalTy := external.doubleToDecimal]);
    var blocks := map[
      StringTy := parsers,
      DateTimeTy := map[DateTimeOffsetTy := external.dateTimeToDateTimeOffset],
      DateTimeOffsetTy := map[DateTimeTy := external.dateTimeOffsetToDateTime],
      TimeSpanTy := map[IntTy(Int64) := external.timeSpanToLong],
      IntTy(Int32) := fromInt32,
      IntTy(Int64) := fromInt64,
      SingleTy := map[DoubleTy := external.floatToDouble, DecimalTy := external.floatToDecimal],
      DoubleTy := map[DecimalTy := external.doubleToDecimal]
    ];
    WithPairKeepsInnerNonEmpty(blocks, StringTy, UriTy, external.parseUri);
  }

  /** The three large blocks of the catalog are not empty. */
  lemma CatalogBlocksNonEmpty(external: Catalog.Externals)
    ensures |Catalog.ParseConversions(external)| > 0
    ensures |Catalog.Int32Conversions(external)| > 0
    ensures |Catalog.Int64Conversions(external)| > 0
  {
    assert IntTy(Int16) in Catalog.ParseConversions(external);
    assert IntTy(Int16) in Catalog.Int32Conversions(external);
    assert IntTy(Int16) in Catalog.Int64Conversions(external);
  }

  /** A display of eight inner dictionaries, none of them empty. */
  lemma DisplayInnerNonEmpty<C>(k1: Ty, v1: map<Ty, C>, k2: Ty, v2: map<Ty, C>, k3: Ty, v3: map<Ty, C>,
                                k4: Ty, v4: map<Ty, C>, k5: Ty, v5: map<Ty, C>, k6: Ty, v6: map<Ty, C>,
                                k7: Ty, v7: map<Ty, C>, k8: Ty, v8: map<Ty, C>)
    requires |v1| > 0 && |v2| > 0 && |v3| > 0 && |v4| > 0 && |v5| > 0 && |v6| > 0 && |v7| > 0 && |v8| > 0
    ensures InnerNonEmpty(map[k1 := v1, k2 := v2, k3 := v3, k4 := v4, k5 := v5, k6 := v6, k7 := v7, k8 := v8])
  {
  }

  /** Storing a pair never empties an inner dictionary. */
  lemma WithPairKeepsInnerNonEmpty<C>(m: map<Ty, map<Ty, C>>, a: Ty, b: Ty, c: C)
    requires InnerNonEmpty(m)
    ensures InnerNonEmpty(WithPair(m, a, b, c))
  {
  }

  /** After Register(a, b, f) the pair (a, b) resolves to f, and every other
      pair resolves as it did before. */
  lemma RegisterRedirectsOnlyItsPair(t: Tables, a: Ty, b: Ty, f: Conversion, x: Ty, y: Ty)
    ensures GetConversion(t.(valueConversions := WithPair(t.valueConversions, a, b, f)), a, b) == Success(Direct(f))
    ensures (x, y) != (a, b) ==>
              GetConversion(t.(valueConversions := WithPair(t.valueConversions, a, b, f)), x, y)
              == GetConversion(t, x, y)
  {
    WithPairLookup(t.valueConversions, a, b, f);
  }

  /** Register called with each (source, target, conversion) in turn. */
  function RegisterEach<C>(m: map<Ty, map<Ty, C>>, calls: seq<(Ty, Ty, C)>): map<Ty, map<Ty, C>>
    decreases |calls|
  {
    if calls == [] then m
    else RegisterEach(WithPair(m, calls[0].0, calls[0].1, calls[0].2), calls[1..])
  }

  /** The conversion of the last call that names the pair (a, b), if any. */
  function LastFor<C>(calls: seq<(Ty, Ty, C)>, a: Ty, b: Ty): (r: Option<C>)
    ensures r.None? <==> forall i :: 0 <= i < |calls| ==> (calls[i].0, calls[i].1) != (a, b)
    ensures r.Some? ==> exists i :: 0 <= i < |calls| && calls[i] == (a, b, r.value)
                          && forall j :: i < j < |calls| ==> (calls[j].0, calls[j].1) != (a, b)
    decreases |calls|
  {
    if calls == [] then None
    else
      var later := LastFor(calls[1..], a, b);
      if later.Some? then
        assert forall j :: 0 <= j < |calls| - 1 ==> calls[1..][j] == calls[j + 1];
        later
      else if (calls[0].0, calls[0].1) == (a, b) then
        assert forall j :: 0 <= j < |calls| - 1 ==> calls[1..][j] == calls[j + 1];
        Some(calls[0].2)
      else None
  }

  /** Direct registrations overwrite: a pair resolves to the last conversion
      registered for it, and a pair no call names keeps its old entry. */
  lemma {:induction false} LastRegistrationWins<C>(m: map<Ty, map<Ty, C>>, calls: seq<(Ty, Ty, C)>, a: Ty, b: Ty)
    ensures LookupPair(RegisterEach(m, calls), a, b)
            == if LastFor(calls, a, b).Some? then LastFor(calls, a, b) else LookupPair(m, a, b)
    decreases |calls|
  {
    if calls != [] {
      WithPairLookup(m, calls[0].0, calls[0].1, calls[0].2);
      LastRegistrationWins(WithPair(m, calls[0].0, calls[0].1, calls[0].2), calls[1..], a, b);
    }
  }

  /** RegisterUnwrap and RegisterWrap called with each (definition,
      conversion) in turn. */
  function RegisterEachContainer<C>(m: map<Ty, C>, calls: seq<(Ty, C)>): map<Ty, C>
    decreases |calls|
  {
    if calls == [] then m
    else RegisterEachContainer(WithFirst(m, calls[0].0, calls[0].1), calls[1..])
  }

  /** The conversion of the first call that names `d`, if any. */
  function FirstFor<C>(calls: seq<(Ty, C)>, d: Ty): (r: Option<C>)
    ensures r.None? <==> forall i :: 0 <= i < |calls| ==> calls[i].0 != d
    ensures r.Some? ==> exists i :: 0 <= i < |calls| && calls[i] == (d, r.value)
                          && forall j :: 0 <= j < i ==> calls[j].0 != d
    decreases |calls|
  {
    if calls == [] then None
    else if calls[0].0 == d then Some(calls[0].1)
    else
      assert forall j :: 0 <= j < |calls| - 1 ==> calls[1..][j] == calls[j + 1];
      FirstFor(calls[1..], d)
  }

  /** Unwrap and wrap registrations keep what is there: a definition keeps
      its old entry if it had one, and otherwise gets the first conversion
      registered for it, whichever of the two methods registered it. */
  lemma {:induction false} FirstRegistrationWins<C>(m: map<Ty, C>, calls: seq<(Ty, C)>, d: Ty)
    ensures Lookup(RegisterEachContainer(m, calls), d)
            == if d in m then Some(m[d]) else FirstFor(calls, d)
    decreases |calls|
  {
    if calls != [] {
      FirstRegistrationWins(WithFirst(m, calls[0].0, calls[0].1), calls[1..], d);
    }
  }
}
