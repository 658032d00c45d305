/** The built-in catalog that the static constructor of
    src/GraphQL/ValueConverter.cs registers, and what converting through it
    gives. The leaves this model does not define come in as `external`, one
    conversion per leaf. */
module Catalog {
  import opened Wrappers
  import opened Types
  import Leaves
  import opened Resolution

  /** The leaves of the static constructor this model does not define, by
      the name the source gives them: text parsers, date and time, TimeSpan,
      floating-point and decimal conversions. */
  datatype Externals = Externals(
    parseShort: Conversion, parseUShort: Conversion, parseInt: Conversion, parseUInt: Conversion,
    parseLong: Conversion, parseULong: Conversion, parseFloat: Conversion, parseDouble: Conversion,
    parseDecimal: Conversion, parseDateTime: Conversion, parseDateTimeOffset: Conversion,
    parseGuid: Conversion, parseUri: Conversion,
    dateTimeToDateTimeOffset: Conversion, dateTimeOffsetToDateTime: Conversion, timeSpanToLong: Conversion,
    intToDouble: Conversion, intToDecimal: Conversion, intToTimeSpan: Conversion,
    longToDouble: Conversion, longToDecimal: Conversion, longToTimeSpan: Conversion,
    floatToDouble: Conversion, floatToDecimal: Conversion, doubleToDecimal: Conversion)

  /** The parsers registered from string, lines 21-33 (Uri comes last, at
      line 63). */
  function ParseConversions(external: Externals): map<Ty, Conversion> {
    map[
      IntTy(Int16) := external.parseShort,
      IntTy(UInt16) := external.parseUShort,
      IntTy(Int32) := external.parseInt,
      IntTy(UInt32) := external.parseUInt,
      IntTy(Int64) := external.parseLong,
      IntTy(UInt64) := external.parseULong,
      SingleTy := external.parseFloat,
      DoubleTy := external.parseDouble,
      DecimalTy := external.parseDecimal,
      DateTimeTy := external.parseDateTime,
      DateTimeOffsetTy := external.parseDateTimeOffset,
      BoolTy := Conversion(Leaves.ParseBool),
      GuidTy := external.parseGuid]
  }

  /** The conversions registered from int, lines 39-47. */
  function Int32Conversions(external: Externals): map<Ty, Conversion> {
    map[
      IntTy(Int16) := Conversion(Leaves.IntToShort),
      IntTy(UInt16) := Conversion(Leaves.IntToUShort),
      BoolTy := Conversion(Leaves.IntToBool),
      IntTy(UInt32) := Conversion(Leaves.IntToUInt),
      IntTy(Int64) := Conversion(Leaves.IntToLong),
      IntTy(UInt64) := Conversion(Leaves.IntToULong),
      DoubleTy := external.intToDouble,
      DecimalTy := external.intToDecimal,
      TimeSpanTy := external.intToTimeSpan]
  }

  /** The conversions registered from long, lines 49-56. */
  function Int64Conversions(external: Externals): map<Ty, Conversion> {
    map[
      IntTy(Int16) := Conversion(Leaves.LongToShort),
      IntTy(UInt16) := Conversion(Leaves.LongToUShort),
      IntTy(Int32) := Conversion(Leaves.LongToInt),
      IntTy(UInt32) := Conversion(Leaves.LongToUInt),
      IntTy(UInt64) := Conversion(Leaves.LongToULong),
      DoubleTy := external.longToDouble,
      DecimalTy := external.longToDecimal,
      TimeSpanTy := external.longToTimeSpan]
  }

  /** The direct table after the static constructor, keyed by source type:
      the blocks of lines 21-61, then the Uri parser of line 63 added to the
      parsers from string. */
  function BuiltinValueConversions(external: Externals): map<Ty, map<Ty, Conversion>> {
    var blocks := map[
      StringTy := ParseConversions(external),
      DateTimeTy := map[DateTimeOffsetTy := external.dateTimeToDateTimeOffset],
      DateTimeOffsetTy := map[DateTimeTy := external.dateTimeOffsetToDateTime],
      TimeSpanTy := map[IntTy(Int64) := external.timeSpanToLong],
      IntTy(Int32) := Int32Conversions(external),
      IntTy(Int64) := Int64Conversions(external),
      SingleTy := map[DoubleTy := external.floatToDouble, DecimalTy := external.floatToDecimal],
      DoubleTy := map[DecimalTy := external.doubleToDecimal]
    ];
    blocks[StringTy := blocks[StringTy][UriTy := external.parseUri]]
  }

  function BuiltinUnwrapConversions(): map<Ty, GenericConversion> {
    map[NullableDef := GenericConversion(Leaves.UnwrapNullable)]
  }

  function BuiltinTables(external: Externals): Tables {
    Tables(BuiltinValueConversions(external), map[], BuiltinUnwrapConversions())
  }

  /** An int becomes a short through the catalog exactly when it fits;
      otherwise the conversion overflows. */
  lemma IntToShortThroughCatalog(external: Externals, n: int)
    requires InRange(Int32, n)
    ensures ConvertTo(BuiltinTables(external), Integer(Int32, n), IntTy(Int16), StandardAssignable)
            == if -0x8000 <= n <= 0x7FFF then Success(Integer(Int16, n)) else Failure(Overflow)
  {
    assert LookupPair(BuiltinValueConversions(external), IntTy(Int32), IntTy(Int16))
           == Some(Conversion(Leaves.IntToShort));
  }

  /** A long becomes an int exactly when it fits. */
  lemma LongToIntThroughCatalog(external: Externals, n: int)
    requires InRange(Int64, n)
    ensures ConvertTo(BuiltinTables(external), Integer(Int64, n), IntTy(Int32), StandardAssignable)
            == if InRange(Int32, n) then Success(Integer(Int32, n)) else Failure(Overflow)
  {
    assert LookupPair(BuiltinValueConversions(external), IntTy(Int64), IntTy(Int32))
           == Some(Conversion(Leaves.LongToInt));
  }

  /** An int becomes a bool: true exactly when it is not zero. */
  lemma IntToBoolThroughCatalog(external: Externals, n: int)
    ensures ConvertTo(BuiltinTables(external), Integer(Int32, n), BoolTy, StandardAssignable)
            == Success(Bool(n != 0))
  {
    assert LookupPair(BuiltinValueConversions(external), IntTy(Int32), BoolTy)
           == Some(Conversion(Leaves.IntToBool));
  }

  /** Text becomes a bool through ParseBool: "1" and "0" first, then
      Boolean.Parse, whose rejection is a FormatException. */
  lemma TextToBoolThroughCatalog(external: Externals, s: string)
    ensures ConvertTo(BuiltinTables(external), Str(s), BoolTy, StandardAssignable)
            == if s == "1" then Success(Bool(true))
               else if s == "0" then Success(Bool(false))
               else match Leaves.ParseBoolean(s)
                    case Some(b) => Success(Bool(b))
                    case None => Failure(Format)
  {
    assert LookupPair(BuiltinValueConversions(external), StringTy, BoolTy)
           == Some(Conversion(Leaves.ParseBool));
  }

  /** A Nullable<int> holding a value is boxed to its int, which the catalog
      widens to a long. */
  lemma NullableIntToLongThroughCatalog(external: Externals, n: int)
    ensures ConvertTo(BuiltinTables(external), NullableBox(IntTy(Int32), Some(Integer(Int32, n))),
                      IntTy(Int64), StandardAssignable)
            == Success(Integer(Int64, n))
  {
    assert LookupPair(BuiltinValueConversions(external), IntTy(Int32), IntTy(Int64))
           == Some(Conversion(Leaves.IntToLong));
  }

  /** ConvertTo<int> of a Nullable<long> holding a value narrows the boxed
      long through the catalog. */
  lemma NullableLongAsIntThroughCatalog(external: Externals, n: int)
    requires InRange(Int64, n)
    ensures ConvertToTyped(BuiltinTables(external), NullableBox(IntTy(Int64), Some(Integer(Int64, n))),
                           IntTy(Int32), StandardAssignable)
            == if InRange(Int32, n) then Success(Integer(Int32, n)) else Failure(Overflow)
  {
    LongToIntThroughCatalog(external, n);
  }

  /** A Nullable<int> asked for as a string is an int to the converter, and
      the catalog has no pair from int to string. */
  lemma NullableIntToTextNotSupported(external: Externals, n: int)
    ensures ConvertTo(BuiltinTables(external), NullableBox(IntTy(Int32), Some(Integer(Int32, n))),
                      StringTy, StandardAssignable)
            == Failure(NotSupported(IntTy(Int32), StringTy))
  {
    assert StringTy !in BuiltinValueConversions(external)[IntTy(Int32)];
  }

  /** An empty Nullable converts to null for every target, and ConvertTo<int>
      turns that null into 0. */
  lemma EmptyNullableGivesNull(external: Externals, elem: Ty, targetType: Ty)
    ensures ConvertTo(BuiltinTables(external), NullableBox(elem, None), targetType, StandardAssignable)
            == Success(Null)
    ensures ConvertToTyped(BuiltinTables(external), NullableBox(elem, None), IntTy(Int32), StandardAssignable)
            == Success(Integer(Int32, 0))
  {
  }

  /** No object the converter receives has a Nullable<T> type, so the
      catalog's only generic entry, the Nullable<> unwrap, is never reached by
      the unwrap tier. When the wrap tier reaches it, it is handed a boxed
      object; every such object the model represents lacks a HasValue member,
      so binding fails. */
  lemma CatalogNullableEntryOnlyFails(external: Externals, v: Value, targetType: Ty)
    requires WellFormed(v) && Box(v) != Null
    requires GetConversion(BuiltinTables(external), TypeOf(Box(v)), targetType).Success?
    requires GetConversion(BuiltinTables(external), TypeOf(Box(v)), targetType).value.WithTypeArgs?
    ensures GetConversion(BuiltinTables(external), TypeOf(Box(v)), targetType).value.tier == TargetWrap
    ensures !StandardAssignable(TypeOf(Box(v)), targetType) ==>
              ConvertTo(BuiltinTables(external), v, targetType, StandardAssignable) == Failure(RuntimeBinder)
  {
    BoxedTypeIsNotNullable(v);
  }

  /** Text asked for as a Nullable<int> reaches the wrap tier, which hands the
      string to the Nullable<> unwrap: the string has no HasValue member, so
      binding fails. */
  lemma TextToNullableIntFails(external: Externals, s: string)
    ensures ConvertTo(BuiltinTables(external), Str(s), NullableOf(IntTy(Int32)), StandardAssignable)
            == Failure(RuntimeBinder)
  {
    assert NullableOf(IntTy(Int32)) !in BuiltinValueConversions(external)[StringTy];
  }

  /** Between two unrelated types the catalog does not name (the target is
      not a base class or interface of the value's type), no tier matches and
      conversion fails naming both types. */
  lemma UnregisteredPairNotSupported(external: Externals, a: string, b: string, token: nat,
                                     assignable: (Ty, Ty) -> bool)
    requires !assignable(Simple(a), Simple(b))
    ensures ConvertTo(BuiltinTables(external), Other(Simple(a), token), Simple(b), assignable)
            == Failure(NotSupported(Simple(a), Simple(b)))
  {
    assert Simple(a) !in BuiltinValueConversions(external);
  }
}
