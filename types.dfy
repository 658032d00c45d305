/** Runtime type handles, boxed values and the exceptions of the value
    converter: what System.Type, object and the thrown exception types present
    to src/GraphQL/ValueConverter.cs. */
module Types {
  import opened Wrappers

  /** The System types the built-in catalog names. */
  datatype Known =
    | Object | String | Boolean | Single | Double | Decimal
    | DateTime | DateTimeOffset | TimeSpan | Guid | Uri
    | Integral(kind: IntKind)

  /** A runtime type handle. Each System type the catalog names has one handle;
      every other non-generic type is identified by its full name. */
  datatype Ty =
    | Builtin(known: Known)                 // a System type of the catalog
    | Simple(name: string)                  // any other non-generic type, by full name
    | GenericDef(name: string, arity: nat)  // an open generic definition, such as Nullable<>
    | Generic(def: Ty, args: seq<Ty>)       // a constructed generic type, such as Nullable<int>

  /** Type.IsGenericType: true of a constructed generic type and of an open
      definition alike. */
  predicate IsGenericType(t: Ty) {
    t.Generic? || t.GenericDef?
  }

  /** Type.IsGenericTypeDefinition */
  predicate IsGenericTypeDefinition(t: Ty) {
    t.GenericDef?
  }

  /** Type.GetGenericTypeDefinition: a definition is its own definition. */
  function GetGenericTypeDefinition(t: Ty): Ty
    requires IsGenericType(t)
  {
    if t.Generic? then t.def else t
  }

  /** Type.GenericTypeArguments: empty for non-generic types and for open
      definitions. */
  function GenericTypeArguments(t: Ty): seq<Ty> {
    if t.Generic? then t.args else []
  }

  /** Enumerable.SequenceEqual over type handles, element by element. */
  function SequenceEqual(a: seq<Ty>, b: seq<Ty>): (r: bool)
    ensures r <==> a == b
  {
    if a == [] || b == [] then a == [] && b == []
    else a[0] == b[0] && SequenceEqual(a[1..], b[1..])
  }

  const ObjectTy := Builtin(Object)
  const StringTy := Builtin(String)
  const BoolTy := Builtin(Boolean)
  const SingleTy := Builtin(Single)
  const DoubleTy := Builtin(Double)
  const DecimalTy := Builtin(Decimal)
  const DateTimeTy := Builtin(DateTime)
  const DateTimeOffsetTy := Builtin(DateTimeOffset)
  const TimeSpanTy := Builtin(TimeSpan)
  const GuidTy := Builtin(Guid)
  const UriTy := Builtin(Uri)
  const NullableDef := GenericDef("System.Nullable`1", 1)

  function NullableOf(t: Ty): Ty {
    Generic(NullableDef, [t])
  }

  /** The fixed-width integer types the converter narrows and widens between. */
  datatype IntKind = Int16 | UInt16 | Int32 | UInt32 | Int64 | UInt64

  function MinValue(k: IntKind): int {
    match k
    case Int16 => -0x8000
    case Int32 => -0x8000_0000
    case Int64 => -0x8000_0000_0000_0000
    case _ => 0
  }

  function MaxValue(k: IntKind): int {
    match k
    case Int16 => 0x7FFF
    case UInt16 => 0xFFFF
    case Int32 => 0x7FFF_FFFF
    case UInt32 => 0xFFFF_FFFF
    case Int64 => 0x7FFF_FFFF_FFFF_FFFF
    case UInt64 => 0xFFFF_FFFF_FFFF_FFFF
  }

  predicate InRange(k: IntKind, n: int) {
    MinValue(k) <= n <= MaxValue(k)
  }

  function IntTy(k: IntKind): Ty {
    Builtin(Integral(k))
  }

  /** The integer kind a type handle names, if any. */
  function KindOf(t: Ty): (r: Option<IntKind>)
    ensures r.Some? ==> IntTy(r.value) == t
    ensures forall k :: IntTy(k) == t ==> r == Some(k)
  {
    if t.Builtin? && t.known.Integral? then Some(t.known.kind) else None
  }

  /** A value, or null. `NullableBox` is a Nullable<T> as a typed variable
      holds it, before it is passed as `object` (see Box); values of the types
      the model does not interpret carry their type and an opaque token. */
  datatype Value =
    | Null
    | Integer(kind: IntKind, n: int)
    | Bool(b: bool)
    | Str(s: string)
    | NullableBox(elem: Ty, content: Option<Value>)
    | Other(ty: Ty, token: nat)

  /** object.GetType() */
  function TypeOf(v: Value): Ty
    requires v != Null
  {
    match v
    case Integer(k, _) => IntTy(k)
    case Bool(_) => BoolTy
    case Str(_) => StringTy
    case NullableBox(e, _) => NullableOf(e)
    case Other(t, _) => t
  }

  /** Types whose values have a dedicated constructor of Value. */
  predicate IsInterpreted(t: Ty) {
    t == StringTy || t == BoolTy || KindOf(t).Some? || (t.Generic? && t.def == NullableDef)
  }

  /** Every integer fits its kind, a container holds a value of its element
      type, and an Other value neither has an interpreted type nor an open
      definition as its type. */
  predicate WellFormed(v: Value) {
    match v
    case Null => true
    case Integer(k, n) => InRange(k, n)
    case Bool(_) => true
    case Str(_) => true
    case NullableBox(e, c) =>
      c.Some? ==> c.value != Null && WellFormed(c.value) && TypeOf(c.value) == e
    case Other(t, _) => !IsInterpreted(t) && !IsGenericTypeDefinition(t)
  }

  /** Boxing to object, as the CLR does when a value is passed as `object`:
      an empty Nullable<T> becomes null and a Nullable<T> with a value
      becomes its boxed content, so no boxed object has a Nullable<T> type. */
  function Box(v: Value): (b: Value)
    ensures !b.NullableBox?
    ensures !v.NullableBox? ==> b == v
    ensures v.NullableBox? && v.content.None? ==> b == Null
    ensures v.NullableBox? && v.content.Some? ==> b == Box(v.content.value)
    ensures WellFormed(v) ==> WellFormed(b)
  {
    match v
    case NullableBox(_, content) =>
      (match content
       case None => Null
       case Some(inner) => Box(inner))
    case _ => v
  }

  /** The runtime type of a boxed, well-formed object is never a constructed
      Nullable<T>. */
  lemma BoxedTypeIsNotNullable(v: Value)
    requires WellFormed(v) && Box(v) != Null
    ensures !(TypeOf(Box(v)).Generic? && TypeOf(Box(v)).def == NullableDef)
    ensures !IsGenericTypeDefinition(TypeOf(Box(v)))
  {
  }

  /** The exceptions the converter raises or lets through. */
  datatype Error =
    | NotSupported(valueType: Ty, targetType: Ty)  // InvalidOperationException "Could not find conversion ..."
    | Overflow                                      // OverflowException from Convert.ToXxx
    | Format                                        // FormatException from a parser
    | InvalidCast                                   // InvalidCastException from an unboxing cast
    | RuntimeBinder                                 // a member missing at dynamic binding
    | Argument(message: string)                     // ArgumentException from a registration

  /** A Func<object, object> delegate: a direct conversion. */
  datatype Conversion = Conversion(apply: Value -> Result<Value, Error>)

  /** A Func<object, Type[], object> delegate: a conversion handed the type
      arguments. */
  datatype GenericConversion = GenericConversion(apply: (Value, seq<Ty>) -> Result<Value, Error>)

  /** default(T): zero for the integer kinds, false for bool, an opaque zero for
      the other value types the catalog names, null for reference types and
      for Nullable<T>. */
  function DefaultOf(t: Ty): (d: Value)
    ensures d == Null || (WellFormed(d) && TypeOf(d) == t)
    ensures KindOf(t).Some? ==> d.Integer? && d.n == 0
    ensures t == BoolTy ==> d == Bool(false)
    ensures t in {ObjectTy, StringTy, UriTy} || (t.Generic? && t.def == NullableDef) ==> d == Null
    ensures t in {SingleTy, DoubleTy, DecimalTy, DateTimeTy, DateTimeOffsetTy, TimeSpanTy, GuidTy} ==> d == Other(t, 0)
  {
    if KindOf(t).Some? then Integer(KindOf(t).value, 0)
    else if t == BoolTy then Bool(false)
    else if t in {SingleTy, DoubleTy, DecimalTy, DateTimeTy, DateTimeOffsetTy, TimeSpanTy, GuidTy} then Other(t, 0)
    else Null
  }

  /** The cases of Type.IsAssignableFrom the examples rely on: identity,
      System.Object, and T to Nullable<T>. */
  predicate StandardAssignable(from: Ty, to: Ty) {
    from == to || to == ObjectTy || to == NullableOf(from)
  }
}
