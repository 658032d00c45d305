/** The integer and boolean leaf conversions of the built-in catalog, and the
    unwrap registered for Nullable<> (src/GraphQL/ValueConverter.cs). Every leaf
    accepts any boxed value: its cast fails with InvalidCast on a value of the
    wrong type, as `(int)value` does. */
module Leaves {
  import opened Wrappers
  import opened Types

  /** `v` is a boxed integer of kind `k`: the unboxing cast to `k` succeeds. */
  predicate IsBoxed(v: Value, k: IntKind) {
    v.Integer? && v.kind == k
  }

  /** Convert.ToInt16, ToUInt16, ToInt32, ToUInt32 and ToUInt64 on an integer:
      the same number as a `k`, or OverflowException outside `k`'s range. */
  function ToKind(k: IntKind, n: int): Result<Value, Error> {
    if InRange(k, n) then Success(Integer(k, n)) else Failure(Overflow)
  }

  /** The unboxing cast to `from`, then Convert to `to`. */
  function Narrow(v: Value, from: IntKind, to: IntKind): Result<Value, Error> {
    if IsBoxed(v, from) then ToKind(to, v.n) else Failure(InvalidCast)
  }

  function IntToShort(v: Value): (r: Result<Value, Error>)
    ensures r.Success? <==> IsBoxed(v, Int32) && -0x8000 <= v.n <= 0x7FFF
    ensures r.Success? ==> v.Integer? && r.value == Integer(Int16, v.n)
    ensures r.Failure? ==> r.error == if IsBoxed(v, Int32) then Overflow else InvalidCast
  {
    Narrow(v, Int32, Int16)
  }

  function LongToShort(v: Value): (r: Result<Value, Error>)
    ensures r.Success? <==> IsBoxed(v, Int64) && -0x8000 <= v.n <= 0x7FFF
    ensures r.Success? ==> v.Integer? && r.value == Integer(Int16, v.n)
    ensures r.Failure? ==> r.error == if IsBoxed(v, Int64) then Overflow else InvalidCast
  {
    Narrow(v, Int64, Int16)
  }

  function IntToUShort(v: Value): (r: Result<Value, Error>)
    ensures r.Success? <==> IsBoxed(v, Int32) && 0 <= v.n <= 0xFFFF
    ensures r.Success? ==> v.Integer? && r.value == Integer(UInt16, v.n)
    ensures r.Failure? ==> r.error == if IsBoxed(v, Int32) then Overflow else InvalidCast
  {
    Narrow(v, Int32, UInt16)
  }

  function LongToUShort(v: Value): (r: Result<Value, Error>)
    ensures r.Success? <==> IsBoxed(v, Int64) && 0 <= v.n <= 0xFFFF
    ensures r.Success? ==> v.Integer? && r.value == Integer(UInt16, v.n)
    ensures r.Failure? ==> r.error == if IsBoxed(v, Int64) then Overflow else InvalidCast
  {
    Narrow(v, Int64, UInt16)
  }

  function IntToUInt(v: Value): (r: Result<Value, Error>)
    ensures r.Success? <==> IsBoxed(v, Int32) && 0 <= v.n <= 0xFFFF_FFFF
    ensures r.Success? ==> v.Integer? && r.value == Integer(UInt32, v.n)
    ensures r.Failure? ==> r.error == if IsBoxed(v, Int32) then Overflow else InvalidCast
  {
    Narrow(v, Int32, UInt32)
  }

  function LongToUInt(v: Value): (r: Result<Value, Error>)
    ensures r.Success? <==> IsBoxed(v, Int64) && 0 <= v.n <= 0xFFFF_FFFF
    ensures r.Success? ==> v.Integer? && r.value == Integer(UInt32, v.n)
    ensures r.Failure? ==> r.error == if IsBoxed(v, Int64) then Overflow else InvalidCast
  {
    Narrow(v, Int64, UInt32)
  }

  function IntToULong(v: Value): (r: Result<Value, Error>)
    ensures r.Success? <==> IsBoxed(v, Int32) && 0 <= v.n <= 0xFFFF_FFFF_FFFF_FFFF
    ensures r.Success? ==> v.Integer? && r.value == Integer(UInt64, v.n)
    ensures r.Failure? ==> r.error == if IsBoxed(v, Int32) then Overflow else InvalidCast
  {
    Narrow(v, Int32, UInt64)
  }

  function LongToULong(v: Value): (r: Result<Value, Error>)
    ensures r.Success? <==> IsBoxed(v, Int64) && 0 <= v.n <= 0xFFFF_FFFF_FFFF_FFFF
    ensures r.Success? ==> v.Integer? && r.value == Integer(UInt64, v.n)
    ensures r.Failure? ==> r.error == if IsBoxed(v, Int64) then Overflow else InvalidCast
  {
    Narrow(v, Int64, UInt64)
  }

  function LongToInt(v: Value): (r: Result<Value, Error>)
    ensures r.Success? <==> IsBoxed(v, Int64) && -0x8000_0000 <= v.n <= 0x7FFF_FFFF
    ensures r.Success? ==> v.Integer? && r.value == Integer(Int32, v.n)
    ensures r.Failure? ==> r.error == if IsBoxed(v, Int64) then Overflow else InvalidCast
  {
    Narrow(v, Int64, Int32)
  }

  /** The cast `(long)intValue` widens and never overflows. */
  function IntToLong(v: Value): (r: Result<Value, Error>)
    ensures r.Success? <==> IsBoxed(v, Int32)
    ensures r.Success? ==> v.Integer? && r.value == Integer(Int64, v.n)
    ensures r.Failure? ==> r.error == InvalidCast
    ensures WellFormed(v) && r.Success? ==> WellFormed(r.value)
  {
    if IsBoxed(v, Int32) then Success(Integer(Int64, v.n)) else Failure(InvalidCast)
  }

  /** Widening to long and narrowing back gives the int that went in. */
  lemma IntThroughLongRoundTrip(v: Value)
    requires IsBoxed(v, Int32) && WellFormed(v)
    ensures IntToLong(v).Success? && LongToInt(IntToLong(v).value) == Success(v)
  {
  }

  /** Narrowing an int directly and narrowing it after widening to long agree,
      for every target both leaf families cover. */
  lemma NarrowingThroughLongAgrees(v: Value)
    requires IsBoxed(v, Int32)
    ensures LongToShort(IntToLong(v).value) == IntToShort(v)
    ensures LongToUShort(IntToLong(v).value) == IntToUShort(v)
    ensures LongToUInt(IntToLong(v).value) == IntToUInt(v)
    ensures LongToULong(IntToLong(v).value) == IntToULong(v)
  {
  }

  /** char.IsWhiteSpace, or the null character: what Boolean.Parse trims from
      both ends of its input. */
  predicate IsTrimmable(c: char) {
    var n := c as int;
    n == 0 || 0x09 <= n <= 0x0D || n == 0x20 || n == 0x85 || n == 0xA0 || n == 0x1680
    || 0x2000 <= n <= 0x200A || n == 0x2028 || n == 0x2029 || n == 0x202F || n == 0x205F
    || n == 0x3000
  }

  /** The longest suffix of `s` that does not start with a trimmable character. */
  function TrimStart(s: string): (r: string)
    ensures |r| <= |s| && r == s[|s| - |r|..]
    ensures forall i :: 0 <= i < |s| - |r| ==> IsTrimmable(s[i])
    ensures r != [] ==> !IsTrimmable(r[0])
  {
    if s != [] && IsTrimmable(s[0]) then TrimStart(s[1..]) else s
  }

  /** The longest prefix of `s` that does not end with a trimmable character. */
  function TrimEnd(s: string): (r: string)
    ensures |r| <= |s| && r == s[..|r|]
    ensures forall i :: |r| <= i < |s| ==> IsTrimmable(s[i])
    ensures r != [] ==> !IsTrimmable(r[|r| - 1])
  {
    if s != [] && IsTrimmable(s[|s| - 1]) then TrimEnd(s[..|s| - 1]) else s
  }

  function Trim(s: string): string {
    TrimEnd(TrimStart(s))
  }

  function UpperAscii(c: char): char {
    if 'a' <= c <= 'z' then (c as int - 32) as char else c
  }

  /** Ordinal comparison ignoring the case of ASCII letters. */
  predicate EqualsIgnoreCase(a: string, b: string) {
    |a| == |b| && forall i :: 0 <= i < |a| ==> UpperAscii(a[i]) == UpperAscii(b[i])
  }

  /** Boolean.Parse: "True" or "False" in any letter case, after trimming white
      space and null characters from both ends; None stands for FormatException. */
  function ParseBoolean(s: string): Option<bool> {
    var t := Trim(s);
    if EqualsIgnoreCase(t, "True") then Some(true)
    else if EqualsIgnoreCase(t, "False") then Some(false)
    else None
  }

  /** Convert.ToBoolean(object, provider): null is false, a bool is itself, an
      integer is true exactly when it is not zero, and a string goes through
      Boolean.Parse. */
  function ConvertToBoolean(v: Value): (r: Result<Value, Error>)
    ensures r.Success? ==> r.value.Bool?
    ensures v == Null ==> r == Success(Bool(false))
    ensures v.Bool? ==> r == Success(v)
    ensures v.Integer? ==> r == Success(Bool(v.n != 0))
    ensures v.Str? ==> (r.Success? <==> ParseBoolean(v.s).Some?)
    ensures v.Str? && r.Success? ==> ParseBoolean(v.s) == Some(r.value.b)
    ensures r.Failure? ==> r.error == if v.Str? then Format else InvalidCast
    ensures !(v.Null? || v.Bool? || v.Integer? || v.Str?) ==> r == Failure(InvalidCast)
  {
    match v
    case Null => Success(Bool(false))
    case Bool(b) => Success(Bool(b))
    case Integer(_, n) => Success(Bool(n != 0))
    case Str(s) =>
      (match ParseBoolean(s)
       case Some(b) => Success(Bool(b))
       case None => Failure(Format))
    case _ => Failure(InvalidCast)
  }

  function IntToBool(v: Value): (r: Result<Value, Error>)
    ensures IsBoxed(v, Int32) ==> r == Success(Bool(v.n != 0))
  {
    ConvertToBoolean(v)
  }

  /** "1" and "0", compared ordinally, come first; every other string goes to
      Boolean.Parse. The cast `(string)value` lets null through. */
  function ParseBool(v: Value): (r: Result<Value, Error>)
    ensures v == Str("1") ==> r == Success(Bool(true))
    ensures v == Str("0") ==> r == Success(Bool(false))
    ensures v.Str? && v.s != "1" && v.s != "0" ==>
              (r.Success? <==> ParseBoolean(v.s).Some?)
              && (r.Success? ==> r.value.Bool? && ParseBoolean(v.s) == Some(r.value.b))
              && (r.Failure? ==> r.error == Format)
    ensures r.Success? ==> r.value.Bool?
    ensures !v.Str? && !v.Null? ==> r == Failure(InvalidCast)
  {
    match v
    case Str(s) =>
      if s == "1" then Success(Bool(true))
      else if s == "0" then Success(Bool(false))
      else ConvertToBoolean(v)
    case Null => ConvertToBoolean(v)
    case _ => Failure(InvalidCast)
  }

  /** The ordinal fast path is what makes "1" and "0" convert: Boolean.Parse
      alone rejects both. */
  lemma ParseBoolDigits()
    ensures ParseBoolean("1") == None && ParseBoolean("0") == None
    ensures ParseBool(Str("1")) == Success(Bool(true))
    ensures ParseBool(Str("0")) == Success(Bool(false))
  {
    assert Trim("1") == "1" && Trim("0") == "0";
  }

  /** Any other string goes to Boolean.Parse, which ignores letter case ... */
  lemma ParseBoolTrue()
    ensures ParseBool(Str("true")) == Success(Bool(true))
  {
    ParseBooleanOfWord("true");
    assert EqualsIgnoreCase("true", "True") by {
      assert UpperAscii('t') == 'T' && UpperAscii('r') == 'R' && UpperAscii('u') == 'U' && UpperAscii('e') == 'E';
    }
  }

  lemma {:induction false} TrimStartSkipsPadding(pad: string, w: string)
    requires forall i :: 0 <= i < |pad| ==> IsTrimmable(pad[i])
    requires w != [] && !IsTrimmable(w[0])
    ensures TrimStart(pad + w) == w
  {
    if pad != [] {
      assert (pad + w)[1..] == pad[1..] + w;
      TrimStartSkipsPadding(pad[1..], w);
    }
  }

  lemma {:induction false} TrimEndSkipsPadding(w: string, pad: string)
    requires forall i :: 0 <= i < |pad| ==> IsTrimmable(pad[i])
    requires w != [] && !IsTrimmable(w[|w| - 1])
    ensures TrimEnd(w + pad) == w
  {
    if pad != [] {
      assert (w + pad)[..|w + pad| - 1] == w + pad[..|pad| - 1];
      TrimEndSkipsPadding(w, pad[..|pad| - 1]);
    }
  }

  lemma TrimRemovesPadding(before: string, w: string, after: string)
    requires forall i :: 0 <= i < |before| ==> IsTrimmable(before[i])
    requires forall i :: 0 <= i < |after| ==> IsTrimmable(after[i])
    requires w != [] && !IsTrimmable(w[0]) && !IsTrimmable(w[|w| - 1])
    ensures Trim(before + w + after) == w
  {
    assert before + w + after == before + (w + after);
    TrimStartSkipsPadding(before, w + after);
    TrimEndSkipsPadding(w, after);
  }

  lemma TrimKeepsWord(w: string)
    requires w != [] && !IsTrimmable(w[0]) && !IsTrimmable(w[|w| - 1])
    ensures Trim(w) == w
  {
  }

  /** Boolean.Parse on a word with no padding compares the word itself. */
  lemma ParseBooleanOfWord(w: string)
    requires w != [] && !IsTrimmable(w[0]) && !IsTrimmable(w[|w| - 1])
    ensures ParseBoolean(w) == if EqualsIgnoreCase(w, "True") then Some(true)
                               else if EqualsIgnoreCase(w, "False") then Some(false)
                               else None
  {
    TrimKeepsWord(w);
  }

  /** Boolean.Parse reads a word the same with or without white space and
      null characters around it. */
  lemma ParseBooleanIgnoresPadding(before: string, w: string, after: string)
    requires forall i :: 0 <= i < |before| ==> IsTrimmable(before[i])
    requires forall i :: 0 <= i < |after| ==> IsTrimmable(after[i])
    requires w != [] && !IsTrimmable(w[0]) && !IsTrimmable(w[|w| - 1])
    ensures ParseBoolean(before + w + after) == ParseBoolean(w)
  {
    TrimRemovesPadding(before, w, after);
    TrimKeepsWord(w);
  }

  /** ... and white space or null characters around the word. */
  lemma ParseBoolPaddedFalse(before: string, after: string)
    requires forall i :: 0 <= i < |before| ==> IsTrimmable(before[i])
    requires forall i :: 0 <= i < |after| ==> IsTrimmable(after[i])
    ensures ParseBool(Str(before + "FALSE" + after)) == Success(Bool(false))
  {
    ParseBooleanIgnoresPadding(before, "FALSE", after);
    ParseBooleanOfWord("FALSE");
    assert !EqualsIgnoreCase("FALSE", "True");
    assert EqualsIgnoreCase("FALSE", "False") by {
      assert UpperAscii('a') == 'A' && UpperAscii('l') == 'L' && UpperAscii('s') == 'S' && UpperAscii('e') == 'E';
    }
    assert |before + "FALSE" + after| >= 5;
  }

  /** Words other than true and false fail with FormatException. */
  lemma ParseBoolRejectsYes()
    ensures ParseBool(Str("yes")) == Failure(Format)
  {
    ParseBooleanOfWord("yes");
  }

  /** The fast path is exact: a padded "1" reaches Boolean.Parse and fails. */
  lemma ParseBoolRejectsPaddedDigit()
    ensures ParseBool(Str(" 1")) == Failure(Format)
  {
    var t := Trim(" 1");
    assert TrimStart(" 1") == "1";
    assert t == "1";
  }

  /** The lambda registered for Nullable<>: `value.HasValue ? value.Value : null`,
      bound at run time, ignoring the type arguments. A value with no HasValue
      member fails at binding. */
  function UnwrapNullable(v: Value, typeArgs: seq<Ty>): (r: Result<Value, Error>)
    ensures v.NullableBox? && v.content.Some? ==> r == Success(v.content.value)
    ensures v.NullableBox? && v.content.None? ==> r == Success(Null)
    ensures !v.NullableBox? ==> r == Failure(RuntimeBinder)
  {
    match v
    case NullableBox(_, content) =>
      (match content
       case Some(inner) => Success(inner)
       case None => Success(Null))
    case _ => Failure(RuntimeBinder)
  }
}
