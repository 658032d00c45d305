# ValueConverter: a verified model

This project models `GraphQL.ValueConverter` (src/GraphQL/ValueConverter.cs). It is the process-wide registry that converts a runtime value to a requested CLR type. The registry holds three tables:

- a direct table keyed by (source type, target type);
- a table of pairs of open generic definitions;
- one unwrap table that both `RegisterUnwrap` and `RegisterWrap` fill.

`ConvertTo` takes its argument as `object`, so a `Nullable<T>` arrives boxed: an empty one as null, one with a value as its content. It then resolves a conversion in a fixed order and the first match wins:

1. a null input gives null;
2. a value that is already an instance of the target is returned as it is;
3. the exact pair in the direct table;
4. the pair of generic definitions, when both types are generic with equal type arguments;
5. an unwrap keyed on the source's generic definition;
6. a wrap keyed on the target's generic definition, read from the same table;
7. otherwise an `InvalidOperationException` naming both types.

The static constructor fills the direct table with the built-in catalog and registers an unwrap for `Nullable<>`. Because no boxed object has a `Nullable<T>` type, the unwrap tier never reaches that entry. Only the wrap tier does, when the target is a `Nullable<T>`, and there it is handed a boxed object. For every object the model represents, that object has no `HasValue` member and binding fails (`Catalog.CatalogNullableEntryOnlyFails`); an object of a type with public `HasValue` and `Value` members would be unwrapped instead, and the model does not represent such types.

Layout:

- `wrappers.dfy`: `Option`, `Result`, and `Outcome` (pass, or the exception a registration throws).
- `types.dfy`: type handles (`Ty`), boxed values (`Value`), exceptions (`Error`), integer kinds and their ranges, the reflection queries the converter uses, `default(T)`, and the two delegate shapes (`Conversion`, `GenericConversion`).
- `leaves.dfy`: the integer and boolean leaf conversions, `Convert.ToBoolean` with `Boolean.Parse`, and the `Nullable<>` unwrap.
- `resolution.dfy`: `GetConversion`, `ConvertTo` and `ConvertTo<T>` as functions of a snapshot of the three tables, with lemmas on tier priority.
- `catalog.dfy`: the tables the static constructor builds, with examples of resolution through them.
- `value_converter.dfy`: the `Registry` class. Its map fields are reassigned by the registration methods, and `Init` models the static constructor. Around it sit the invariant the registrations keep and lemmas on last-wins and first-wins registration.

The instance-of test (`Type.IsInstanceOfType`, which is `IsAssignableFrom` on the value's type) is a parameter `assignable` of `ConvertTo`. `Types.StandardAssignable` is the concrete relation the catalog examples use: identity, every type to `object`, and `T` to `Nullable<T>`.

## Model

| member | source | states |
|---|---|---|
| Leaves.IntToShort | src/GraphQL/ValueConverter.cs:221-225 | An int succeeds exactly when it lies in -32768..32767, giving the same number as a short. An int outside that range overflows; a value that is not an int fails the unboxing cast. |
| Leaves.LongToShort | src/GraphQL/ValueConverter.cs:222-225 | A long succeeds exactly when it lies in the short range, giving the same number. Otherwise it overflows, or the cast fails for a non-long. |
| Leaves.IntToUShort | src/GraphQL/ValueConverter.cs:228-232 | An int succeeds exactly when it lies in 0..65535, giving the same number. Otherwise it overflows, or the cast fails. |
| Leaves.LongToUShort | src/GraphQL/ValueConverter.cs:229-232 | A long succeeds exactly when it lies in 0..65535, giving the same number. Otherwise it overflows, or the cast fails. |
| Leaves.IntToUInt | src/GraphQL/ValueConverter.cs:236-240 | An int succeeds exactly when it is not negative, giving the same number as a uint. Otherwise it overflows, or the cast fails. |
| Leaves.LongToUInt | src/GraphQL/ValueConverter.cs:237-240 | A long succeeds exactly when it lies in 0..2^32-1, giving the same number. Otherwise it overflows, or the cast fails. |
| Leaves.IntToULong | src/GraphQL/ValueConverter.cs:244-248 | An int succeeds exactly when it is not negative, giving the same number as a ulong. Otherwise it overflows, or the cast fails. |
| Leaves.LongToULong | src/GraphQL/ValueConverter.cs:245-248 | A long succeeds exactly when it is not negative, giving the same number. Otherwise it overflows, or the cast fails. |
| Leaves.LongToInt | src/GraphQL/ValueConverter.cs:110-114 | A long succeeds exactly when it lies in the int range, giving the same number. Otherwise it overflows, or the cast fails. |
| Leaves.IntToLong | src/GraphQL/ValueConverter.cs:116-120 | Succeeds on every int with the same number as a long, and never overflows. A non-int fails the cast. The result is a well-formed long. |
| Leaves.IntThroughLongRoundTrip | src/GraphQL/ValueConverter.cs:110-120 | Widening an int to long and then narrowing it back gives the original int. |
| Leaves.NarrowingThroughLongAgrees | src/GraphQL/ValueConverter.cs:220-248 | Narrowing an int to short, ushort, uint or ulong gives the same result, success or overflow, as widening it to long and narrowing the long. |
| Leaves.TrimStart | src/GraphQL/ValueConverter.cs:136 | The result is a suffix of the input. Everything it drops is white space or a null character, and the result does not start with one. |
| Leaves.TrimEnd | src/GraphQL/ValueConverter.cs:136 | The result is a prefix of the input. Everything it drops is white space or a null character, and the result does not end with one. |
| Leaves.TrimStartSkipsPadding | src/GraphQL/ValueConverter.cs:136 | Leading padding before a word is removed entirely, and the word is left intact. |
| Leaves.TrimEndSkipsPadding | src/GraphQL/ValueConverter.cs:136 | Trailing padding after a word is removed entirely, and the word is left intact. |
| Leaves.TrimRemovesPadding | src/GraphQL/ValueConverter.cs:136 | Trimming a word with padding on both sides gives the word. |
| Leaves.TrimKeepsWord | src/GraphQL/ValueConverter.cs:136 | A word without padding trims to itself. |
| Leaves.ParseBooleanIgnoresPadding | src/GraphQL/ValueConverter.cs:136 | Boolean.Parse reads a padded word exactly as it reads the bare word. |
| Leaves.ConvertToBoolean | src/GraphQL/ValueConverter.cs:136-141 | Any result is a bool. Null converts to false, a bool to itself, and an integer to true exactly when it is not zero. A string succeeds exactly when Boolean.Parse accepts it, with the parsed value. A rejected string is a FormatException, and every other kind of value the model represents fails with InvalidCastException. |
| Leaves.IntToBool | src/GraphQL/ValueConverter.cs:139-142 | A boxed int converts to true exactly when it is not zero. |
| Leaves.ParseBool | src/GraphQL/ValueConverter.cs:128-137 | "1" gives true and "0" gives false, by ordinal comparison before any parsing. Every other string succeeds exactly when Boolean.Parse accepts it, with its value, and otherwise fails with FormatException. Any result is a bool, and a value that is neither a string nor null fails the cast. |
| Leaves.ParseBoolDigits | src/GraphQL/ValueConverter.cs:128-137 | Boolean.Parse alone rejects "1" and "0", so only the ordinal fast path makes them convert. |
| Leaves.ParseBoolTrue | src/GraphQL/ValueConverter.cs:128-137 | "true" converts to true, because Boolean.Parse ignores letter case. |
| Leaves.ParseBoolPaddedFalse | src/GraphQL/ValueConverter.cs:128-137 | "FALSE" with any white space or null characters around it converts to false. |
| Leaves.ParseBoolRejectsYes | src/GraphQL/ValueConverter.cs:128-137 | "yes" fails with FormatException. |
| Leaves.ParseBoolRejectsPaddedDigit | src/GraphQL/ValueConverter.cs:128-137 | The fast path is exact: " 1" goes to Boolean.Parse and fails with FormatException. |
| Leaves.UnwrapNullable | src/GraphQL/ValueConverter.cs:65 | A Nullable with a value gives that value, and an empty one gives null. Any other value the model represents fails at run-time binding, because it has no HasValue member. |
| Types.DefaultOf | src/GraphQL/ValueConverter.cs:266-267 | default(T) is null or a well-formed value of type T. It is zero for every integer type and false for bool, and null for object, string, Uri and every Nullable<T>. For float, double, decimal, DateTime, DateTimeOffset, TimeSpan and Guid it is that type's zero value. |
| Types.Box | src/GraphQL/ValueConverter.cs:250 | Passing a value as `object` never yields a Nullable: an empty Nullable<T> becomes null, one with a value becomes its boxed content, and any other value is unchanged. Boxing keeps values well formed. |
| Types.BoxedTypeIsNotNullable | src/GraphQL/ValueConverter.cs:257 | The runtime type of a boxed, well-formed object is neither a constructed Nullable<T> nor an open generic definition. |
| Types.SequenceEqual | src/GraphQL/ValueConverter.cs:279 | The element-wise comparison holds exactly when the two sequences of type arguments are equal. |
| Resolution.GetConversion | src/GraphQL/ValueConverter.cs:272-304 | A failure is always NotSupported naming both types. A direct result is the registered exact pair. Any generic-tier result implies that no exact pair exists. The definition-pair tier implies that both types are generic with equal type arguments; it returns the entry registered for the two definitions and passes those arguments on. The unwrap tier returns the entry for the source's definition with the source's arguments. The wrap tier returns the entry for the target's definition with the target's arguments, and only when the source has no unwrap entry. |
| Resolution.ConvertTo | src/GraphQL/ValueConverter.cs:250-260 | The argument is boxed first. Null gives null. A boxed value that is already an instance of the target is returned unchanged. Otherwise the conversion GetConversion finds for its runtime type is applied to it, and when none is found the result is the NotSupported failure for that type and the target. |
| Resolution.ConvertToTyped | src/GraphQL/ValueConverter.cs:262-270 | A null conversion result becomes default(T). A non-null result is returned when it is an instance of T, and otherwise the cast fails with InvalidCastException. Any success is default(T) or an instance of T. A failure of ConvertTo is passed through unchanged. |
| Resolution.BoxedNullableConvertsAsContent | src/GraphQL/ValueConverter.cs:250-260 | A Nullable<T> with a value converts exactly as its content does, and an empty one converts to null, whatever the tables hold. |
| Resolution.NullConvertsToNull | src/GraphQL/ValueConverter.cs:250-270 | Null converts to null for every target, and to default(T) through ConvertTo<T>, whatever the tables hold. |
| Resolution.ShortcutsIgnoreTables | src/GraphQL/ValueConverter.cs:250-255 | On null, or on a value that already is a target instance, any two registries give the same result, even one that registers that exact pair. |
| Resolution.DirectPairWins | src/GraphQL/ValueConverter.cs:274-276 | A registered exact pair is returned, whatever the generic tiers would match. |
| Resolution.DefinitionPairTier | src/GraphQL/ValueConverter.cs:279-286 | The definition-pair tier fires if and only if: there is no exact pair; both types are generic with equal type arguments; and the pair of their definitions is registered. |
| Resolution.DefinitionMissFallsThrough | src/GraphQL/ValueConverter.cs:279-286 | When the definition pair is missing, resolution continues exactly as if the definition table were empty. |
| Resolution.UnwrapBeforeWrap | src/GraphQL/ValueConverter.cs:288-300 | With no exact pair and no definition pair, the source's unwrap entry is used with the source's type arguments, even when the target's definition also has an entry. |
| Resolution.NotSupportedExactly | src/GraphQL/ValueConverter.cs:272-304 | Resolution fails if and only if no tier matches, and the error names both types. |
| Resolution.NonGenericReadsOnlyDirect | src/GraphQL/ValueConverter.cs:274-300 | Between two non-generic types only the direct table is read. |
| ValueConverter.WithPairLookup | src/GraphQL/ValueConverter.cs:308-312 | After storing into the inner dictionary created on demand, the stored pair finds the new conversion and every other pair finds what it found before. |
| ValueConverter.WithFirst | src/GraphQL/ValueConverter.cs:336-337 | Adding only when the key is absent keeps an existing entry, stores the new one otherwise, and changes no other key. |
| ValueConverter.Registry.Empty | src/GraphQL/ValueConverter.cs:10-17 | The tables start empty and well keyed. |
| ValueConverter.Registry.Register | src/GraphQL/ValueConverter.cs:306-313 | Only the direct table changes, and its new value is the old one with the pair set to the conversion, inside an inner dictionary created on demand. Well-keyed tables stay well keyed. |
| ValueConverter.Registry.RegisterTypeDefinition | src/GraphQL/ValueConverter.cs:315-327 | Fails with ArgumentException if and only if either type is not an open generic definition, and then nothing changes. Otherwise only the definition table changes, with the pair overwritten. Well-keyed tables stay well keyed. |
| ValueConverter.Registry.RegisterUnwrap | src/GraphQL/ValueConverter.cs:329-338 | Fails with ArgumentException if and only if the type is not an open generic definition, and then nothing changes. Otherwise the unwrap table gains the entry only if the definition has none. Well-keyed tables stay well keyed. |
| ValueConverter.Registry.RegisterWrap | src/GraphQL/ValueConverter.cs:340-349 | Behaves like RegisterUnwrap, with its own message, on the same unwrap table. |
| ValueConverter.Registry.RegisterParsers | src/GraphQL/ValueConverter.cs:21-33 | The thirteen parser registrations leave the direct table with exactly the catalog's parsers from string. |
| ValueConverter.Registry.RegisterClockConversions | src/GraphQL/ValueConverter.cs:35-37 | The three date and time registrations add one inner dictionary each. |
| ValueConverter.Registry.RegisterInt32Conversions | src/GraphQL/ValueConverter.cs:39-47 | The nine registrations from int leave exactly the catalog's int dictionary. |
| ValueConverter.Registry.RegisterInt64Conversions | src/GraphQL/ValueConverter.cs:49-56 | The eight registrations from long leave exactly the catalog's long dictionary. |
| ValueConverter.Registry.RegisterFloatingConversions | src/GraphQL/ValueConverter.cs:58-61 | The float and double registrations add their two inner dictionaries. |
| ValueConverter.Registry.RegisterBuiltinConversions | src/GraphQL/ValueConverter.cs:21-63 | Starting from an empty table, the direct registrations, in source order, build exactly the built-in catalog. The Uri parser comes last and joins the string dictionary. |
| ValueConverter.Registry.Init | src/GraphQL/ValueConverter.cs:19-66 | The static constructor leaves the tables equal to the built-in catalog plus the Nullable<> unwrap, and well keyed. |
| ValueConverter.RegisterKeepsWellKeyed | src/GraphQL/ValueConverter.cs:306-313 | Register keeps every inner dictionary non-empty and the generic tables keyed by definitions. |
| ValueConverter.RegisterTypeDefinitionKeepsWellKeyed | src/GraphQL/ValueConverter.cs:315-327 | An accepted definition pair keeps the tables well keyed. |
| ValueConverter.RegisterContainerKeepsWellKeyed | src/GraphQL/ValueConverter.cs:329-349 | An accepted unwrap or wrap registration keeps the tables well keyed. |
| ValueConverter.BuiltinTablesWellKeyed | src/GraphQL/ValueConverter.cs:19-66 | The tables the static constructor builds are well keyed. |
| ValueConverter.RegisterRedirectsOnlyItsPair | src/GraphQL/ValueConverter.cs:306-313 | After Register(a, b, f) the pair (a, b) resolves to f, and every other pair resolves as it did before. |
| ValueConverter.LastFor | src/GraphQL/ValueConverter.cs:306-313 | Finds the last call naming the pair: none exactly when no call names it, and otherwise a call with that conversion that no later call for the pair follows. |
| ValueConverter.LastRegistrationWins | src/GraphQL/ValueConverter.cs:306-313 | After any sequence of Register calls, a pair resolves to the conversion of the last call naming it, and a pair no call names keeps its old entry. |
| ValueConverter.FirstFor | src/GraphQL/ValueConverter.cs:329-349 | Finds the first call naming the definition: none exactly when no call names it, and otherwise a call with that conversion that no earlier call for the definition precedes. |
| ValueConverter.FirstRegistrationWins | src/GraphQL/ValueConverter.cs:329-349 | After any mix of unwrap and wrap registrations, a definition keeps its old entry if it had one, and otherwise holds the first conversion registered for it by either method. |
| Catalog.IntToShortThroughCatalog | src/GraphQL/ValueConverter.cs:39 | Through the built-in catalog, an int becomes a short with the same value when it fits, and otherwise overflows. |
| Catalog.LongToIntThroughCatalog | src/GraphQL/ValueConverter.cs:51 | Through the catalog, a long becomes an int with the same value when it fits, and otherwise overflows. |
| Catalog.IntToBoolThroughCatalog | src/GraphQL/ValueConverter.cs:41 | Through the catalog, an int becomes true exactly when it is not zero. |
| Catalog.TextToBoolThroughCatalog | src/GraphQL/ValueConverter.cs:32 | Through the catalog, text becomes a bool by the "1"/"0" fast path, then Boolean.Parse, and otherwise fails with FormatException. |
| Catalog.NullableIntToLongThroughCatalog | src/GraphQL/ValueConverter.cs:43 | A Nullable<int> holding n is boxed to the int n, which the catalog widens to the long n. |
| Catalog.NullableLongAsIntThroughCatalog | src/GraphQL/ValueConverter.cs:51 | ConvertTo<int> of a Nullable<long> holding n gives the int n when it fits, and overflows otherwise. |
| Catalog.NullableIntToTextNotSupported | src/GraphQL/ValueConverter.cs:302-303 | A Nullable<int> asked for as a string fails with NotSupported naming Int32 and String, because the catalog has no such pair. |
| Catalog.EmptyNullableGivesNull | src/GraphQL/ValueConverter.cs:252-253 | An empty Nullable converts to null for every target, and ConvertTo<int> turns that null into 0. |
| Catalog.CatalogNullableEntryOnlyFails | src/GraphQL/ValueConverter.cs:288-299 | For any well-formed value, a generic-tier conversion through the catalog is always the wrap tier. When that tier is taken for a value that is not an instance of the target, the conversion fails at run-time binding, because no value the model represents has public HasValue and Value members. |
| Catalog.TextToNullableIntFails | src/GraphQL/ValueConverter.cs:295-299 | Text asked for as a Nullable<int> reaches the wrap tier, whose only entry is the Nullable<> unwrap, and fails at binding. |
| Catalog.UnregisteredPairNotSupported | src/GraphQL/ValueConverter.cs:302-303 | Between two unrelated types the catalog does not name (the target is not assignable from the value's type), conversion fails naming both types. |

## Left out

- The leaves whose meaning lies in library parsers or in floating-point, date and time arithmetic. These are the text → number, date, Guid and Uri parsers; the date and time conversions; `IntToTimeSpan`/`LongToTimeSpan`; and the float, double and decimal conversions. They are opaque `Conversion` fields of `Catalog.Externals`, registered under the pairs the source uses. The model does not state their results.
- `TimeSpanToLong` (line 160) returns `TotalSeconds`, a double, although it is registered for target `long`. As an opaque leaf it is not modelled, and its result type is not checked.
- The `WrapConversions` field (line 10) is declared but never read or written, so it has no counterpart.
- The registry is unsynchronised static state; concurrency and the timing of the static constructor are not modelled. `Init` requires the tables to be empty, as they are before the constructor runs.
- Reflection is abstracted. `IsInstanceOfType` is the `assignable` parameter, and `GetType` is `Types.TypeOf`, a fixed mapping from boxed values. Every well-known System type has its own handle, distinct from any other type.
- `default(T)` is modelled for the built-in types, reference types and `Nullable<>`. Any other value type defaults to null in the model.
- Leaves.IntToBool: the contract states the boxed-int case, the only input the catalog hands it; other inputs follow `Leaves.ConvertToBoolean`, whose contract covers them. `Convert.ToBoolean` on float, double and decimal values is not modelled; they fail the cast in the model.
- Leaves.ConvertToBoolean: `Convert.ToBoolean` gives `value != 0` for byte, sbyte and enum values and compares float, double and decimal values with zero. The model has no such kinds: those values are `Other` and fail with InvalidCastException. The catalog hands this leaf only ints and strings.
- Leaves.UnwrapNullable: the model gives no object other than a `Nullable<T>` public `HasValue` and `Value` members. In the program, an object of any type that has them, such as a `StringSegment` or a user-defined optional type, passes the binding at line 65, and the wrap tier returns its `Value`. `Catalog.CatalogNullableEntryOnlyFails` holds only for the objects the model represents.
- Boolean.Parse ignores letter case for ASCII letters only; culture-specific case folding is not modelled.
- Exception messages are modelled for the three `ArgumentException`s. The `InvalidOperationException` carries the two types, not their `FullName` text.
- Delegates are the datatypes `Conversion` and `GenericConversion` holding a function. A null delegate, a null type argument and delegate identity are not modelled.
- The `dynamic` call in the `Nullable<>` unwrap is modelled by its outcome only. `Leaves.UnwrapNullable` is stated for a `NullableBox` too, though `ConvertTo` never hands it one.
- The unboxing casts in the leaves, such as `(int)value`, throw NullReferenceException on null. The model gives InvalidCast for every value of the wrong kind, null included. Null never reaches a leaf, because `ConvertTo` returns before any lookup (lines 252-253).
