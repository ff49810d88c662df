# Option and Either for C#, modelled in Dafny

This project models a small C# library of two immutable containers and the
LINQ-style query operators over them:

- `IOption<T>` is a struct that is either defined with a value (`Some`) or empty
  (`None`). It has a partial `Get`, `GetOrElse`/`Else` with value and producer
  overloads, functional and effectful `Match` (plain and predicate-guarded),
  `MatchSome`/`MatchNone`, `Map`, `FlatMap`, `Filter`, `Contains`, `Exists`,
  `Equals(T)`, `GetHashCode`, a 0-or-1 element enumeration and `ToEither`.
- `IEither<L, R>` is a closed sum with a left and a right implementation.
  It has strict `Left`/`Right` accessors, `IsLeft`/`IsRight`, `Use` in functional
  and effectful forms, and right-biased `Map`, `GetOrElse` and `ToOption`. It
  also enumerates 0 or 1 elements.
- `OptionalLinqExtension` and `EitherLinqExtension` provide `FirstOption`,
  `Select`, `SelectMany`, `Where`, `Zip`, `HasValue` and `Any`.

Every operation is a pure Dafny function, or a method where the source loops
over a sequence. An operation that can throw returns `Result<T> = Ok(value) |
Err(error)`. The error kinds are:

- `NoneGet`: `Get` on an empty option.
- `InvalidOp`: reading the inactive side of an Either.
- `ArgNull`: the library's own argument-null checks.
- `NullRef`: the .NET runtime fault raised when a delegate that was never
  null-checked is invoked while null.

Delegates and reference payloads that may be null are `Nullable<T> = Null |
NonNull(obj)`. Effectful `Action` overloads return `Invoked<T>`, which records
which action ran and its argument.

Modules:

- `Values`: shared datatypes.
- `Options`: Option.cs.
- `Eithers`: Either.cs. It also holds Option.cs's `ToEither`, because the
  two Dafny modules cannot import each other.
- `OptionLinq`: OptionLinqExtension.cs.
- `EitherLinq`: EitherLinqExtension.cs.

Some operations do not null-check their delegates. These are `Map`
(Option.cs:194-200), the functional `Match` (Option.cs:135-141), both
predicate `Match` overloads (Option.cs:157-173), the three-operand `Zip`
(OptionLinqExtension.cs:70-79) and `RightEither.Map` (Either.cs:191-194). With
a null delegate they raise NullReferenceException (`NullRef`), and only when
they actually invoke it. Besides `Get`, the argument-null checks and the
Either accessors throw.

## Model

| member | source | states |
|---|---|---|
| Options.Enumerate | Option.cs:237-242 | at most one element; exactly one iff defined; every element yielded is the payload |
| Options.Get | Option.cs:23-29 | succeeds iff defined, returning the payload that `Some` was built with; otherwise NoneGet |
| Options.EqualsValue | Option.cs:37-44 | true iff the option is `Some(other)`, i.e. iff `other` is the enumerated element; false on None |
| Options.HashCode | Option.cs:52-61 | 0 for None, 1 for a defined null, the payload's own hash otherwise |
| Options.Contains | Option.cs:76-87 | null-safe: true iff the option is `Some(x)`, so a defined null contains exactly null; false on None |
| Options.Exists | Option.cs:89-94 | ArgNull on a null predicate, even on None; otherwise true iff some enumerated element satisfies it |
| Options.GetOrElse | Option.cs:97-103 | the payload when defined, the default when empty; equals the first element of the enumeration followed by the default |
| Options.GetOrElseWith | Option.cs:105-114 | ArgNull on a null producer even when defined; otherwise the value overload applied to the producer's result |
| Options.Else | Option.cs:116-122 | this option when defined, the alternative otherwise; defined iff either is |
| Options.ElseWith | Option.cs:124-133 | ArgNull on a null producer first; otherwise the value overload with the produced alternative |
| Options.Match | Option.cs:135-141 | applies `some` to the payload or calls `none`; faults (NullRef) iff the branch chosen is null |
| Options.MatchWhen | Option.cs:166-173 | the `some` branch only for a defined payload satisfying the predicate; a failed predicate goes to `none` like an empty option; a null predicate faults only on a defined option |
| Options.MatchDo | Option.cs:143-155 | ArgNull iff either action is null; otherwise runs `some` on the payload iff defined, and `none` iff empty |
| Options.MatchWhenDo | Option.cs:157-164 | fails (NullRef) exactly when the delegate it would invoke is null: the predicate or `some` for a defined payload, `none` otherwise (an empty option never consults the predicate, even a null one); otherwise runs `some` only on a defined payload satisfying the predicate, and `none` in every other case |
| Options.MatchSome | Option.cs:176-183 | ArgNull on a null action; runs it with the payload iff defined, and never runs the `none` side |
| Options.MatchNone | Option.cs:185-192 | ArgNull on a null action; runs it iff empty, and never runs the `some` side |
| Options.Map | Option.cs:194-200 | None maps to None without touching the mapping, even a null one; `Some(v)` maps to `Some(f(v))`; a null mapping faults only on a defined option; definedness is preserved |
| Options.FlatMap | Option.cs:203-212 | ArgNull on a null mapping even on None; otherwise `Some(v)` gives `f(v)` and None gives None |
| Options.Filter | Option.cs:214-225 | ArgNull on a null predicate; otherwise the result is the option itself or None, and is defined iff the payload satisfies the predicate |
| Options.GetFactories | Option.cs:256-264 | `Some(v).Get()` is v, `None().Get()` is NoneGet, and a successful Get agrees with GetOrElse |
| Options.ContainsIsEqualsValue | Option.cs:76-87 | `Contains` coincides with the null-safe `Equals(T)` and with membership in the enumeration |
| Options.HashSentinels | Option.cs:52-61 | the empty hash differs from the defined-null hash; with payload hashes never 0, hash 0 means exactly None |
| Options.ExistsIsFilterDefined | Option.cs:89-94 | `Exists(p)` is whether `Filter(p)` keeps the payload; false on None |
| Options.ProducerOverloads | Option.cs:105-133 | on a defined option the producer's result is irrelevant to both producer overloads, while a null producer is still rejected |
| Options.ElseMonoid | Option.cs:116-122 | `Else` is associative with None as unit, and GetOrElse over `Else` falls back left to right |
| Options.MatchIsGetOrElse | Option.cs:135-141 | matching with the identity and a constant is GetOrElse |
| Options.MatchWhenIsMatchOfFilter | Option.cs:166-173 | the predicate Match is the plain Match of the filtered option |
| Options.MatchDoSplits | Option.cs:143-192 | with both actions present, the two-sided effectful Match runs what MatchSome or MatchNone would |
| Options.MatchWhenDoIsMatchDoOfFilter | Option.cs:157-164 | the effectful predicate Match is the effectful Match of the filtered option |
| Options.MapLaws | Option.cs:194-200 | Map preserves identity and composition and equals FlatMap followed by Some |
| Options.NullMapping | Option.cs:194-212 | a null mapping is accepted by Map on None, faults on Some, and is always rejected by FlatMap |
| Options.FlatMapMonadLaws | Option.cs:203-212 | left identity, right identity (`x.FlatMap(Some) == x`) and associativity |
| Options.FilterLaws | Option.cs:214-225 | Filter is idempotent, two filters are one filter with the conjunction, and None stays None |
| Eithers.IsLeft | Either.cs:85-95 | true exactly when the Left accessor succeeds |
| Eithers.IsRight | Either.cs:167-177 | true exactly when the Right accessor succeeds and exactly when ToOption is defined |
| Eithers.GetLeft | Either.cs:97-107 | the payload of a left value; InvalidOp on a right value |
| Eithers.GetRight | Either.cs:179-189 | the payload of a right value; InvalidOp on a left value |
| Eithers.Use | Either.cs:71-76 | applies only the active side's delegate to its payload; ArgNull iff that delegate is null, while the other may be null |
| Eithers.UseDo | Either.cs:150-155 | runs the action of the active side with its payload; ArgNull iff that action is null |
| Eithers.GetOrElse | Either.cs:157-160 | the right payload, or the default for a left value; equals the option GetOrElse of ToOption |
| Eithers.Map | Either.cs:115-118 | a left value keeps its payload and the mapping, even null, is unused; `Right(r)` becomes `Right(f(r))`; a null mapping faults on a right value |
| Eithers.ToOption | Either.cs:65-68 | defined iff right, holding the right payload |
| Eithers.Enumerate | Either.cs:126-131 | at most one element; one iff right; that element is the right payload |
| Eithers.ToEither | Option.cs:244-250 | right iff defined, holding the payload; an empty option gives Left of the error value |
| Eithers.Factories | Either.cs:44-52 | `Left(l)`: IsLeft, not IsRight, `.Left` is l, `.Right` is InvalidOp; `Right(r)` symmetric |
| Eithers.ExactlyOneSide | Either.cs:85-95 | IsLeft is the negation of IsRight, and exactly one accessor succeeds |
| Eithers.UseSubsumes | Either.cs:143-148 | Use with a constant and the identity is GetOrElse; with None and Some it is ToOption; a null left delegate is fine on a right value |
| Eithers.UseDoAgreesWithUse | Either.cs:78-83 | the effectful and functional Use fail on exactly the same inputs |
| Eithers.MapNatural | Either.cs:191-194 | mapping an Either and converting it to an option is mapping the converted option; Map with the identity changes nothing |
| Eithers.EnumerateAgrees | Either.cs:202-207 | an Either enumerates what its option enumerates, and an option what its Either enumerates |
| Eithers.RoundTrips | Either.cs:162-165 | `Some(v).ToEither(e).ToOption() == Some(v)`; `None.ToEither(e).ToOption() == None`; `Right(r).ToOption().ToEither(e) == Right(r)` |
| OptionLinq.FirstOrDefault | OptionLinqExtension.cs:28 | a non-null result is an element of the sequence that satisfies the predicate |
| OptionLinq.FirstOrDefaultFindsFirstMatch | OptionLinqExtension.cs:28 | the scan returns null when nothing matches and the first match otherwise, and one of the two cases always applies |
| OptionLinq.FirstOption | OptionLinqExtension.cs:26-34 | ArgNull on a null predicate; a defined result is a non-null element of the sequence satisfying the predicate |
| OptionLinq.FirstOptionSpec | OptionLinqExtension.cs:26-34 | None when nothing matches; otherwise decided by the first match alone: None if it is null, even when a later match is non-null |
| OptionLinq.FirstOptionExamples | OptionLinqExtension.cs:26-34 | `[1,2,3]` with `x > 5` gives None, with `x > 1` gives `Some(2)`; `[null, a]` gives None |
| OptionLinq.FirstOptionHead | OptionLinqExtension.cs:13-16 | the head of the sequence; None for an empty sequence or a null head |
| OptionLinq.Select | OptionLinqExtension.cs:36-41 | ArgNull on a null selector; otherwise Map, preserving definedness |
| OptionLinq.SelectManyOption | OptionLinqExtension.cs:43-48 | equals FlatMap, null check included; a defined result is the selector's result on the payload |
| OptionLinq.Where | OptionLinqExtension.cs:111-116 | equals Filter; a defined result exactly when Exists holds |
| OptionLinq.HasValue | OptionLinqExtension.cs:88-91 | true iff Get succeeds, iff the enumeration has one element |
| OptionLinq.Any | OptionLinqExtension.cs:93-96 | equals Exists; true only for a defined option |
| OptionLinq.SelectVersusMap | OptionLinqExtension.cs:36-41 | Select and Map agree on a non-null selector; on a null one Select always rejects while Map succeeds exactly on None |
| OptionLinq.PayloadsSpec | OptionLinqExtension.cs:60-68 | as many payloads as defined options, each payload comes from a defined option, no payloads when all are empty |
| OptionLinq.SelectManyOptions | OptionLinqExtension.cs:50-58 | ArgNull on a null selector; otherwise one output per input option, in order, the selector applied to it |
| OptionLinq.SelectManyValues | OptionLinqExtension.cs:60-68 | ArgNull on a null selector; otherwise the selector applied to the defined payloads in input order; length equals the number of defined options; empties dropped |
| OptionLinq.Zip | OptionLinqExtension.cs:82-86 | length is the product of the operands' enumeration lengths (one pair iff both defined), and each pair holds the two payloads |
| OptionLinq.Zip3 | OptionLinqExtension.cs:70-79 | one result iff all three are defined, which is the selector on the three payloads; otherwise empty; a null selector faults only when all are defined |
| OptionLinq.ZipIsApplicative | OptionLinqExtension.cs:70-86 | both Zips are the enumeration of the all-or-nothing combination built from FlatMap and Map |
| EitherLinq.Select | EitherLinqExtension.cs:8-14 | ArgNull on a null selector; otherwise Map: a left value keeps its payload, a right one is mapped |
| EitherLinq.RightPayloadsAreOptionPayloads | EitherLinqExtension.cs:16-24 | the right payloads are the payloads of the ToOption-converted sequence, as many as there are right values, none when all are left |
| EitherLinq.SelectMany | EitherLinqExtension.cs:16-24 | ArgNull on a null selector; otherwise the selector on the right payloads in order; length equals the number of rights; all-left gives the empty sequence |

## Left out

- `Equals(object)` (Option.cs:47-50) is left out. Its cast-and-call resolves back to `Equals(object)` itself, so it recurses instead of comparing two options. No option-to-option equality is modelled.
- `ToString` (Option.cs:63-74) is left out, because it depends on .NET string formatting.
- `AsOpt` (Option.cs:272-277) is left out, because it relies on a runtime type test (`as`).
- Options.HashCode: the payload's own `GetHashCode` is outside the model. It is a parameter, so the model fixes only the constants for None and a defined null.
- Options.Contains is stated only for reference payloads (`Nullable`), where the null branches matter. The payload's `Equals` is taken to be Dafny equality, which is false against null as the .NET contract requires.
- Effects of the `Action` overloads (`Match`, `MatchSome`, `MatchNone`, `Use`) are left out. The model records only which action ran and with what argument.
- Producer invocation counts are left out. The model states only that the result does not depend on the producer when the option is defined.
- Deferred execution of the iterator methods (`SelectMany` over sequences, `Zip`, the enumerators) is left out. Their null checks run on first enumeration in .NET but at the call here, and restartability is not modelled. Sequences are finite `seq`s.
- Null `IEither` references are left out. `IEither` is an interface implemented by classes, so a null receiver of `Select` (EitherLinqExtension.cs:13) or a null element of the `SelectMany` sequence (EitherLinqExtension.cs:22) raises NullReferenceException in .NET. The `Either` datatype here is never null.
- Null source sequences are left out. In .NET, `FirstOption` on a null sequence throws `ArgumentNullException` from `FirstOrDefault`, and the `SelectMany` loops throw `NullReferenceException`. Sequences here are never null.
- `Enumerable.FirstOrDefault` is .NET library code and not part of the source. It is modelled after its documented behaviour: reject a null predicate, then return the first match or null.
- The non-generic `IEnumerable.GetEnumerator` forwarders (Option.cs:227-230, Either.cs:120-123, Either.cs:196-199) add nothing beyond the generic enumerators.
- `UniRx.Tuple` is a plain Dafny pair.
