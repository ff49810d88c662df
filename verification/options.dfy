/** The optional-value container of Option.cs: the `IOption<T>` struct and the
    `Option<T>.Some` / `Option<T>.None` factories, which here are the two
    constructors of `Option`. Every operation is a pure function; one that can
    throw returns a `Result`. */
module Options {
  import opened Values

  /** `Some(v)` is a defined option holding `v`; `None` is the empty option.
      The source's hidden `default(T)` payload of an empty option cannot be
      observed through any modelled operation, so it is not represented. */
  datatype Option<+T> = None | Some(value: T)

  /** The 0-or-1 element sequence an option enumerates. */
  function Enumerate<T>(o: Option<T>): (s: seq<T>)
    ensures |s| <= 1
    ensures |s| == 1 <==> o.Some?
    ensures forall i | 0 <= i < |s| :: Some(s[i]) == o
  {
    if o.Some? then [o.value] else []
  }

  /** The partial accessor: the payload, or NoneGetException when empty. */
  function Get<T>(o: Option<T>): (r: Result<T>)
    ensures r.Ok? <==> o.Some?
    ensures r.Ok? ==> Some(r.value) == o
    ensures r.Err? ==> r.error == NoneGet
  {
    if o.Some? then Ok(o.value) else Err(NoneGet)
  }

  /** `Equals(T)`: the default equality comparer, which is null-safe. */
  function EqualsValue<T(==)>(o: Option<T>, other: T): (r: bool)
    ensures r <==> o == Some(other)
    ensures r <==> other in Enumerate(o)
  {
    if o.Some? then o.value == other else false
  }

  /** `GetHashCode` of an option whose payload is a reference: 0 for empty,
      1 for a defined null, and otherwise the payload's own hash, which is
      outside this model and given as `payloadHash`. */
  function HashCode<T>(o: Option<Nullable<T>>, payloadHash: T -> int): (r: int)
    ensures o.None? ==> r == 0
    ensures o == Some(Null) ==> r == 1
    ensures o.Some? && o.value.NonNull? ==> r == payloadHash(o.value.obj)
  {
    if o.Some? then
      if o.value.Null? then 1 else payloadHash(o.value.obj)
    else
      0
  }

  /** `Contains`: a defined null contains exactly null; a defined non-null
      payload uses its own `Equals`, which is false for a null argument. */
  function Contains<T(==)>(o: Option<Nullable<T>>, x: Nullable<T>): (r: bool)
    ensures r <==> o == Some(x)
    ensures r <==> x in Enumerate(o)
  {
    if o.Some? then
      if o.value.Null? then x.Null?
      else x.NonNull? && o.value.obj == x.obj
    else
      false
  }

  /** `Exists`: the predicate is checked for null first, then holds of the
      payload of a defined option. */
  function Exists<T>(o: Option<T>, p: Nullable<T -> bool>): (r: Result<bool>)
    ensures p.Null? ==> r == Err(ArgNull)
    ensures p.NonNull? ==> r.Ok? && (r.value <==> exists v :: v in Enumerate(o) && p.obj(v))
  {
    if p.Null? then Err(ArgNull)
    else Ok(o.Some? && p.obj(o.value))
  }

  /** `GetOrElse(T)`: the payload, or the default when empty; equivalently the
      first element of the enumeration followed by the default. */
  function GetOrElse<T>(o: Option<T>, default: T): (r: T)
    ensures r == (Enumerate(o) + [default])[0]
    ensures o.Some? ==> r == o.value
    ensures o.None? ==> r == default
  {
    if o.Some? then o.value else default
  }

  /** `GetOrElse(Func<T>)`: a null producer is rejected even when the option is
      defined; otherwise it is the value overload with the producer's result. */
  function GetOrElseWith<T>(o: Option<T>, alt: Nullable<() -> T>): (r: Result<T>)
    ensures alt.Null? ==> r == Err(ArgNull)
    ensures alt.NonNull? ==> r == Ok(GetOrElse(o, alt.obj()))
  {
    if alt.Null? then Err(ArgNull)
    else if o.Some? then Ok(o.value)
    else Ok(alt.obj())
  }

  /** `Else(IOption<T>)`: this option when defined, the alternative otherwise. */
  function Else<T>(o: Option<T>, alt: Option<T>): (r: Option<T>)
    ensures r.Some? <==> o.Some? || alt.Some?
    ensures o.Some? ==> r == o
    ensures o.None? ==> r == alt
  {
    if o.Some? then o else alt
  }

  /** `Else(Func<IOption<T>>)`: null-checks the producer first, then behaves as
      the value overload with the produced alternative. */
  function ElseWith<T>(o: Option<T>, alt: Nullable<() -> Option<T>>): (r: Result<Option<T>>)
    ensures alt.Null? ==> r == Err(ArgNull)
    ensures alt.NonNull? ==> r == Ok(Else(o, alt.obj()))
  {
    if alt.Null? then Err(ArgNull)
    else if o.Some? then Ok(o)
    else Ok(alt.obj())
  }

  /** The functional `Match(some, none)`: no null checks; only the branch
      chosen by the option's state is invoked, so only that one may fault. */
  function Match<T, U>(o: Option<T>, some: Nullable<T -> U>, none: Nullable<() -> U>): (r: Result<U>)
    ensures r.Err? <==> (if o.Some? then some.Null? else none.Null?)
    ensures r.Err? ==> r.error == NullRef
    ensures r.Ok? && o.Some? ==> r.value == some.obj(o.value)
    ensures r.Ok? && o.None? ==> r.value == none.obj()
  {
    if o.Some? then Invoke(some, o.value)
    else if none.Null? then Err(NullRef)
    else Ok(none.obj())
  }

  /** The functional `Match(predicate, some, none)`: the `some` branch is taken
      only for a defined payload satisfying the predicate; a failed predicate
      is treated exactly like an empty option. The predicate is not consulted
      on an empty option and is never null-checked. */
  function MatchWhen<T, U>(o: Option<T>, pred: Nullable<T -> bool>, some: Nullable<T -> U>, none: Nullable<() -> U>): (r: Result<U>)
    ensures o.Some? && pred.Null? ==> r == Err(NullRef)
    ensures o.None? ==> r == Match(o, some, none)
    ensures o.Some? && pred.NonNull? && pred.obj(o.value) ==> r == Invoke(some, o.value)
    ensures o.Some? && pred.NonNull? && !pred.obj(o.value) ==> r == Match(None, some, none)
  {
    if o.Some? && pred.Null? then Err(NullRef)
    else if o.Some? && pred.obj(o.value) then Invoke(some, o.value)
    else if none.Null? then Err(NullRef)
    else Ok(none.obj())
  }

  /** The effectful `Match(Action<T>, Action)`: both actions are null-checked
      before either runs. */
  function MatchDo<T>(o: Option<T>, some: Nullable<T -> ()>, none: Nullable<() -> ()>): (r: Result<Invoked<T>>)
    ensures r.Err? <==> some.Null? || none.Null?
    ensures r.Err? ==> r.error == ArgNull
    ensures r.Ok? ==> !r.value.NothingInvoked?
    ensures r.Ok? ==> (r.value.SomeInvoked? <==> o.Some?)
    ensures r.Ok? && r.value.SomeInvoked? ==> o == Some(r.value.arg)
  {
    if some.Null? then Err(ArgNull)
    else if none.Null? then Err(ArgNull)
    else if o.Some? then Ok(SomeInvoked(o.value))
    else Ok(NoneInvoked)
  }

  /** The effectful `Match(predicate, Action<T>, Action)`: no null checks, so a
      null predicate or a null chosen action faults when it is invoked. */
  function MatchWhenDo<T>(o: Option<T>, pred: Nullable<T -> bool>, some: Nullable<T -> ()>, none: Nullable<() -> ()>): (r: Result<Invoked<T>>)
    ensures o.Some? && pred.Null? ==> r == Err(NullRef)
    ensures r.Err? <==> (if o.Some? && (pred.Null? || pred.obj(o.value)) then pred.Null? || some.Null? else none.Null?)
    ensures r.Ok? ==> r.value.SomeInvoked? || r.value.NoneInvoked?
    ensures r.Ok? && r.value.SomeInvoked? ==> o == Some(r.value.arg) && pred.NonNull? && pred.obj(r.value.arg) && some.NonNull?
    ensures r.Ok? && r.value.NoneInvoked? ==> (o.None? || (pred.NonNull? && !pred.obj(o.value))) && none.NonNull?
    ensures r.Err? ==> r.error == NullRef
  {
    if o.Some? && pred.Null? then Err(NullRef)
    else if o.Some? && pred.obj(o.value) then
      (if some.Null? then Err(NullRef) else Ok(SomeInvoked(o.value)))
    else if none.Null? then Err(NullRef)
    else Ok(NoneInvoked)
  }

  /** `MatchSome`: null-checks the action, then runs it only on a defined option. */
  function MatchSome<T>(o: Option<T>, some: Nullable<T -> ()>): (r: Result<Invoked<T>>)
    ensures some.Null? ==> r == Err(ArgNull)
    ensures some.NonNull? ==> r.Ok? && (r.value.SomeInvoked? <==> o.Some?)
    ensures r.Ok? ==> !r.value.NoneInvoked?
    ensures r.Ok? && r.value.SomeInvoked? ==> o == Some(r.value.arg)
  {
    if some.Null? then Err(ArgNull)
    else if o.Some? then Ok(SomeInvoked(o.value))
    else Ok(NothingInvoked)
  }

  /** `MatchNone`: null-checks the action, then runs it only on an empty option. */
  function MatchNone<T>(o: Option<T>, none: Nullable<() -> ()>): (r: Result<Invoked<T>>)
    ensures none.Null? ==> r == Err(ArgNull)
    ensures none.NonNull? ==> r.Ok? && (r.value.NoneInvoked? <==> o.None?)
    ensures r.Ok? ==> !r.value.SomeInvoked?
  {
    if none.Null? then Err(ArgNull)
    else if o.None? then Ok(NoneInvoked)
    else Ok(NothingInvoked)
  }

  /** `Map`: there is no null check, so a null mapping faults only when there
      is a payload to apply it to; an empty option maps to empty untouched. */
  function Map<T, U>(o: Option<T>, f: Nullable<T -> U>): (r: Result<Option<U>>)
    ensures o.None? ==> r == Ok(None)
    ensures o.Some? ==> (r.Ok? <==> f.NonNull?)
    ensures r.Err? ==> r.error == NullRef
    ensures r.Ok? ==> |Enumerate(r.value)| == |Enumerate(o)|
    ensures r.Ok? && o.Some? ==> r.value == Some(f.obj(o.value))
  {
    if o.Some? then
      match Invoke(f, o.value)
      case Ok(u) => Ok(Some(u))
      case Err(e) => Err(e)
    else
      Ok(None)
  }

  /** `FlatMap`: null-checks the mapping even on an empty option, then
      dispatches through the functional `Match`. */
  function FlatMap<T, U>(o: Option<T>, f: Nullable<T -> Option<U>>): (r: Result<Option<U>>)
    ensures f.Null? ==> r == Err(ArgNull)
    ensures f.NonNull? ==> r.Ok?
    ensures f.NonNull? && o.Some? ==> r.value == f.obj(o.value)
    ensures f.NonNull? && o.None? ==> r.value == None
  {
    if f.Null? then Err(ArgNull)
    else Match(o, f, NonNull(() => None))
  }

  /** `Filter`: null-checks the predicate; the result is either the option
      itself or empty, and is defined exactly when the payload satisfies it. */
  function Filter<T>(o: Option<T>, p: Nullable<T -> bool>): (r: Result<Option<T>>)
    ensures p.Null? ==> r == Err(ArgNull)
    ensures p.NonNull? ==> r.Ok?
    ensures r.Ok? ==> r.value == o || r.value == None
    ensures r.Ok? ==> (r.value.Some? <==> o.Some? && p.obj(o.value))
  {
    if p.Null? then Err(ArgNull)
    else if o.Some? && !p.obj(o.value) then Ok(None)
    else Ok(o)
  }

  // ---------------------------------------------------------------------------
  // Laws relating the operations to one another

  /** The factories and `Get` are inverse: `Some(v).Get()` is `v`, and an empty
      option has nothing to get. */
  lemma GetFactories<T>(v: T, d: T)
    ensures Get(Some(v)) == Ok(v)
    ensures Get<T>(None) == Err(NoneGet)
    ensures forall o: Option<T> :: Get(o).Ok? ==> Get(o).value == GetOrElse(o, d)
  {
  }

  /** The two equality tests agree on options of references: `Contains` is
      the null-safe `Equals(T)`, and both hold exactly of the enumerated element. */
  lemma ContainsIsEqualsValue<T>(o: Option<Nullable<T>>, x: Nullable<T>)
    ensures Contains(o, x) == EqualsValue(o, x)
    ensures Contains(o, x) <==> x in Enumerate(o)
    ensures Contains(Some(Null), x) <==> x.Null?
    ensures !Contains(None, x)
  {
  }

  /** The hash of an empty option (0) differs from that of a defined null (1),
      and a payload whose hash is never 0 cannot collide with the empty option. */
  lemma HashSentinels<T>(o: Option<Nullable<T>>, payloadHash: T -> int)
    requires forall x :: payloadHash(x) != 0
    ensures HashCode(None, payloadHash) != HashCode(Some(Null), payloadHash)
    ensures HashCode(o, payloadHash) == 0 <==> o.None?
  {
    if o.Some? && o.value.NonNull? {
      assert payloadHash(o.value.obj) != 0;
    }
  }

  /** `Exists` is "filtering leaves something": a payload satisfies `p`
      exactly when `Filter(p)` keeps it. */
  lemma ExistsIsFilterDefined<T>(o: Option<T>, p: T -> bool)
    ensures Exists(o, NonNull(p)) == Ok(Filter(o, NonNull(p)).value.Some?)
    ensures Exists(None, NonNull(p)) == Ok(false)
  {
  }

  /** The producer overloads agree with the value overloads, and on a defined
      option the producer's result is never used. */
  lemma ProducerOverloads<T>(o: Option<T>, alt1: () -> T, alt2: () -> T, alt3: () -> Option<T>, alt4: () -> Option<T>)
    requires o.Some?
    ensures GetOrElseWith(o, NonNull(alt1)) == GetOrElseWith(o, NonNull(alt2)) == Ok(o.value)
    ensures ElseWith(o, NonNull(alt3)) == ElseWith(o, NonNull(alt4)) == Ok(o)
    ensures GetOrElseWith(o, Null) == Err(ArgNull)
    ensures ElseWith(o, Null) == Err(ArgNull)
  {
  }

  /** `Else` makes options a monoid with `None` as unit, and `GetOrElse` over
      an `Else` chain falls back from left to right. */
  lemma ElseMonoid<T>(a: Option<T>, b: Option<T>, c: Option<T>, d: T)
    ensures Else(None, a) == a && Else(a, None) == a
    ensures Else(Else(a, b), c) == Else(a, Else(b, c))
    ensures GetOrElse(Else(a, b), d) == GetOrElse(a, GetOrElse(b, d))
  {
  }

  /** Matching with the identity and a constant is `GetOrElse`. */
  lemma MatchIsGetOrElse<T>(o: Option<T>, d: T)
    ensures Match(o, NonNull((v: T) => v), NonNull(() => d)) == Ok(GetOrElse(o, d))
  {
  }

  /** The predicate `Match` is the plain `Match` of the filtered option: a
      payload failing the predicate takes the `none` branch as if absent. */
  lemma MatchWhenIsMatchOfFilter<T, U>(o: Option<T>, p: T -> bool, some: Nullable<T -> U>, none: Nullable<() -> U>)
    ensures MatchWhen(o, NonNull(p), some, none) == Match(Filter(o, NonNull(p)).value, some, none)
  {
  }

  /** With both actions present, the two-sided effectful `Match` runs the same
      action, on the same argument, as `MatchSome` or `MatchNone` would. */
  lemma MatchDoSplits<T>(o: Option<T>, some: T -> (), none: () -> ())
    ensures MatchDo(o, NonNull(some), NonNull(none)).Ok?
    ensures MatchDo(o, NonNull(some), NonNull(none)).value.SomeInvoked?
        <==> MatchSome(o, NonNull(some)).value.SomeInvoked?
    ensures MatchDo(o, NonNull(some), NonNull(none)).value.NoneInvoked?
        <==> MatchNone(o, NonNull(none)).value.NoneInvoked?
    ensures o.Some? ==> MatchDo(o, NonNull(some), NonNull(none)) == MatchSome(o, NonNull(some))
  {
  }

  /** The effectful predicate `Match` is the effectful `Match` of the filtered
      option whenever no delegate is null. */
  lemma MatchWhenDoIsMatchDoOfFilter<T>(o: Option<T>, p: T -> bool, some: T -> (), none: () -> ())
    ensures MatchWhenDo(o, NonNull(p), NonNull(some), NonNull(none))
         == MatchDo(Filter(o, NonNull(p)).value, NonNull(some), NonNull(none))
  {
  }

  /** `Map` obeys the functor laws and is `FlatMap` of the mapping followed by
      `Some`. */
  lemma MapLaws<T, U, V>(o: Option<T>, f: T -> U, g: U -> V)
    ensures Map(o, NonNull((v: T) => v)) == Ok(o)
    ensures Map(Map(o, NonNull(f)).value, NonNull(g)) == Map(o, NonNull((v: T) => g(f(v))))
    ensures Map(o, NonNull(f)) == FlatMap(o, NonNull((v: T) => Some(f(v))))
  {
  }

  /** A null mapping is harmless for `Map` on an empty option but always
      rejected by `FlatMap`. */
  lemma NullMapping<T, U>(v: T)
    ensures Map<T, U>(None, Null) == Ok(None)
    ensures Map<T, U>(Some(v), Null) == Err(NullRef)
    ensures FlatMap<T, U>(None, Null) == Err(ArgNull)
  {
  }

  /** The monad laws for `FlatMap` with `Some` as unit. */
  lemma FlatMapMonadLaws<T, U, V>(v: T, o: Option<T>, f: T -> Option<U>, g: U -> Option<V>)
    ensures FlatMap(Some(v), NonNull(f)) == Ok(f(v))
    ensures FlatMap(o, NonNull((x: T) => Some(x))) == Ok(o)
    ensures FlatMap(FlatMap(o, NonNull(f)).value, NonNull(g))
         == FlatMap(o, NonNull((x: T) => FlatMap(f(x), NonNull(g)).value))
  {
  }

  /** Filtering twice with the same predicate is filtering once, and two
      filters in a row are one filter with the conjunction. */
  lemma FilterLaws<T>(o: Option<T>, p: T -> bool, q: T -> bool)
    ensures Filter(Filter(o, NonNull(p)).value, NonNull(p)) == Filter(o, NonNull(p))
    ensures Filter(Filter(o, NonNull(p)).value, NonNull(q)) == Filter(o, NonNull((v: T) => p(v) && q(v)))
    ensures Filter(None, NonNull(p)) == Ok(None)
  {
  }
}
