/** The disjoint union of Either.cs: the `IEither<T1, T2>` interface with its
    two sealed implementations `LeftEither` and `RightEither`, built by the
    `Either.Left` / `Either.Right` factories, which here are the two
    constructors of `Either`. The bridge `ToEither` of Option.cs lives here as
    well, because the Option model cannot import this module back. */
module Eithers {
  import opened Values
  import opened Options

  /** Exactly one side is active; there is no transition after construction. */
  datatype Either<+L, +R> = Left(left: L) | Right(right: R)

  /** `IsLeft`: true for values built by `Either.Left` only. */
  function IsLeft<L, R>(e: Either<L, R>): (b: bool)
    ensures b <==> GetLeft(e).Ok?
  {
    e.Left?
  }

  /** `IsRight`: true for values built by `Either.Right` only. */
  function IsRight<L, R>(e: Either<L, R>): (b: bool)
    ensures b <==> GetRight(e).Ok?
    ensures b <==> ToOption(e).Some?
  {
    e.Right?
  }

  /** The `Left` property: the payload of a left value; reading it from a right
      value is InvalidOperationException, never a default. */
  function GetLeft<L, R>(e: Either<L, R>): (r: Result<L>)
    ensures r.Ok? <==> e.Left?
    ensures r.Ok? ==> Left(r.value) == e
    ensures r.Err? ==> r.error == InvalidOp
  {
    match e
    case Left(l) => Ok(l)
    case Right(_) => Err(InvalidOp)
  }

  /** The `Right` property, symmetric to `GetLeft`. */
  function GetRight<L, R>(e: Either<L, R>): (r: Result<R>)
    ensures r.Ok? <==> e.Right?
    ensures r.Ok? ==> Right(r.value) == e
    ensures r.Err? ==> r.error == InvalidOp
  {
    match e
    case Left(_) => Err(InvalidOp)
    case Right(r) => Ok(r)
  }

  /** The functional `Use`: only the delegate of the active side is
      null-checked and applied; the other one may be null. */
  function Use<L, R, U>(e: Either<L, R>, ofLeft: Nullable<L -> U>, ofRight: Nullable<R -> U>): (r: Result<U>)
    ensures r.Err? <==> (if e.Left? then ofLeft.Null? else ofRight.Null?)
    ensures r.Err? ==> r.error == ArgNull
    ensures r.Ok? && e.Left? ==> r.value == ofLeft.obj(e.left)
    ensures r.Ok? && e.Right? ==> r.value == ofRight.obj(e.right)
  {
    match e
    case Left(l) => if ofLeft.Null? then Err(ArgNull) else Ok(ofLeft.obj(l))
    case Right(r) => if ofRight.Null? then Err(ArgNull) else Ok(ofRight.obj(r))
  }

  /** The effectful `Use`. The returned `Either` is the record of which action
      ran: `Left(l)` means `ofLeft` ran with `l`, `Right(r)` that `ofRight` ran
      with `r`. It plays for the two sides of an Either the part `Invoked` plays
      for the branches of an option. */
  function UseDo<L, R>(e: Either<L, R>, ofLeft: Nullable<L -> ()>, ofRight: Nullable<R -> ()>): (r: Result<Either<L, R>>)
    ensures r.Err? <==> (if e.Left? then ofLeft.Null? else ofRight.Null?)
    ensures r.Err? ==> r.error == ArgNull
    ensures r.Ok? ==> r.value == e
  {
    match e
    case Left(l) => if ofLeft.Null? then Err(ArgNull) else Ok(Left(l))
    case Right(r) => if ofRight.Null? then Err(ArgNull) else Ok(Right(r))
  }

  /** `GetOrElse`: right-biased, the default stands in for any left value. */
  function GetOrElse<L, R>(e: Either<L, R>, default: R): (r: R)
    ensures r == Options.GetOrElse(ToOption(e), default)
    ensures e.Left? ==> r == default
  {
    match e
    case Left(_) => default
    case Right(r) => r
  }

  /** `Map`: right-biased. A left value is rebuilt with the same payload and the
      mapping is not touched, so it may even be null; a right value has the
      mapping applied without a null check. */
  function Map<L, R, U>(e: Either<L, R>, f: Nullable<R -> U>): (r: Result<Either<L, U>>)
    ensures e.Left? ==> r == Ok(Left(e.left))
    ensures e.Right? ==> (r.Ok? <==> f.NonNull?)
    ensures r.Err? ==> r.error == NullRef
    ensures r.Ok? ==> (r.value.Left? <==> e.Left?)
    ensures r.Ok? && e.Right? ==> r.value == Right(f.obj(e.right))
  {
    match e
    case Left(l) => Ok(Left(l))
    case Right(x) =>
      match Invoke(f, x)
      case Ok(u) => Ok(Right(u))
      case Err(err) => Err(err)
  }

  /** `ToOption`: forgets a left payload. */
  function ToOption<L, R>(e: Either<L, R>): (o: Option<R>)
    ensures o.Some? <==> e.Right?
    ensures o.Some? ==> Right(o.value) == e
  {
    match e
    case Left(_) => None
    case Right(r) => Some(r)
  }

  /** The 0-or-1 element enumeration: empty for a left value, the right
      payload otherwise. `LeftEither`'s enumerator guards its single `yield`
      with `IsRight`, which is false there, so it never yields. */
  function Enumerate<L, R>(e: Either<L, R>): (s: seq<R>)
    ensures |s| <= 1
    ensures |s| == 1 <==> e.Right?
    ensures forall i | 0 <= i < |s| :: Right(s[i]) == e
  {
    match e
    case Left(_) => []
    case Right(r) => [r]
  }

  /** Option.cs `ToEither`: an empty option becomes the given left value, a
      defined one the right value holding its payload. */
  function ToEither<E, T>(o: Option<T>, error: E): (e: Either<E, T>)
    ensures e.Right? <==> o.Some?
    ensures e.Right? ==> Some(e.right) == o
    ensures e.Left? ==> e.left == error
  {
    if o.Some? then Right(o.value) else Left(error)
  }

  // ---------------------------------------------------------------------------
  // Laws

  /** What each factory promises about the accessors. */
  lemma Factories<L, R>(l: L, r: R)
    ensures IsLeft<L, R>(Left(l)) && !IsRight<L, R>(Left(l))
    ensures GetLeft<L, R>(Left(l)) == Ok(l) && GetRight<L, R>(Left(l)) == Err(InvalidOp)
    ensures IsRight<L, R>(Right(r)) && !IsLeft<L, R>(Right(r))
    ensures GetRight<L, R>(Right(r)) == Ok(r) && GetLeft<L, R>(Right(r)) == Err(InvalidOp)
  {
  }

  /** Every value is exactly one of left and right, so exactly one accessor
      succeeds. */
  lemma ExactlyOneSide<L, R>(e: Either<L, R>)
    ensures IsLeft(e) == !IsRight(e)
    ensures GetLeft(e).Ok? != GetRight(e).Ok?
  {
  }

  /** `Use` subsumes the other eliminators: with a constant on the left and the
      identity on the right it is `GetOrElse`, and with `None`/`Some` it is
      `ToOption`. */
  lemma UseSubsumes<L, R>(e: Either<L, R>, d: R)
    ensures Use(e, NonNull((_: L) => d), NonNull((x: R) => x)) == Ok(GetOrElse(e, d))
    ensures Use(e, NonNull((_: L) => None), NonNull((x: R) => Some(x))) == Ok(ToOption(e))
    ensures Use(e, Null, NonNull((x: R) => x)).Ok? <==> e.Right?
  {
  }

  /** The effectful `Use` runs the action of the side that `Use` would apply. */
  lemma UseDoAgreesWithUse<L, R>(e: Either<L, R>, ofLeft: Nullable<L -> ()>, ofRight: Nullable<R -> ()>)
    ensures UseDo(e, ofLeft, ofRight).Ok? == Use(e, ofLeft, ofRight).Ok?
  {
  }

  /** `Map` commutes with `ToOption` and with enumeration: mapping the right
      side is mapping the option it converts to. */
  lemma MapNatural<L, R, U>(e: Either<L, R>, f: R -> U)
    ensures ToOption(Map(e, NonNull(f)).value) == Options.Map(ToOption(e), NonNull(f)).value
    ensures Map(e, NonNull((x: R) => x)) == Ok(e)
  {
  }

  /** An Either enumerates exactly what its option conversion enumerates, and
      an option enumerates exactly what its Either conversion does. */
  lemma EnumerateAgrees<E, L, R, T>(e: Either<L, R>, o: Option<T>, err: E)
    ensures Enumerate(e) == Options.Enumerate(ToOption(e))
    ensures Enumerate(ToEither(o, err)) == Options.Enumerate(o)
  {
  }

  /** Round trips between the two containers: `ToOption` undoes `ToEither`,
      and `ToEither` undoes `ToOption` on right values. */
  lemma RoundTrips<E, T>(v: T, err: E, o: Option<T>, e: Either<E, T>)
    ensures ToOption(ToEither(Some(v), err)) == Some(v)
    ensures ToOption(ToEither<E, T>(None, err)) == None
    ensures ToOption(ToEither(o, err)) == o
    ensures e.Right? ==> ToEither(ToOption(e), err) == e
    ensures e.Left? ==> ToEither(ToOption(e), err) == Left(err)
  {
  }
}
