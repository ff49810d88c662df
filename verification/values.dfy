/** Building blocks shared by the Option and Either models: .NET null references,
    the exceptions the library can raise, and the record of which effectful
    action a dispatch ran. */
module Values {

  /** A .NET reference that may be null. Used both for payloads of reference
      type and for caller-supplied delegates, whose nullness the library checks. */
  datatype Nullable<+T> = Null | NonNull(obj: T)

  /** The exceptions an operation can end in. */
  datatype Error =
    | NoneGet    // NoneGetException: Get on an empty option
    | InvalidOp  // InvalidOperationException: reading the inactive side of an Either
    | ArgNull    // ArgumentNullException: a delegate the operation checks is null
    | NullRef    // NullReferenceException: the runtime invoked a delegate that was never checked and is null

  /** The outcome of an operation that may throw. */
  datatype Result<+T> = Ok(value: T) | Err(error: Error)

  /** Which caller-supplied action an effectful dispatch ran, and with what
      argument. The effects of the action themselves are not modelled. */
  datatype Invoked<+T> = SomeInvoked(arg: T) | NoneInvoked | NothingInvoked

  /** Calling a delegate without a null check first, as compiled C# does:
      a null delegate raises NullReferenceException at the call. */
  function Invoke<A, B>(f: Nullable<A -> B>, a: A): (r: Result<B>)
    ensures r.Ok? <==> f.NonNull?
    ensures r.Ok? ==> r.value == f.obj(a)
    ensures r.Err? ==> r.error == NullRef
  {
    match f
    case Null => Err(NullRef)
    case NonNull(g) => Ok(g(a))
  }

  /** Applies `f` to every element, keeping the order. */
  function MapSeq<A, B>(f: A -> B, s: seq<A>): (r: seq<B>)
    ensures |r| == |s|
    ensures forall i | 0 <= i < |s| :: r[i] == f(s[i])
  {
    seq(|s|, i requires 0 <= i < |s| => f(s[i]))
  }
}
