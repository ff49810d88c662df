/** The query operators of EitherLinqExtension.cs: `Select` on one Either and
    the `SelectMany` that keeps only right payloads of a sequence. */
module EitherLinq {
  import opened Values
  import opened Options
  import opened Eithers
  import OptionLinq

  /** `Select`: `Map` behind an argument-null check. A left value keeps its
      payload; a right value has the selector applied. */
  function Select<L, R, U>(e: Either<L, R>, f: Nullable<R -> U>): (r: Result<Either<L, U>>)
    ensures f.Null? ==> r == Err(ArgNull)
    ensures f.NonNull? ==> r.Ok? && r == Eithers.Map(e, f)
    ensures r.Ok? && e.Left? ==> r.value == Left(e.left)
    ensures r.Ok? && e.Right? ==> r.value == Right(f.obj(e.right))
  {
    if f.Null? then Err(ArgNull) else Eithers.Map(e, f)
  }

  /** The right payloads of a sequence of Eithers, in order. */
  function RightPayloads<L, R>(es: seq<Either<L, R>>): seq<R>
  {
    if |es| == 0 then [] else RightPayloads(es[..|es| - 1]) + Eithers.Enumerate(es[|es| - 1])
  }

  /** The number of right values. */
  function CountRight<L, R>(es: seq<Either<L, R>>): nat
  {
    if |es| == 0 then 0 else CountRight(es[..|es| - 1]) + (if es[|es| - 1].Right? then 1 else 0)
  }

  /** Keeping the right payloads is keeping the payloads of the converted
      options, and there are as many of them as there are right values. */
  lemma {:induction false} RightPayloadsAreOptionPayloads<L, R>(es: seq<Either<L, R>>)
    ensures RightPayloads(es) == OptionLinq.Payloads(MapSeq(ToOption, es))
    ensures |RightPayloads(es)| == CountRight(es)
    ensures (forall i :: 0 <= i < |es| ==> es[i].Left?) ==> RightPayloads(es) == []
  {
    if |es| > 0 {
      var init := es[..|es| - 1];
      RightPayloadsAreOptionPayloads(init);
      var os := MapSeq(ToOption, es);
      assert os[..|os| - 1] == MapSeq(ToOption, init);
      if forall i :: 0 <= i < |es| ==> es[i].Left? {
        assert forall i :: 0 <= i < |init| ==> init[i] == es[i];
      }
    }
  }

  /** `SelectMany(eithers, f)`: `f` applied to each right payload, in order;
      left values are dropped without trace. */
  method SelectMany<L, R, U>(es: seq<Either<L, R>>, f: Nullable<R -> U>) returns (r: Result<seq<U>>)
    ensures f.Null? ==> r == Err(ArgNull)
    ensures f.NonNull? ==> r == Ok(MapSeq(f.obj, RightPayloads(es)))
    ensures r.Ok? ==> |r.value| == CountRight(es)
    ensures r.Ok? && (forall i :: 0 <= i < |es| ==> es[i].Left?) ==> r.value == []
  {
    if f.Null? {
      return Err(ArgNull);
    }
    var out: seq<U> := [];
    var i := 0;
    while i < |es|
      invariant 0 <= i <= |es|
      invariant out == MapSeq(f.obj, RightPayloads(es[..i]))
    {
      assert es[..i + 1][..i] == es[..i];
      if IsRight(es[i]) {
        out := out + [f.obj(GetRight(es[i]).value)];
      }
      i := i + 1;
    }
    assert es[..|es|] == es;
    RightPayloadsAreOptionPayloads(es);
    return Ok(out);
  }
}
