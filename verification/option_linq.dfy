/** The query operators of OptionLinqExtension.cs over options and over
    sequences of options. Sequences are finite and fully materialised; the
    source's iterator methods run their null checks on first enumeration,
    which here is the same as at the call. */
module OptionLinq {
  import opened Values
  import opened Options

  // ---------------------------------------------------------------------------
  // FirstOption

  /** `Enumerable.FirstOrDefault(source, predicate)` on a reference element
      type, after its documented behaviour: the first element, in order, that
      satisfies the predicate, or null when there is none. */
  function FirstOrDefault<T>(xs: seq<Nullable<T>>, p: Nullable<T> -> bool): (r: Nullable<T>)
    ensures r.NonNull? ==> r in xs && p(r)
  {
    if |xs| == 0 then Null
    else if p(xs[0]) then xs[0]
    else FirstOrDefault(xs[1..], p)
  }

  /** Index `i` holds the first element of `xs` satisfying `p`. */
  ghost predicate FirstMatchAt<T>(xs: seq<T>, p: T -> bool, i: int)
  {
    0 <= i < |xs| && p(xs[i]) && forall j :: 0 <= j < i ==> !p(xs[j])
  }

  /** No element of `xs` satisfies `p`. */
  ghost predicate NoMatch<T>(xs: seq<T>, p: T -> bool)
  {
    forall i :: 0 <= i < |xs| ==> !p(xs[i])
  }

  /** The scan returns exactly the first match, or null when nothing matches,
      and one of the two cases always applies. */
  lemma {:induction false} FirstOrDefaultFindsFirstMatch<T>(xs: seq<Nullable<T>>, p: Nullable<T> -> bool)
    ensures NoMatch(xs, p) ==> FirstOrDefault(xs, p) == Null
    ensures forall i :: FirstMatchAt(xs, p, i) ==> FirstOrDefault(xs, p) == xs[i]
    ensures !NoMatch(xs, p) ==> exists i :: FirstMatchAt(xs, p, i)
  {
    if |xs| == 0 {
    } else if p(xs[0]) {
      assert FirstMatchAt(xs, p, 0);
    } else {
      var tl := xs[1..];
      FirstOrDefaultFindsFirstMatch(tl, p);
      if NoMatch(xs, p) {
        assert NoMatch(tl, p) by {
          forall k | 0 <= k < |tl|
            ensures !p(tl[k])
          {
            assert tl[k] == xs[k + 1];
          }
        }
      }
      forall i | FirstMatchAt(xs, p, i)
        ensures FirstOrDefault(xs, p) == xs[i]
      {
        assert i > 0;
        assert FirstMatchAt(tl, p, i - 1) by {
          forall j | 0 <= j < i - 1
            ensures !p(tl[j])
          {
            assert tl[j] == xs[j + 1];
          }
        }
      }
      if !NoMatch(xs, p) {
        var k :| 0 <= k < |xs| && p(xs[k]);
        assert k > 0 && tl[k - 1] == xs[k];
        assert !NoMatch(tl, p);
        var m :| FirstMatchAt(tl, p, m);
        assert FirstMatchAt(xs, p, m + 1) by {
          forall j | 0 <= j < m + 1
            ensures !p(xs[j])
          {
            if j > 0 {
              assert xs[j] == tl[j - 1];
            }
          }
        }
      }
    }
  }

  /** `FirstOption(source, f)`: the first element satisfying `f` as a defined
      option, unless that element is null; a null `f` is rejected by
      `FirstOrDefault`. */
  function FirstOption<T>(xs: seq<Nullable<T>>, f: Nullable<Nullable<T> -> bool>): (r: Result<Option<Nullable<T>>>)
    ensures f.Null? ==> r == Err(ArgNull)
    ensures f.NonNull? ==> r.Ok?
    ensures r.Ok? && r.value.Some? ==> r.value.value.NonNull? && r.value.value in xs && f.obj(r.value.value)
  {
    if f.Null? then Err(ArgNull)
    else
      var found := FirstOrDefault(xs, f.obj);
      if found.Null? then Ok(None) else Ok(Some(found))
  }

  /** The full behaviour of `FirstOption`: empty when nothing matches, and
      otherwise decided by the first match alone, so a null first match gives
      an empty option even when a later match is non-null. */
  lemma FirstOptionSpec<T>(xs: seq<Nullable<T>>, p: Nullable<T> -> bool)
    ensures NoMatch(xs, p) ==> FirstOption(xs, NonNull(p)) == Ok(None)
    ensures forall i :: FirstMatchAt(xs, p, i) ==>
      FirstOption(xs, NonNull(p)) == Ok(if xs[i].Null? then None else Some(xs[i]))
  {
    FirstOrDefaultFindsFirstMatch(xs, p);
  }

  /** Concrete cases: no match, a later match, and a null first match. */
  lemma FirstOptionExamples(a: int)
    ensures FirstOption([NonNull(1), NonNull(2), NonNull(3)], NonNull((x: Nullable<int>) => x.NonNull? && x.obj > 5)) == Ok(None)
    ensures FirstOption([NonNull(1), NonNull(2), NonNull(3)], NonNull((x: Nullable<int>) => x.NonNull? && x.obj > 1)) == Ok(Some(NonNull(2)))
    ensures FirstOption([Null, NonNull(a)], NonNull((x: Nullable<int>) => true)) == Ok(None)
  {
  }

  /** `FirstOption(source)`: the head of the sequence, empty for an empty
      sequence or a null head. */
  function FirstOptionHead<T>(xs: seq<Nullable<T>>): (r: Option<Nullable<T>>)
    ensures r == (if |xs| == 0 || xs[0].Null? then None else Some(xs[0]))
  {
    FirstOption(xs, NonNull((_: Nullable<T>) => true)).value
  }

  // ---------------------------------------------------------------------------
  // Query operators on one option

  /** `Select`: `Map` behind an argument-null check, so unlike `Map` a null
      selector is rejected even on an empty option. */
  function Select<T, U>(o: Option<T>, f: Nullable<T -> U>): (r: Result<Option<U>>)
    ensures f.Null? ==> r == Err(ArgNull)
    ensures f.NonNull? ==> r.Ok? && r == Map(o, f)
    ensures r.Ok? ==> (r.value.Some? <==> o.Some?)
  {
    if f.Null? then Err(ArgNull) else Map(o, f)
  }

  /** `SelectMany` on one option: `FlatMap`, with the same null check. */
  function SelectManyOption<T, U>(o: Option<T>, f: Nullable<T -> Option<U>>): (r: Result<Option<U>>)
    ensures r == FlatMap(o, f)
    ensures r.Ok? && r.value.Some? ==> o.Some? && r.value == f.obj(o.value)
  {
    if f.Null? then Err(ArgNull) else FlatMap(o, f)
  }

  /** `Where`: `Filter`, with the same null check. */
  function Where<T>(o: Option<T>, p: Nullable<T -> bool>): (r: Result<Option<T>>)
    ensures r == Filter(o, p)
    ensures r.Ok? ==> (r.value.Some? <==> Exists(o, p) == Ok(true))
  {
    if p.Null? then Err(ArgNull) else Filter(o, p)
  }

  /** `HasValue`: whether the option is defined. */
  function HasValue<T>(o: Option<T>): (b: bool)
    ensures b <==> Get(o).Ok?
    ensures b <==> |Enumerate(o)| == 1
  {
    o.Some?
  }

  /** `Any`: `Exists` under another name. */
  function Any<T>(o: Option<T>, p: Nullable<T -> bool>): (r: Result<bool>)
    ensures r == Exists(o, p)
    ensures r == Ok(true) ==> HasValue(o)
  {
    Exists(o, p)
  }

  /** `Select` and `Map` agree except on a null selector, where `Select`
      always rejects and `Map` fails only when there is a payload. */
  lemma SelectVersusMap<T, U>(o: Option<T>, f: T -> U)
    ensures Select(o, NonNull(f)) == Map(o, NonNull(f))
    ensures Select<T, U>(o, Null) == Err(ArgNull)
    ensures Map<T, U>(o, Null).Ok? <==> o.None?
  {
  }

  // ---------------------------------------------------------------------------
  // Sequences of options

  /** The payloads of the defined options, in order. */
  function Payloads<T>(xs: seq<Option<T>>): seq<T>
  {
    if |xs| == 0 then [] else Payloads(xs[..|xs| - 1]) + Enumerate(xs[|xs| - 1])
  }

  /** The number of defined options. */
  function CountDefined<T>(xs: seq<Option<T>>): nat
  {
    if |xs| == 0 then 0 else CountDefined(xs[..|xs| - 1]) + (if xs[|xs| - 1].Some? then 1 else 0)
  }

  /** There are as many payloads as defined options, each payload comes from a
      defined option, and a sequence without defined options has none. */
  lemma {:induction false} PayloadsSpec<T>(xs: seq<Option<T>>)
    ensures |Payloads(xs)| == CountDefined(xs)
    ensures forall v :: v in Payloads(xs) ==> Some(v) in xs
    ensures (forall i :: 0 <= i < |xs| ==> xs[i].None?) ==> Payloads(xs) == []
  {
    if |xs| > 0 {
      var init := xs[..|xs| - 1];
      PayloadsSpec(init);
      forall v | v in Payloads(xs)
        ensures Some(v) in xs
      {
        if v in Payloads(init) {
          assert Some(v) in init;
        } else {
          assert Some(v) == xs[|xs| - 1];
        }
      }
      if forall i :: 0 <= i < |xs| ==> xs[i].None? {
        assert forall i :: 0 <= i < |init| ==> init[i] == xs[i];
      }
    }
  }

  /** `SelectMany(source, Func<IOption<TSource>, TResult>)`: the selector is
      applied to every option, defined or not. */
  method SelectManyOptions<T, U>(xs: seq<Option<T>>, sel: Nullable<Option<T> -> U>) returns (r: Result<seq<U>>)
    ensures sel.Null? ==> r == Err(ArgNull)
    ensures sel.NonNull? ==> r.Ok? && |r.value| == |xs|
    ensures r.Ok? ==> forall i | 0 <= i < |xs| :: r.value[i] == sel.obj(xs[i])
  {
    if sel.Null? {
      return Err(ArgNull);
    }
    var out: seq<U> := [];
    var i := 0;
    while i < |xs|
      invariant 0 <= i <= |xs|
      invariant |out| == i
      invariant forall k | 0 <= k < i :: out[k] == sel.obj(xs[k])
    {
      out := out + [sel.obj(xs[i])];
      i := i + 1;
    }
    return Ok(out);
  }

  /** `SelectMany(source, Func<TSource, TResult>)`: the selector is applied to
      the payload of each defined option, in order; empty options are dropped
      without trace. */
  method SelectManyValues<T, U>(xs: seq<Option<T>>, sel: Nullable<T -> U>) returns (r: Result<seq<U>>)
    ensures sel.Null? ==> r == Err(ArgNull)
    ensures sel.NonNull? ==> r == Ok(MapSeq(sel.obj, Payloads(xs)))
    ensures r.Ok? ==> |r.value| == CountDefined(xs)
    ensures r.Ok? && (forall i :: 0 <= i < |xs| ==> xs[i].None?) ==> r.value == []
  {
    if sel.Null? {
      return Err(ArgNull);
    }
    var out: seq<U> := [];
    var i := 0;
    while i < |xs|
      invariant 0 <= i <= |xs|
      invariant out == MapSeq(sel.obj, Payloads(xs[..i]))
    {
      assert xs[..i + 1][..i] == xs[..i];
      if xs[i].Some? {
        out := out + [sel.obj(Get(xs[i]).value)];
      }
      i := i + 1;
    }
    assert xs[..|xs|] == xs;
    PayloadsSpec(xs);
    return Ok(out);
  }

  // ---------------------------------------------------------------------------
  // Zip

  /** The two-operand `Zip`: the pair of payloads once when both options are
      defined, and nothing otherwise. */
  function Zip<A, B>(a: Option<A>, b: Option<B>): (r: seq<(A, B)>)
    ensures |r| == |Enumerate(a)| * |Enumerate(b)|
    ensures forall i | 0 <= i < |r| :: Some(r[i].0) == a && Some(r[i].1) == b
  {
    if a.Some? && b.Some? then [(Get(a).value, Get(b).value)] else []
  }

  /** The three-operand `Zip`: the selector applied to the three payloads once
      when all are defined, and nothing otherwise. The selector is not
      null-checked, so a null one faults only when it is invoked. */
  function Zip3<A, B, C, R>(a: Option<A>, b: Option<B>, c: Option<C>, sel: Nullable<(A, B, C) -> R>): (r: Result<seq<R>>)
    ensures r.Err? <==> a.Some? && b.Some? && c.Some? && sel.Null?
    ensures r.Err? ==> r.error == NullRef
    ensures r.Ok? ==> |r.value| == |Enumerate(a)| * |Enumerate(b)| * |Enumerate(c)|
    ensures r.Ok? && |r.value| > 0 ==> sel.NonNull? && r.value[0] == sel.obj(a.value, b.value, c.value)
  {
    if a.Some? && b.Some? && c.Some? then
      if sel.Null? then Err(NullRef)
      else Ok([sel.obj(Get(a).value, Get(b).value, Get(c).value)])
    else
      Ok([])
  }

  /** `Zip` is the enumeration of the all-or-nothing combination built with
      `FlatMap` and `Map`, and so is `Zip3` with a selector. */
  lemma ZipIsApplicative<A, B, C, R>(a: Option<A>, b: Option<B>, c: Option<C>, s: (A, B, C) -> R)
    ensures Zip(a, b) == Enumerate(FlatMap(a, NonNull((x: A) => Map(b, NonNull((y: B) => (x, y))).value)).value)
    ensures Zip3(a, b, c, NonNull(s))
         == Ok(Enumerate(FlatMap(a, NonNull((x: A) =>
              FlatMap(b, NonNull((y: B) =>
                Map(c, NonNull((z: C) => s(x, y, z))).value)).value)).value))
  {
  }
}
