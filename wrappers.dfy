/** Option and Result, the two failure-carrying datatypes the model uses, and two sequence helpers. */
module Wrappers {

  datatype Option<+T> = None | Some(value: T) {
    predicate IsFailure() { None? }

    function PropagateFailure<U>(): Option<U>
      requires None?
    {
      None
    }

    function Extract(): T
      requires Some?
    {
      value
    }
  }

  datatype Result<+R, +E> = Ok(value: R) | Err(error: E) {
    predicate IsFailure() { Err? }

    function PropagateFailure<U>(): Result<U, E>
      requires Err?
    {
      Err(error)
    }

    function Extract(): R
      requires Ok?
    {
      value
    }
  }

  /** The first element of `xs` that satisfies `p`, as Rust's `Iterator::find` returns it. */
  function Find<T>(xs: seq<T>, p: T -> bool): (r: Option<T>)
    ensures r.None? <==> forall i :: 0 <= i < |xs| ==> !p(xs[i])
    ensures r.Some? ==> exists i :: 0 <= i < |xs| && xs[i] == r.value && p(xs[i]) &&
                                    forall j :: 0 <= j < i ==> !p(xs[j])
  {
    if xs == [] then None
    else if p(xs[0]) then Some(xs[0])
    else
      var r := Find(xs[1..], p);
      if r.Some? then
        ghost var i :| 0 <= i < |xs[1..]| && xs[1..][i] == r.value && p(xs[1..][i]) &&
                       forall j :: 0 <= j < i ==> !p(xs[1..][j]);
        assert xs[i + 1] == r.value && forall j :: 0 <= j < i + 1 ==> !p(xs[j]);
        r
      else r
  }

  /**
   * `collect::<Result<Vec<_>, _>>()` over `xs` mapped by `f`: every result in order, or the
   * first error.
   */
  function Collect<A, B, E>(xs: seq<A>, f: A -> Result<B, E>): (r: Result<seq<B>, E>)
    ensures r.Ok? <==> forall i :: 0 <= i < |xs| ==> f(xs[i]).Ok?
    ensures r.Ok? ==> |r.value| == |xs| && forall i :: 0 <= i < |xs| ==> Ok(r.value[i]) == f(xs[i])
    ensures r.Err? ==> exists i :: 0 <= i < |xs| && f(xs[i]) == Err(r.error) &&
                                   forall j :: 0 <= j < i ==> f(xs[j]).Ok?
  {
    if xs == [] then Ok([])
    else
      match f(xs[0])
      case Err(e) => Err(e)
      case Ok(first) =>
        var rest := Collect(xs[1..], f);
        assert forall i :: 1 <= i < |xs| ==> xs[i] == xs[1..][i - 1];
        match rest
        case Err(e) =>
          ghost var i :| 0 <= i < |xs[1..]| && f(xs[1..][i]) == Err(e) && forall j :: 0 <= j < i ==> f(xs[1..][j]).Ok?;
          assert f(xs[i + 1]) == Err(e) && forall j :: 0 <= j < i + 1 ==> f(xs[j]).Ok?;
          Err(e)
        case Ok(tail) => Ok([first] + tail)
  }

  predicate StartsWith(s: string, prefix: string)
  {
    |prefix| <= |s| && s[..|prefix|] == prefix
  }

  /** A prefix of `a` stays a prefix when something is appended to `a`. */
  lemma StartsWithAppend(a: string, b: string, prefix: string)
    requires StartsWith(a, prefix)
    ensures StartsWith(a + b, prefix)
  {
    assert (a + b)[..|prefix|] == a[..|prefix|];
  }
}
