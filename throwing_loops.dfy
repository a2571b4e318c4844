/**
  The plugin's loops over a list whose iterations may throw one of the
  unchecked exceptions: what such a loop yields (`RunAll`), and the loop
  itself, updating each element in order (`RewriteEach`).
*/
module ThrowingLoops {
  import opened JavaString

  /** The outcome of a loop whose i-th iteration yields `steps[i]`: all the
      values, in order, or the exception of the first iteration that throws
      (the iterations after it never run). */
  function RunAll<T>(steps: seq<Result<T>>): (r: Result<seq<T>>)
    ensures r.Ok? <==> forall i :: 0 <= i < |steps| ==> steps[i].Ok?
    ensures r.Ok? ==> |r.value| == |steps| && forall i :: 0 <= i < |steps| ==> r.value[i] == steps[i].value
    ensures forall k :: 0 <= k < |steps| && steps[k].Throws? && (forall i :: 0 <= i < k ==> steps[i].Ok?)
                        ==> r == Throws(steps[k].error)
  {
    if steps == [] then Ok([])
    else
      var rest := RunAll(steps[1..]);
      assert forall i :: 1 <= i < |steps| ==> steps[i] == steps[1..][i - 1];
      if steps[0].Throws? then Throws(steps[0].error)
      else if rest.Throws? then Throws(rest.error)
      else Ok([steps[0].value] + rest.value)
  }

  /** `f` applied to each element of `xs`, in order. */
  function Applied<T>(xs: seq<T>, f: T -> Result<T>): (steps: seq<Result<T>>)
    ensures |steps| == |xs|
    ensures forall i :: 0 <= i < |xs| ==> steps[i] == f(xs[i])
  {
    seq(|xs|, i requires 0 <= i < |xs| => f(xs[i]))
  }

  /** A loop that replaces each element of `xs`, in order, by `f` of it and
      stops at the first application that throws: it yields what `RunAll`
      says of the applications. */
  method RewriteEach<T>(xs: seq<T>, f: T -> Result<T>) returns (r: Result<seq<T>>)
    ensures r == RunAll(Applied(xs, f))
  {
    ghost var steps := Applied(xs, f);
    var updated := xs;
    var i := 0;
    while i < |updated|
      invariant 0 <= i <= |updated| == |xs|
      invariant forall j :: 0 <= j < i ==> steps[j] == Ok(updated[j])
      invariant updated[i..] == xs[i..]
    {
      assert updated[i] == xs[i] by { assert updated[i] == updated[i..][0]; }
      var next := f(updated[i]);
      if next.Throws? {
        assert steps[i] == next;
        return Throws(next.error);
      }
      updated := updated[i := next.value];
      i := i + 1;
    }
    assert RunAll(steps).value == updated;
    r := Ok(updated);
  }
}
