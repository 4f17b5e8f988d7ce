/**
 * `mapDefined(l, f)`: the results of `f` over `l` that are defined and truthy, in order.
 * `f` returns `None` for `false` or `undefined`; `truthy` says which of its other results
 * JavaScript treats as true (`if (y)`).
 */
module MapDefined {
  import opened Wrappers

  /** Whether `y := f(x)` passes the test `if (y)`. */
  predicate Kept<T, U>(f: T -> Option<U>, truthy: U -> bool, x: T) {
    f(x).Some? && truthy(f(x).value)
  }

  /** The specification: what the loop has collected after visiting all of `l`. */
  function Defined<T, U>(l: seq<T>, f: T -> Option<U>, truthy: U -> bool): seq<U> {
    if l == [] then []
    else
      var last := l[|l| - 1];
      Defined(l[..|l| - 1], f, truthy) + (if Kept(f, truthy, last) then [f(last).value] else [])
  }

  /** The loop of `mapDefined`: push each kept result onto `acc`. */
  method MapDefined<T, U>(l: seq<T>, f: T -> Option<U>, truthy: U -> bool) returns (acc: seq<U>)
    ensures acc == Defined(l, f, truthy)
    ensures |acc| <= |l|
  {
    acc := [];
    var i := 0;
    while i < |l|
      invariant 0 <= i <= |l|
      invariant acc == Defined(l[..i], f, truthy)
    {
      var x := l[i];
      var y := f(x);
      if y.Some? && truthy(y.value) {
        acc := acc + [y.value];
      }
      assert l[..i + 1][..i] == l[..i];
      i := i + 1;
    }
    assert l[..i] == l;
    DefinedShorter(l, f, truthy);
  }

  /** At most one output per input. */
  lemma {:induction false} DefinedShorter<T, U>(l: seq<T>, f: T -> Option<U>, truthy: U -> bool)
    ensures |Defined(l, f, truthy)| <= |l|
  {
    if l != [] {
      DefinedShorter(l[..|l| - 1], f, truthy);
    }
  }

  /** The outputs are exactly the kept results of the inputs. */
  lemma {:induction false} DefinedMembers<T, U>(l: seq<T>, f: T -> Option<U>, truthy: U -> bool)
    ensures forall y :: y in Defined(l, f, truthy) <==> exists x :: x in l && Kept(f, truthy, x) && f(x).value == y
  {
    if l != [] {
      var init := l[..|l| - 1];
      DefinedMembers(init, f, truthy);
      assert l == init + [l[|l| - 1]];
      assert forall x :: x in l <==> x in init || x == l[|l| - 1];
    }
  }

  /** Order is kept: the outputs of a concatenation are the concatenated outputs. */
  lemma {:induction false} DefinedAppend<T, U>(a: seq<T>, b: seq<T>, f: T -> Option<U>, truthy: U -> bool)
    ensures Defined(a + b, f, truthy) == Defined(a, f, truthy) + Defined(b, f, truthy)
    decreases |b|
  {
    if b == [] {
      assert a + b == a;
    } else {
      var init := b[..|b| - 1];
      DefinedAppend(a, init, f, truthy);
      assert (a + b)[..|a + b| - 1] == a + init;
    }
  }
}
