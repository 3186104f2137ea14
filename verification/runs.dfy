// Runs of a step system whose step is a partial function.

module Runs {
  ghost predicate Legal<S, E>(next: (S, E) --> S, s: S, es: seq<E>)
    decreases |es|
  {
    es == [] || (next.requires(s, es[0]) && Legal(next, next(s, es[0]), es[1..]))
  }

  ghost function After<S, E>(next: (S, E) --> S, s: S, es: seq<E>): S
    requires Legal(next, s, es)
    decreases |es|
  {
    if es == [] then s else After(next, next(s, es[0]), es[1..])
  }

  lemma Cons<S, E>(next: (S, E) --> S, s: S, e: E, es: seq<E>)
    requires next.requires(s, e) && Legal(next, next(s, e), es)
    ensures Legal(next, s, [e] + es) && After(next, s, [e] + es) == After(next, next(s, e), es)
  {
    assert ([e] + es)[1..] == es;
  }

  lemma {:induction false} Append<S, E>(next: (S, E) --> S, s: S, xs: seq<E>, ys: seq<E>)
    requires Legal(next, s, xs) && Legal(next, After(next, s, xs), ys)
    ensures Legal(next, s, xs + ys) && After(next, s, xs + ys) == After(next, After(next, s, xs), ys)
    decreases |xs|
  {
    if xs == [] {
      assert xs + ys == ys;
    } else {
      Append(next, next(s, xs[0]), xs[1..], ys);
      assert (xs + ys)[1..] == xs[1..] + ys;
    }
  }
}
