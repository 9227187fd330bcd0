// Sequences of steps of a state machine.

module Chains {
  // n steps from s to t.
  ghost predicate Chain<S(!new)>(next: (S, S) -> bool, s: S, t: S, n: nat)
    decreases n
  {
    if n == 0 then s == t else exists u :: next(s, u) && Chain(next, u, t, n - 1)
  }

  lemma {:induction false} ChainTransitive<S(!new)>(next: (S, S) -> bool, s: S, t: S, u: S, m: nat, n: nat)
    requires Chain(next, s, t, m) && Chain(next, t, u, n)
    ensures Chain(next, s, u, m + n)
    decreases m
  {
    if m > 0 {
      var v :| next(s, v) && Chain(next, v, t, m - 1);
      ChainTransitive(next, v, t, u, m - 1, n);
    }
  }

  lemma {:induction false} ChainKeeps<S(!new)>(next: (S, S) -> bool, keep: S -> bool, s: S, t: S, n: nat)
    requires keep(s) && Chain(next, s, t, n) && forall a, b :: keep(a) && next(a, b) ==> keep(b)
    ensures keep(t)
    decreases n
  {
    if n > 0 {
      var u :| next(s, u) && Chain(next, u, t, n - 1);
      ChainKeeps(next, keep, u, t, n - 1);
    }
  }

  lemma {:induction false} ChainWider<S(!new)>(next: (S, S) -> bool, more: (S, S) -> bool, s: S, t: S, n: nat)
    requires Chain(next, s, t, n) && forall a, b :: next(a, b) ==> more(a, b)
    ensures Chain(more, s, t, n)
    decreases n
  {
    if n > 0 {
      var u :| next(s, u) && Chain(next, u, t, n - 1);
      ChainWider(next, more, u, t, n - 1);
    }
  }

  lemma OneLink<S(!new)>(next: (S, S) -> bool, s: S, t: S)
    requires next(s, t)
    ensures Chain(next, s, t, 1)
  {
    assert Chain(next, t, t, 0);
  }
}
