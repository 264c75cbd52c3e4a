/** Lists grown one element at a time, each element allowed by the ones before it. */
module Chains {
  ghost predicate Chain<T>(next: (seq<T>, T) -> bool, s: seq<T>) {
    forall i :: 0 < i < |s| ==> next(s[..i], s[i])
  }

  lemma ChainAppend<T>(next: (seq<T>, T) -> bool, s: seq<T>, x: T)
    requires Chain(next, s) && (s != [] ==> next(s, x))
    ensures Chain(next, s + [x])
  {
    forall i | 0 < i < |s| + 1 ensures next((s + [x])[..i], (s + [x])[i]) {
      if i < |s| {
        assert (s + [x])[..i] == s[..i];
      } else {
        assert (s + [x])[..i] == s;
      }
    }
  }

  /** When each step has at most one outcome, chains with the same start agree. */
  lemma {:induction false} ChainUnique<T(!new)>(next: (seq<T>, T) -> bool, a: seq<T>, b: seq<T>, n: nat)
    requires forall s, x, y :: next(s, x) && next(s, y) ==> x == y
    requires Chain(next, a) && Chain(next, b)
    requires n <= |a| && n <= |b| && (n > 0 ==> a[0] == b[0])
    ensures a[..n] == b[..n]
  {
    if n > 1 {
      ChainUnique(next, a, b, n - 1);
      assert next(a[..n - 1], a[n - 1]) && next(b[..n - 1], b[n - 1]);
      assert a[n - 1] == b[n - 1];
      assert a[..n] == a[..n - 1] + [a[n - 1]] && b[..n] == b[..n - 1] + [b[n - 1]];
    }
  }

  /** What every step keeps holds of every prefix. */
  lemma {:induction false} ChainKeeps<T(!new)>(next: (seq<T>, T) -> bool, inv: seq<T> -> bool, s: seq<T>, n: nat)
    requires Chain(next, s) && 1 <= n <= |s|
    requires inv(s[..1])
    requires forall r, x :: inv(r) && next(r, x) ==> inv(r + [x])
    ensures inv(s[..n])
  {
    if n > 1 {
      ChainKeeps(next, inv, s, n - 1);
      assert s[..n] == s[..n - 1] + [s[n - 1]];
    }
  }

  /** Some states lead from `s` to `s'`, one element of `es` at a time. */
  ghost predicate Steps<S(!new), E>(step: (S, E, S) -> bool, s: S, es: seq<E>, s': S)
    decreases |es|
  {
    if es == [] then s' == s
    else
      var e := es[|es| - 1];
      exists m :: Steps(step, s, es[..|es| - 1], m) && step(m, e, s')
  }

  lemma StepsMore<S(!new), E>(step: (S, E, S) -> bool, s: S, es: seq<E>, m: S, e: E, s': S)
    requires Steps(step, s, es, m) && step(m, e, s')
    ensures Steps(step, s, es + [e], s')
  {
    var all := es + [e];
    assert all[..|es|] == es && all[|es|] == e;
    assert Steps(step, s, all[..|all| - 1], m) && step(m, all[|all| - 1], s');
  }
}
