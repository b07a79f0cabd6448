/** Runs of a state machine given by its step function, and counting. */
module Runs {
  ghost function Run<S, E>(step: (S, E) -> S, s: S, es: seq<E>): S {
    if es == [] then s else step(Run(step, s, es[..|es| - 1]), es[|es| - 1])
  }

  lemma {:induction false} RunLast<S, E>(step: (S, E) -> S, s: S, es: seq<E>, e: E)
    ensures Run(step, s, es + [e]) == step(Run(step, s, es), e)
  {
  }

  lemma {:induction false} RunInTurn<S, E>(step: (S, E) -> S, s: S, a: seq<E>, b: seq<E>)
    ensures Run(step, s, a + b) == Run(step, Run(step, s, a), b)
  {
    if b == [] {
      assert a + b == a;
    } else {
      var init, last := b[..|b| - 1], b[|b| - 1];
      RunInTurn(step, s, a, init);
      RunLast(step, s, a + init, last);
      assert (a + init) + [last] == a + b;
    }
  }

  lemma {:induction false} RunTwo<S, E>(step: (S, E) -> S, s: S, a: E, b: E)
    ensures Run(step, s, [a, b]) == step(step(s, a), b)
  {
    RunLast(step, s, [], a);
    RunLast(step, s, [a], b);
    assert [] + [a] == [a] && [a] + [b] == [a, b];
  }

  lemma {:induction false} RunOne<S, E>(step: (S, E) -> S, s: S, e: E)
    ensures Run(step, s, [e]) == step(s, e)
  {
  }

  /** `n` rounds of events, the i-th of them round(i). */
  function Series<E>(n: nat, round: nat -> seq<E>): seq<E> {
    if n == 0 then [] else Series(n - 1, round) + round(n - 1)
  }

  /** A statement about the number of rounds done, kept by each of them, holds after all of them. */
  lemma {:induction false} SeriesKeeps<S(!new), E>(step: (S, E) -> S, s: S, n: nat, k: nat, round: nat -> seq<E>,
        inv: (S, nat) -> bool)
    requires n <= k && inv(s, 0)
    requires forall t, i: nat | i < k && inv(t, i) :: inv(Run(step, t, round(i)), i + 1)
    ensures inv(Run(step, s, Series(n, round)), n)
  {
    if n > 0 {
      SeriesKeeps(step, s, n - 1, k, round, inv);
      RunInTurn(step, s, Series(n - 1, round), round(n - 1));
    }
  }

  ghost function Count<T>(f: T -> bool, s: seq<T>): nat {
    if s == [] then 0 else Count(f, s[..|s| - 1]) + if f(s[|s| - 1]) then 1 else 0
  }

  lemma {:induction false} CountLast<T>(f: T -> bool, s: seq<T>, x: T)
    ensures Count(f, s + [x]) == Count(f, s) + if f(x) then 1 else 0
  {
  }

  lemma {:induction false} CountZero<T>(f: T -> bool, s: seq<T>)
    ensures Count(f, s) == 0 <==> forall x | x in s :: !f(x)
  {
    if s != [] {
      CountZero(f, s[..|s| - 1]);
      assert s == s[..|s| - 1] + [s[|s| - 1]];
    }
  }

  /** Lists whose members correspond one by one count alike. */
  lemma {:induction false} CountAlike<T>(f: T -> bool, s: seq<T>, g: T -> bool, t: seq<T>)
    requires |s| == |t| && forall i | 0 <= i < |s| :: f(s[i]) == g(t[i])
    ensures Count(f, s) == Count(g, t)
  {
    if s != [] {
      CountAlike(f, s[..|s| - 1], g, t[..|t| - 1]);
    }
  }

  lemma {:induction false} CountMonotone<T>(f: T -> bool, s: seq<T>, g: T -> bool, t: seq<T>)
    requires |s| == |t| && forall i | 0 <= i < |s| :: f(s[i]) ==> g(t[i])
    ensures Count(f, s) <= Count(g, t)
  {
    if s != [] {
      CountMonotone(f, s[..|s| - 1], g, t[..|t| - 1]);
    }
  }

  lemma {:induction false} CountUpdate<T>(f: T -> bool, s: seq<T>, i: nat, x: T)
    requires i < |s|
    ensures Count(f, s[i := x]) == Count(f, s) - (if f(s[i]) then 1 else 0) + (if f(x) then 1 else 0)
  {
    var init, last := s[..|s| - 1], |s| - 1;
    if i == last {
      assert s[i := x][..last] == init;
    } else {
      CountUpdate(f, init, i, x);
      assert s[i := x][..last] == init[i := x];
    }
  }

  lemma {:induction false} CountAtMost<T>(f: T -> bool, s: seq<T>)
    ensures Count(f, s) <= |s|
    ensures Count(f, s) == |s| <==> forall x | x in s :: f(x)
  {
    if s != [] {
      CountAtMost(f, s[..|s| - 1]);
      assert s == s[..|s| - 1] + [s[|s| - 1]];
    }
  }
}
