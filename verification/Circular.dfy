/** Positions on a ring of n slots, and the slots from one position to another. */
module Circular {

  function Inc(v: nat, n: nat): nat
    requires 0 < n
  {
    (v + 1) % n
  }

  /** The position `i` steps after `from`. */
  function At(from: nat, i: nat, n: nat): nat
    requires from < n && i <= n
  {
    if from + i < n then from + i else from + i - n
  }

  /** The steps from `from` to `to`. */
  function Dist(from: nat, to: nat, n: nat): nat
    requires from < n && to < n
  {
    if from <= to then to - from else to + n - from
  }

  /** Going round from a to c passes b. */
  predicate Between(a: nat, b: nat, c: nat, n: nat)
    requires a < n && b < n && c < n
  {
    Dist(a, b, n) + Dist(b, c, n) == Dist(a, c, n)
  }

  /** The contents of `k` slots from `from` on. */
  function Window<T>(slots: seq<T>, from: nat, k: nat): (w: seq<T>)
    requires from < |slots| && k <= |slots|
    ensures |w| == k && forall i :: 0 <= i < k ==> w[i] == slots[At(from, i, |slots|)]
  {
    seq(k, i requires 0 <= i < k => slots[At(from, i, |slots|)])
  }

  lemma IncIs(v: nat, n: nat)
    requires v < n
    ensures Inc(v, n) == At(v, 1, n) < n
  {
    if v + 1 == n {
      assert n % n == 0;
    }
  }

  lemma DistInc(a: nat, b: nat, n: nat)
    requires a < n && b < n
    ensures Inc(a, n) < n && Inc(b, n) < n
    ensures a != b ==> Dist(Inc(a, n), b, n) == Dist(a, b, n) - 1
    ensures Inc(b, n) != a ==> Dist(a, Inc(b, n), n) == Dist(a, b, n) + 1
    ensures Inc(b, n) == a <==> Dist(a, b, n) == n - 1
    ensures At(a, Dist(a, b, n), n) == b
  {
    IncIs(a, n);
    IncIs(b, n);
    hide Inc;
  }

  /** The middle one of three positions in order goes one on, short of the last. */
  lemma BetweenAdvance(a: nat, b: nat, c: nat, n: nat)
    requires a < n && b < n && c < n && Between(a, b, c, n) && b != c
    ensures Inc(b, n) < n && Inc(b, n) != a && Between(a, Inc(b, n), c, n)
    ensures Dist(b, c, n) == Dist(Inc(b, n), c, n) + 1 && Dist(a, Inc(b, n), n) == Dist(a, b, n) + 1
  {
    IncIs(b, n);
    hide Inc;
  }

  /** The first one goes one on, short of the middle one. */
  lemma BetweenDrop(a: nat, b: nat, c: nat, n: nat)
    requires a < n && b < n && c < n && Between(a, b, c, n) && a != b
    ensures Inc(a, n) < n && a != c && Between(Inc(a, n), b, c, n)
    ensures Dist(a, c, n) == Dist(Inc(a, n), c, n) + 1
  {
    IncIs(a, n);
    hide Inc;
  }

  /** The last one goes one on, short of the first one. */
  lemma BetweenGrow(a: nat, b: nat, c: nat, n: nat)
    requires a < n && b < n && c < n && Between(a, b, c, n) && Inc(c, n) != a
    ensures Inc(c, n) < n && Between(a, b, Inc(c, n), n) && Dist(a, Inc(c, n), n) == Dist(a, c, n) + 1
  {
    IncIs(c, n);
    hide Inc;
  }

  /** Filling the slot after a window makes it part of the window. */
  lemma WindowPush<T>(slots: seq<T>, from: nat, k: nat, x: T)
    requires from < |slots| && k < |slots|
    ensures At(from, k, |slots|) < |slots|
    ensures Window(slots[At(from, k, |slots|) := x], from, k + 1) == Window(slots, from, k) + [x]
  {}

  /** Slots outside a window do not matter to it. */
  lemma WindowFrame<T>(slots: seq<T>, from: nat, k: nat, j: nat, x: T)
    requires from < |slots| && k <= j < |slots|
    ensures At(from, j, |slots|) < |slots|
    ensures Window(slots[At(from, j, |slots|) := x], from, k) == Window(slots, from, k)
  {}

  lemma WindowPop<T>(slots: seq<T>, from: nat, k: nat)
    requires from < |slots| && 0 < k <= |slots|
    ensures Inc(from, |slots|) < |slots|
    ensures Window(slots, from, k) == [slots[from]] + Window(slots, Inc(from, |slots|), k - 1)
  {
    IncIs(from, |slots|);
    hide Inc;
  }

  /** The rest of a window, after its first slot has been changed. */
  lemma WindowRest<T>(slots: seq<T>, from: nat, k: nat, x: T)
    requires from < |slots| && k < |slots|
    ensures Inc(from, |slots|) < |slots|
    ensures Window(slots, from, k + 1) == [slots[from]] + Window(slots[from := x], Inc(from, |slots|), k)
  {
    var n := |slots|;
    IncIs(from, n);
    assert At(Inc(from, n), n - 1, n) == from;
    WindowFrame(slots, Inc(from, n), k, n - 1, x);
    WindowPop(slots, from, k + 1);
    hide Inc, Window, At;
  }
}
