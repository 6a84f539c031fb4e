/**
 Singly linked free lists threaded through an array of links, as the command list and
 the block allocator keep them. A link is an index, None being the NULL pointer.
 */
module FreeChain {
  import opened Options
  import opened Sequences

  type Link = Option<nat>

  /** Following `next` from `start` visits exactly `c` and then ends. */
  ghost predicate IsChain(next: seq<Link>, start: Link, c: seq<nat>)
    decreases |c|
  {
    if c == [] then
      start == None
    else
      start == Some(c[0]) && c[0] < |next| && IsChain(next, next[c[0]], c[1..])
  }

  lemma ChainStep(next: seq<Link>, start: Link, c: seq<nat>)
    requires IsChain(next, start, c) && start.Some?
    ensures c != [] && start.value == c[0] < |next| && IsChain(next, next[c[0]], c[1..])
  {}

  lemma ChainEnd(next: seq<Link>, c: seq<nat>)
    requires IsChain(next, None, c)
    ensures c == []
  {}

  function CountUp(from: nat, n: nat): (c: seq<nat>)
    requires from <= n
    ensures |c| == n - from && forall i :: 0 <= i < |c| ==> c[i] == from + i
  {
    seq(n - from, i => from + i)
  }

  lemma CountUpHas(from: nat, n: nat, p: nat)
    requires from <= p < n
    ensures p in CountUp(from, n)
  {
    assert CountUp(from, n)[p - from] == p;
  }

  /** In a new list each link leads to the next one, up to the last. */
  lemma {:induction false} FreshChain(links: seq<Link>, from: nat)
    requires from <= |links|
    requires forall i :: 0 <= i < |links| ==> links[i] == if i + 1 < |links| then Some(i + 1) else None
    ensures IsChain(links, if from < |links| then Some(from) else None, CountUp(from, |links|))
    decreases |links| - from
  {
    if from < |links| {
      FreshChain(links, from + 1);
      assert CountUp(from, |links|)[1..] == CountUp(from + 1, |links|);
    }
  }

  /** A list threaded through an array has one chain at most. */
  lemma {:induction false} ChainUnique(next: seq<Link>, start: Link, c: seq<nat>, d: seq<nat>)
    requires IsChain(next, start, c) && IsChain(next, start, d)
    ensures c == d
    decreases |c|
  {
    if c != [] && d != [] {
      ChainUnique(next, next[c[0]], c[1..], d[1..]);
      assert c == [c[0]] + c[1..] && d == [d[0]] + d[1..];
    }
  }

  /** Starting inside a chain gives its suffix. */
  lemma {:induction false} ChainFrom(next: seq<Link>, start: Link, c: seq<nat>, i: nat)
    requires IsChain(next, start, c) && i < |c|
    ensures c[i] < |next| && IsChain(next, Some(c[i]), c[i..])
    ensures IsChain(next, next[c[i]], c[i + 1..])
    decreases |c|
  {
    if i > 0 {
      ChainFrom(next, next[c[0]], c[1..], i - 1);
      assert c[1..][i - 1..] == c[i..] && c[1..][i..] == c[i + 1..];
    }
  }

  /** A chain that ends visits no element twice. */
  lemma ChainDistinct(next: seq<Link>, start: Link, c: seq<nat>)
    requires IsChain(next, start, c)
    ensures Distinct(c) && forall p :: p in c ==> p < |next|
  {
    forall i | 0 <= i < |c|
      ensures c[i] < |next|
    {
      ChainFrom(next, start, c, i);
    }
    forall i, j | 0 <= i < j < |c|
      ensures c[i] != c[j]
    {
      if c[i] == c[j] {
        ChainFrom(next, start, c, i);
        ChainFrom(next, start, c, j);
        ChainUnique(next, Some(c[i]), c[i..], c[j..]);
      }
    }
  }

  /** Links outside a chain do not matter to it. */
  lemma {:induction false} ChainFrame(a: seq<Link>, b: seq<Link>, start: Link, c: seq<nat>)
    requires IsChain(a, start, c) && |a| == |b|
    requires forall p :: p in c && p < |a| ==> a[p] == b[p]
    ensures IsChain(b, start, c)
    decreases |c|
  {
    if c != [] {
      ChainFrame(a, b, a[c[0]], c[1..]);
    }
  }

  /** Putting an element back in front. */
  lemma ChainPush(next: seq<Link>, start: Link, c: seq<nat>, p: nat)
    requires IsChain(next, start, c) && p < |next| && p !in c
    ensures IsChain(next[p := start], Some(p), [p] + c)
  {
    ChainFrame(next, next[p := start], start, c);
    assert ([p] + c)[1..] == c;
  }

  /** Putting back an element that is already free leaves a list that never ends. */
  lemma ChainPushTwice(next: seq<Link>, start: Link, c: seq<nat>, p: nat, d: seq<nat>)
    requires IsChain(next, start, c) && p in c
    requires p < |next|
    ensures !IsChain(next[p := start], Some(p), d)
  {
    if IsChain(next[p := start], Some(p), d) {
      var after := next[p := start];
      var i :| 0 <= i < |c| && c[i] == p;
      ChainDistinct(next, start, c);
      ReachesAgain(next, after, start, c, i, d[1..]);
      ChainUnique(after, Some(p), d, d[1..][i..]);
    }
  }

  /** A changed list still follows the old chain up to the first changed element. */
  lemma {:induction false} ReachesAgain(next: seq<Link>, after: seq<Link>, start: Link, c: seq<nat>, i: nat,
                                        d: seq<nat>)
    requires IsChain(next, start, c) && i < |c| && IsChain(after, start, d)
    requires |after| == |next| && Distinct(c)
    requires forall p: nat :: p < |next| && p != c[i] ==> after[p] == next[p]
    ensures i <= |d| && IsChain(after, Some(c[i]), d[i..])
    decreases |c|
  {
    if i > 0 {
      assert c[0] != c[i];
      ReachesAgain(next, after, next[c[0]], c[1..], i - 1, d[1..]);
      assert d[1..][i - 1..] == d[i..];
    } else {
      assert d[0..] == d;
    }
  }
}
