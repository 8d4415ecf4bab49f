/**
 * The order in which `as_completed` hands back the futures of a thread pool.
 * A batch over `n` inputs is modelled sequentially: `order[k]` is the index of
 * the input whose task finishes `k`-th. Nothing else about the schedule is known.
 * Iterating over a Python set is unordered in the same way: `list(s)` and
 * `for x in s` see some enumeration of `s`.
 */
module Pool {

  /** `xs` lists the elements of `s`, each exactly once, in some order. */
  ghost predicate IsEnumeration(xs: seq<string>, s: set<string>)
  {
    && (forall x :: x in xs <==> x in s)
    && (forall k, m :: 0 <= k < m < |xs| ==> xs[k] != xs[m])
  }

  /** Each index below `n` is used once: every task is waited for exactly once. */
  predicate IsCompletionOrder(order: seq<nat>, n: nat)
  {
    && |order| == n
    && (forall k :: 0 <= k < |order| ==> order[k] < n)
    && Distinct(order)
  }

  lemma SliceAll<T>(s: seq<T>)
    ensures s[..|s|] == s
  {
  }

  /** Cutting one element further. */
  lemma SliceSnoc<T>(s: seq<T>, i: nat)
    requires i < |s|
    ensures s[..i + 1] == s[..i] + [s[i]]
  {
  }

  /** A property held by every result, position by position, still holds after one
      more result that has it is appended. */
  lemma AllExtend<T>(P: (nat, T) -> bool, results: seq<T>, x: T)
    requires forall m :: 0 <= m < |results| ==> P(m, results[m])
    requires P(|results|, x)
    ensures forall m :: 0 <= m < |results| + 1 ==> P(m, (results + [x])[m])
  {
    forall m | 0 <= m < |results| + 1 ensures P(m, (results + [x])[m]) {
      if m < |results| {
        assert (results + [x])[m] == results[m];
      }
    }
  }

  predicate Distinct(order: seq<nat>)
  {
    forall k, m :: 0 <= k < m < |order| ==> order[k] != order[m]
  }

  /** Distinct indices below `n` number at most `n`; exactly `n` of them use every index. */
  lemma {:induction false} DistinctBelow(order: seq<nat>, n: nat)
    requires Distinct(order)
    requires forall k :: 0 <= k < |order| ==> order[k] < n
    ensures |order| <= n
    ensures |order| == n ==> forall i :: 0 <= i < n ==> i in order
    decreases n
  {
    if n == 0 {
    } else if n - 1 in order {
      var p :| 0 <= p < |order| && order[p] == n - 1;
      var rest := DropAt(order, p, n);
      DistinctBelow(rest, n - 1);
      if |order| == n {
        forall i | 0 <= i < n ensures i in order {
          if i < n - 1 {
            assert i in rest;
          }
        }
      }
    } else {
      forall k | 0 <= k < |order| ensures order[k] < n - 1 {
        assert order[k] != n - 1;
      }
      DistinctBelow(order, n - 1);
    }
  }

  /** Removing the one occurrence of `n - 1` leaves distinct indices below `n - 1`. */
  lemma DropAt(order: seq<nat>, p: nat, n: nat) returns (rest: seq<nat>)
    requires Distinct(order)
    requires forall k :: 0 <= k < |order| ==> order[k] < n
    requires p < |order| && order[p] == n - 1
    ensures |rest| == |order| - 1 && Distinct(rest)
    ensures forall k :: 0 <= k < |rest| ==> rest[k] < n - 1
    ensures forall i :: i in rest ==> i in order
  {
    rest := order[..p] + order[p + 1..];
    assert forall k :: 0 <= k < |rest| ==> rest[k] == order[if k < p then k else k + 1];
  }

  /** Every input appears in a completion order, so every task's result is collected. */
  lemma CompletionOrderCovers(order: seq<nat>, n: nat, i: nat)
    requires IsCompletionOrder(order, n)
    requires i < n
    ensures exists k :: 0 <= k < n && order[k] == i
  {
    DistinctBelow(order, n);
    assert i in order;
  }
}
