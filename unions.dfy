/**
 * The union of a per-item set over a sequence of items, accumulated left to
 * right: the shape of both the crawl over pages and the scan over `mailto:`
 * links. It is stated over an arbitrary function value so that facts about
 * the union never have to look inside the per-item sets.
 */
module Unions {

  function UnionOf(xs: seq<string>, f: string -> set<string>): set<string>
  {
    if xs == [] then {}
    else UnionOf(xs[..|xs| - 1], f) + f(xs[|xs| - 1])
  }

  /** An element is in the union exactly when some item contributes it. */
  lemma {:induction false} UnionOfIff(xs: seq<string>, f: string -> set<string>, e: string)
    ensures e in UnionOf(xs, f) <==> exists k :: 0 <= k < |xs| && e in f(xs[k])
  {
    if xs != [] {
      var front := xs[..|xs| - 1];
      UnionOfIff(front, f, e);
      if e in UnionOf(front, f) {
        var k :| 0 <= k < |front| && e in f(front[k]);
        assert xs[k] == front[k];
      }
      if exists k :: 0 <= k < |xs| && e in f(xs[k]) {
        var k :| 0 <= k < |xs| && e in f(xs[k]);
        if k < |front| {
          assert front[k] == xs[k];
        }
      }
    }
  }

  /** Every item's contribution is part of the union. */
  lemma UnionOfHas(xs: seq<string>, f: string -> set<string>, k: nat)
    requires k < |xs|
    ensures f(xs[k]) <= UnionOf(xs, f)
  {
    forall e | e in f(xs[k]) ensures e in UnionOf(xs, f) {
      UnionOfIff(xs, f, e);
    }
  }

  /** Extending the items by one adds that item's contribution. */
  lemma UnionOfSnoc(xs: seq<string>, x: string, f: string -> set<string>)
    ensures UnionOf(xs + [x], f) == UnionOf(xs, f) + f(x)
  {
    assert (xs + [x])[..|xs|] == xs;
  }

  /** One step of a loop that accumulates the union on top of `before`. */
  lemma UnionStep(xs: seq<string>, j: nat, f: string -> set<string>, before: set<string>, scanned: set<string>, after: set<string>)
    requires j < |xs| && scanned == before + UnionOf(xs[..j], f)
    requires after == scanned + f(xs[j])
    ensures after == before + UnionOf(xs[..j + 1], f)
  {
    assert xs[..j + 1] == xs[..j] + [xs[j]];
    UnionOfSnoc(xs[..j], xs[j], f);
  }
}
