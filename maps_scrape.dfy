/**
 * The Google Maps stage: the input given to the Apify actor and the loop that
 * turns each dataset item into a business record. The actor call itself is not
 * modelled; its dataset items are the input of the transform.
 */
module MapsScrape {
  import opened Values

  /** The `run_input` dict sent to the actor for `query` and `limit`. */
  function RunInput(query: string, limit: int): (r: Record)
    ensures r.Keys == {"searchStringsArray", "maxCrawledPlacesPerSearch", "language", "includeWebResults",
                       "maxImages", "maxReviews", "scrapeContacts", "scrapeDirectories"}
    ensures r["searchStringsArray"] == List([Str(query)])
    ensures r["maxCrawledPlacesPerSearch"] == Int(limit)
    ensures r["scrapeContacts"] == Bool(true) && r["includeWebResults"] == Bool(false) && r["scrapeDirectories"] == Bool(false)
    ensures r["maxImages"] == Int(0) && r["maxReviews"] == Int(0) && r["language"] == Str("en")
  {
    map[
      "searchStringsArray" := List([Str(query)]),
      "maxCrawledPlacesPerSearch" := Int(limit),
      "language" := Str("en"),
      "includeWebResults" := Bool(false),
      "maxImages" := Int(0),
      "maxReviews" := Int(0),
      "scrapeContacts" := Bool(true),
      "scrapeDirectories" := Bool(false)
    ]
  }

  /** Only the query and the limit vary between two runs of the actor. */
  lemma RunInputsDiffer(q1: string, l1: int, q2: string, l2: int)
    ensures forall key :: key in RunInput(q1, l1) && key != "searchStringsArray" && key != "maxCrawledPlacesPerSearch" ==>
      RunInput(q1, l1)[key] == RunInput(q2, l2)[key]
    ensures RunInput(q1, l1) == RunInput(q2, l2) <==> q1 == q2 && l1 == l2
  {
    if RunInput(q1, l1) == RunInput(q2, l2) {
      assert RunInput(q1, l1)["searchStringsArray"] == RunInput(q2, l2)["searchStringsArray"];
      assert List([Str(q1)]).items[0] == Str(q1);
      assert RunInput(q1, l1)["maxCrawledPlacesPerSearch"] == RunInput(q2, l2)["maxCrawledPlacesPerSearch"];
    }
  }

  /** Python's `v[0]` on a truthy value: the first element of a list, the first
      character of a text, a `KeyError` on a dict (JSON keys are text, never `0`)
      and a `TypeError` on a number or a boolean. */
  function First(v: Value): (r: Result<Value, Fault>)
    requires Truthy(v)
    ensures v.List? ==> r == Ok(v.items[0])
    ensures v.Str? ==> r == Ok(Str(v.s[..1]))
    ensures r.Err? <==> !v.List? && !v.Str?
  {
    match v
    case List(items) => Ok(items[0])
    case Str(s) => Ok(Str(s[..1]))
    case Obj(_) => Err(MissingKey("0"))
    case Null => Err(NotSubscriptable(TypeName(v)))
    case Bool(_) => Err(NotSubscriptable(TypeName(v)))
    case Int(_) => Err(NotSubscriptable(TypeName(v)))
    case Real(_) => Err(NotSubscriptable(TypeName(v)))
  }

  /** The six fields every business record takes from its item. */
  function BaseFields(item: Record): (b: Record)
    ensures b.Keys == {"name", "address", "phone", "website", "rating", "review_count"}
    ensures b["name"] == Get(item, "title", Str("")) && b["rating"] == Get(item, "totalScore", Str(""))
    ensures b["address"] == Get(item, "address", Str("")) && b["phone"] == Get(item, "phone", Str(""))
    ensures b["website"] == Get(item, "website", Str("")) && b["review_count"] == Get(item, "reviewsCount", Int(0))
  {
    map[
      "name" := Get(item, "title", Str("")),
      "address" := Get(item, "address", Str("")),
      "phone" := Get(item, "phone", Str("")),
      "website" := Get(item, "website", Str("")),
      "rating" := Get(item, "totalScore", Str("")),
      "review_count" := Get(item, "reviewsCount", Int(0))
    ]
  }

  /** The business record of one item, or the exception `emails[0]` raises. */
  function Business(item: Record): (r: Result<Record, Fault>)
    ensures r.Ok? ==> forall key :: key in BaseFields(item) ==> key in r.value && r.value[key] == BaseFields(item)[key]
    ensures r.Ok? ==> ("email" in r.value <==> Truthy(Get(item, "emails", List([]))))
    ensures r.Ok? ==> ("all_emails" in r.value <==> Truthy(Get(item, "emails", List([]))))
    ensures r.Ok? ==> r.value.Keys <= BaseFields(item).Keys + {"email", "all_emails"}
    ensures var emails := Get(item, "emails", List([]));
      r.Ok? && emails.List? && emails.items != [] ==>
        r.value["email"] == emails.items[0] && r.value["all_emails"] == emails
    ensures r.Err? <==> var emails := Get(item, "emails", List([])); Truthy(emails) && !emails.List? && !emails.Str?
  {
    var business := BaseFields(item);
    var emails := Get(item, "emails", List([]));
    if Truthy(emails) then
      match First(emails)
      case Err(e) => Err(e)
      case Ok(first) => Ok(business["email" := first]["all_emails" := emails])
    else Ok(business)
  }

  /** The kept records of `items`, in order, or the first exception. */
  function Transform(items: seq<Record>): (r: Result<seq<Record>, Fault>)
    ensures r.Ok? ==> |r.value| <= |items|
  {
    if items == [] then Ok([])
    else match Transform(items[..|items| - 1])
      case Err(e) => Err(e)
      case Ok(front) =>
        match Business(items[|items| - 1])
        case Err(e) => Err(e)
        case Ok(b) => if Truthy(Get(b, "name", Null)) then Ok(front + [b]) else Ok(front)
  }

  /** The transform loop of `scrape_google_maps` over the dataset items. */
  method TransformItems(items: seq<Record>) returns (r: Result<seq<Record>, Fault>)
    ensures r == Transform(items)
  {
    var results: seq<Record> := [];
    for k := 0 to |items|
      invariant Transform(items[..k]) == Ok(results)
    {
      var item := items[k];
      var business := BaseFields(item);
      var emails := Get(item, "emails", List([]));
      if Truthy(emails) {
        var first := First(emails);
        if first.Err? {
          assert items[..k + 1][..k] == items[..k];
          FaultPersists(items, k + 1);
          return Err(first.error);
        }
        business := business["email" := first.value]["all_emails" := emails];
      }
      if Truthy(Get(business, "name", Null)) {
        results := results + [business];
      }
      assert items[..k + 1][..k] == items[..k];
    }
    assert items[..|items|] == items;
    r := Ok(results);
  }

  /** Once an item raises, the transform of every longer run of items raises the same. */
  lemma {:induction false} FaultPersists(items: seq<Record>, n: nat)
    requires n <= |items| && Transform(items[..n]).Err?
    ensures Transform(items) == Transform(items[..n])
    decreases |items|
  {
    if n < |items| {
      var front := items[..|items| - 1];
      assert front[..n] == items[..n];
      FaultPersists(front, n);
    } else {
      assert items[..n] == items;
    }
  }

  /** An item is kept exactly when its title is truthy. */
  predicate Named(item: Record)
  {
    Truthy(Get(item, "title", Str("")))
  }

  /** The indices of the named items, in increasing order. */
  function NamedIndices(items: seq<Record>): (idx: seq<nat>)
    ensures forall j :: 0 <= j < |idx| ==> idx[j] < |items| && Named(items[idx[j]])
    ensures forall j, m :: 0 <= j < m < |idx| ==> idx[j] < idx[m]
    ensures forall k :: 0 <= k < |items| && Named(items[k]) ==> k in idx
  {
    if items == [] then []
    else
      var front := items[..|items| - 1];
      var idx := NamedIndices(front);
      assert forall j :: 0 <= j < |idx| ==> items[idx[j]] == front[idx[j]];
      if Named(items[|items| - 1]) then idx + [|items| - 1] else idx
  }

  /** The transform keeps the named items, in input order: the `j`-th record is the
      business of the `j`-th named item. */
  lemma {:induction false} TransformKeepsNamed(items: seq<Record>)
    requires Transform(items).Ok?
    ensures |Transform(items).value| == |NamedIndices(items)|
    ensures forall j :: 0 <= j < |NamedIndices(items)| ==>
      Business(items[NamedIndices(items)[j]]) == Ok(Transform(items).value[j])
  {
    if items != [] {
      var front := items[..|items| - 1];
      var last := items[|items| - 1];
      TransformKeepsNamed(front);
      var fr := Transform(front).value;
      var fi := NamedIndices(front);
      var b := Business(last).value;
      assert Get(b, "name", Null) == Get(last, "title", Str(""));
      var r := Transform(items).value;
      var idx := NamedIndices(items);
      if Named(last) {
        assert idx == fi + [|items| - 1] && r == fr + [b];
      } else {
        assert idx == fi && r == fr;
      }
      forall j | 0 <= j < |fi| ensures Business(items[idx[j]]) == Ok(r[j]) {
        assert idx[j] == fi[j] && r[j] == fr[j];
        assert items[fi[j]] == front[fi[j]];
      }
    }
  }

  /** Every record the transform returns has a truthy name. */
  lemma {:induction false} TransformNamed(items: seq<Record>)
    requires Transform(items).Ok?
    ensures forall j :: 0 <= j < |Transform(items).value| ==> Truthy(Get(Transform(items).value[j], "name", Null))
  {
    if items != [] {
      TransformNamed(items[..|items| - 1]);
    }
  }

  /** The transform raises only when some item's `emails` is truthy but neither a
      list nor a text, and it then raises the exception of the first such item. */
  lemma {:induction false} TransformFault(items: seq<Record>)
    requires Transform(items).Err?
    ensures
      exists k :: 0 <= k < |items| && Business(items[k]).Err? && Transform(items).error == Business(items[k]).error
        && (forall m :: 0 <= m < k ==> Business(items[m]).Ok?)
  {
    var front := items[..|items| - 1];
    forall k | 0 <= k < |front| ensures front[k] == items[k] {
    }
    if Transform(front).Err? {
      TransformFault(front);
      var k :| 0 <= k < |front| && Business(front[k]).Err? && Transform(front).error == Business(front[k]).error
        && (forall m :: 0 <= m < k ==> Business(front[m]).Ok?);
      assert Business(items[k]).Err?;
    } else {
      TransformSucceeds(front);
      assert forall m :: 0 <= m < |items| - 1 ==> Business(items[m]).Ok?;
    }
  }

  /** When no item raises, neither does the transform. */
  lemma {:induction false} TransformSucceeds(items: seq<Record>)
    ensures (forall k :: 0 <= k < |items| ==> Business(items[k]).Ok?) <==> Transform(items).Ok?
  {
    if items != [] {
      var front := items[..|items| - 1];
      forall k | 0 <= k < |front| ensures front[k] == items[k] {
      }
      TransformSucceeds(front);
      TransformStep(items);
      assert (forall k :: 0 <= k < |items| ==> Business(items[k]).Ok?) <==>
        (forall k :: 0 <= k < |front| ==> Business(front[k]).Ok?) && Business(items[|items| - 1]).Ok?;
    }
  }

  /** One more item: the transform succeeds iff it did on the front and the item does not raise. */
  lemma TransformStep(items: seq<Record>)
    requires items != []
    ensures Transform(items).Ok? <==> Transform(items[..|items| - 1]).Ok? && Business(items[|items| - 1]).Ok?
  {
  }
}
