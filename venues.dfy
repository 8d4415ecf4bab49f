/**
 * The party-venue finder: from the links on a search results page it keeps the
 * listing links, visits them in set order until 15 venues are collected, filters
 * each listing on its title, pool, distance and location, sorts the venues by
 * distance and writes them to the first worksheet.
 *
 * The browser is a `Browser` value: `pages(link)` is the visited listing, or
 * `None` when opening it raises; `distance(lat, lon)` is the haversine distance in
 * miles from the fixed origin of `float(lat), float(lon)`, or `None` when a
 * `float(...)` raises; `render(v)` is Python's `str(v)` for a value that is
 * neither text nor the empty list.
 */
module Venues {
  import opened Values
  import opened Text
  import opened Pool
  import opened Worksheets

  /** A visited listing page: `title()`, `content()`, `window.__NEXT_DATA__` (`None`
      when the evaluation raises) and the first price text (`None` when the
      locator raises). */
  datatype Page = Page(title: string, content: string, nextData: Option<Value>, price: Option<string>)

  datatype Browser = Browser(
    pages: string -> Option<Page>,
    distance: (Value, Value) -> Option<real>,
    render: Value -> string)

  /** A collected venue; the other fields of its dict are fixed texts or derived from these. */
  datatype Venue = Venue(name: string, website: string, distance: real, price: string, hasPool: bool, alcohol: bool)

  /** Why a listing was skipped. */
  datatype Reason = NegativeTitle | PoolTable | NoPool | TooFar

  /** What one pass of the listing loop does with a link: skip it, swallow an
      exception (the venue is dropped) or keep a venue. */
  datatype Outcome = Rejected(reason: Reason) | Failed | Kept(venue: Venue)

  const MaxVenues: nat := 15
  const MaxDistance: real := 15.0
  /** The distance a venue gets when its coordinates are missing. */
  const NoDistance: real := 999.0

  const NegativeKeywords: seq<string> :=
    ["studio", "soundstage", " cyc ", "cyclorama", "set", "warehouse", "basement", "standing set",
     "production", "church", "gallery", "office"]

  // ---------------------------------------------------------------- links

  predicate IsListingLink(href: string)
  {
    Contains(href, "/listing/") || Contains(href, "/l/")
  }

  /** The `unique_links` loop over every `href` of the results page. */
  method SelectListingLinks(hrefs: seq<string>) returns (links: set<string>)
    ensures forall h :: h in links <==> h in hrefs && IsListingLink(h)
    ensures |links| <= |hrefs|
  {
    links := {};
    for k := 0 to |hrefs|
      invariant forall h :: h in links <==> h in hrefs[..k] && IsListingLink(h)
      invariant |links| <= k
    {
      var href := hrefs[k];
      assert hrefs[..k + 1] == hrefs[..k] + [href];
      if IsListingLink(href) {
        links := links + {href};
      }
    }
    assert hrefs[..|hrefs|] == hrefs;
  }

  // ---------------------------------------------------------------- one listing

  /** `title().split("|")[0].strip()`. */
  function VenueName(title: string): (name: string)
    ensures |name| <= |title|
    ensures !HasChar(title, '|') ==> name == Strip(title)
  {
    BeforeFirstAbsentStrip(title);
    Strip(BeforeFirst(title, '|'))
  }

  lemma BeforeFirstAbsentStrip(title: string)
    ensures !HasChar(title, '|') ==> BeforeFirst(title, '|') == title
  {
    if !HasChar(title, '|') {
      BeforeFirstAbsent(title, '|');
    }
  }

  /** The title test: some negative keyword occurs in the lower-cased name. */
  predicate HasNegativeKeyword(name: string)
  {
    exists k :: 0 <= k < |NegativeKeywords| && Contains(Lower(name), NegativeKeywords[k])
  }

  /** `listing_data`, `lat` and `lon` after the `__NEXT_DATA__` block: the
      `props.pageProps.listing` value when every step reads a dict (a step on a
      non-dict raises and the block keeps `{}`), and the coordinates when that
      value is itself a dict. */
  datatype Listing = Listing(data: Value, lat: Value, lon: Value)

  function Step(v: Value, key: string): Option<Value>
  {
    if v.Obj? then Some(Get(v.fields, key, Obj(map[]))) else None
  }

  function ListingOf(nextData: Option<Value>): (l: Listing)
    ensures !l.data.Obj? ==> l.lat == Null && l.lon == Null
    ensures l.data.Obj? ==> l.lat == Get(l.data.fields, "latitude", Null) && l.lon == Get(l.data.fields, "longitude", Null)
    ensures nextData.None? || (nextData.Some? && !nextData.value.Obj?) ==> l == Listing(Obj(map[]), Null, Null)
  {
    var empty := Listing(Obj(map[]), Null, Null);
    match nextData
    case None => empty
    case Some(nd) =>
      if !Truthy(nd) then empty
      else match Step(nd, "props")
        case None => empty
        case Some(props) =>
          match Step(props, "pageProps")
          case None => empty
          case Some(pageProps) =>
            match Step(pageProps, "listing")
            case None => empty
            case Some(data) =>
              if data.Obj? then Listing(data, Get(data.fields, "latitude", Null), Get(data.fields, "longitude", Null))
              else Listing(data, Null, Null)
  }

  /** `str(v)`: a text is itself and the empty list, the default of a missing
      `amenities` or `rules` key, is `[]`; other values go to `render`. */
  function PyStr(v: Value, render: Value -> string): (r: string)
    ensures v.Str? ==> r == v.s
    ensures v == List([]) ==> r == "[]"
  {
    if v.Str? then v.s else if v == List([]) then "[]" else render(v)
  }

  /** `has_pool` after the page-text test and the amenities override. */
  predicate HasPool(content: string, amenities: string)
  {
    || Contains(content, "pool") || Contains(content, "jacuzzi") || Contains(content, "swim")
    || Contains(amenities, "pool") || Contains(amenities, "swimming pool")
  }

  /** The pool-table rule: a pool that only the text mentions, next to `pool table`,
      with no `swimming` and no outdoor word on the page. */
  predicate PoolTableSkip(hasPool: bool, content: string, amenities: string)
  {
    && hasPool && Contains(content, "pool table") && !Contains(content, "swimming") && !Contains(amenities, "pool")
    && !(|| Contains(content, "backyard") || Contains(content, "outdoor") || Contains(content, "swim")
         || Contains(content, "heated") || Contains(content, "jacuzzi"))
  }

  /** `distance_mi`: the distance of the coordinates when both are truthy, else 999. */
  function VenueDistance(l: Listing, distance: (Value, Value) -> Option<real>): (d: Option<real>)
    ensures !(Truthy(l.lat) && Truthy(l.lon)) ==> d == Some(NoDistance)
    ensures Truthy(l.lat) && Truthy(l.lon) ==> d == distance(l.lat, l.lon)
  {
    if Truthy(l.lat) && Truthy(l.lon) then distance(l.lat, l.lon) else Some(NoDistance)
  }

  predicate InLosAngeles(content: string)
  {
    Contains(content, "los angeles") || Contains(content, "beverly hills") || Contains(content, "hollywood")
  }

  predicate MentionsAlcohol(rules: string, description: string)
  {
    Contains(rules, "alcohol") || Contains(description, "alcohol")
  }

  /** The lower-cased page text, amenities, rules and description of a listing whose
      data is a dict. */
  function Amenities(data: map<string, Value>, render: Value -> string): string
  {
    Lower(PyStr(Get(data, "amenities", List([])), render))
  }

  function Rules(data: map<string, Value>, render: Value -> string): string
  {
    Lower(PyStr(Get(data, "rules", List([])), render))
  }

  function Description(data: map<string, Value>, render: Value -> string): string
  {
    Lower(PyStr(Get(data, "description", Str("")), render))
  }

  /** A listing without `amenities` renders the default `[]`, so only the page text
      can give it a pool, and no `rules` key means no alcohol mention from the rules. */
  lemma MissingAmenities(data: map<string, Value>, render: Value -> string, content: string)
    requires "amenities" !in data && "rules" !in data
    ensures Amenities(data, render) == "[]" && Rules(data, render) == "[]"
    ensures HasPool(content, Amenities(data, render)) <==>
      Contains(content, "pool") || Contains(content, "jacuzzi") || Contains(content, "swim")
  {
    assert Lower("[]") == "[]";
    assert !Contains("[]", "pool") && !Contains("[]", "swimming pool");
  }

  /** The filters after the title test, on a listing whose data is a dict. */
  function Screen(link: string, name: string, page: Page, l: Listing, b: Browser): (r: Outcome)
    requires l.data.Obj?
    ensures r != Rejected(NegativeTitle)
    ensures r == Rejected(PoolTable) <==>
      PoolTableSkip(HasPool(Lower(page.content), Amenities(l.data.fields, b.render)), Lower(page.content), Amenities(l.data.fields, b.render))
    ensures r == Rejected(NoPool) <==> !HasPool(Lower(page.content), Amenities(l.data.fields, b.render))
    ensures r == Rejected(TooFar) <==>
      && HasPool(Lower(page.content), Amenities(l.data.fields, b.render))
      && !PoolTableSkip(true, Lower(page.content), Amenities(l.data.fields, b.render))
      && VenueDistance(l, b.distance).Some? && VenueDistance(l, b.distance).value > MaxDistance
      && !InLosAngeles(Lower(page.content))
    ensures r.Kept? ==>
      && r.venue == Venue(name, link, r.venue.distance, r.venue.price, true, r.venue.alcohol)
      && HasPool(Lower(page.content), Amenities(l.data.fields, b.render))
      && VenueDistance(l, b.distance) == Some(r.venue.distance)
      && (r.venue.distance <= MaxDistance || InLosAngeles(Lower(page.content)))
      && (r.venue.alcohol <==> MentionsAlcohol(Rules(l.data.fields, b.render), Description(l.data.fields, b.render)))
      && (r.venue.price == if page.price.Some? then page.price.value else "N/A")
  {
    var content := Lower(page.content);
    var amenities := Amenities(l.data.fields, b.render);
    var hasPool := HasPool(content, amenities);
    if PoolTableSkip(hasPool, content, amenities) then Rejected(PoolTable)
    else if !hasPool then Rejected(NoPool)
    else match VenueDistance(l, b.distance)
      case None => Failed
      case Some(d) =>
        if d > MaxDistance && !InLosAngeles(content) then Rejected(TooFar)
        else
          var price := if page.price.Some? then page.price.value else "N/A";
          Kept(Venue(name, link, d, price, true, MentionsAlcohol(Rules(l.data.fields, b.render), Description(l.data.fields, b.render))))
  }

  /** The body of the `try` block for one link: the title test, then `listing_data.get`
      (which raises on a non-dict), then the remaining filters. */
  function Examine(link: string, page: Page, b: Browser): (r: Outcome)
    ensures r == Rejected(NegativeTitle) <==> HasNegativeKeyword(VenueName(page.title))
    ensures !HasNegativeKeyword(VenueName(page.title)) && !ListingOf(page.nextData).data.Obj? ==> r == Failed
    ensures r.Kept? ==> r.venue.name == VenueName(page.title) && ListingOf(page.nextData).data.Obj?
  {
    var name := VenueName(page.title);
    var l := ListingOf(page.nextData);
    if HasNegativeKeyword(name) then Rejected(NegativeTitle)
    else if !l.data.Obj? then Failed
    else Screen(link, name, page, l, b)
  }

  /** One pass of the listing loop. */
  function Check(link: string, b: Browser): Outcome
  {
    match b.pages(link)
    case None => Failed
    case Some(page) => Examine(link, page, b)
  }

  /** The amenities test `"swimming pool" in amenities` adds nothing to `"pool" in amenities`:
      a listing has a pool exactly when its page mentions `pool`, `jacuzzi` or `swim`
      or its amenities mention `pool`. */
  lemma HasPoolIff(content: string, amenities: string)
    ensures HasPool(content, amenities) <==>
      Contains(content, "pool") || Contains(content, "jacuzzi") || Contains(content, "swim") || Contains(amenities, "pool")
  {
    if Contains(amenities, "swimming pool") {
      var i :| 0 <= i <= |amenities| - |"swimming pool"| && OccursAt(amenities, "swimming pool", i);
      forall j | 0 <= j < 4 ensures amenities[i + 9 + j] == "pool"[j] {
        assert amenities[i + 9 + j] == "swimming pool"[9 + j];
      }
      assert amenities[i + 9..i + 13] == "pool";
      assert OccursAt(amenities, "pool", i + 9);
    }
  }

  /** A listing the pool-table rule skips has no confirmed pool in its amenities, and
      a page that mentions `swim`, an outdoor word or `swimming` is never skipped by it. */
  lemma PoolTableNeedsIndoorText(content: string, amenities: string)
    requires PoolTableSkip(HasPool(content, amenities), content, amenities)
    ensures Contains(content, "pool") && !Contains(amenities, "pool")
  {
    var i :| 0 <= i <= |content| - |"pool table"| && OccursAt(content, "pool table", i);
    assert content[i..i + 4] == "pool table"[..4] == "pool";
    assert OccursAt(content, "pool", i);
  }

  /** Every venue the loop keeps was opened, passed the title, pool and pool-table
      tests, and lies within 15 miles or on a page that names Los Angeles, Beverly
      Hills or Hollywood; it records a pool, its own link and the alcohol test. */
  lemma KeptVenue(link: string, b: Browser)
    requires Check(link, b).Kept?
    ensures b.pages(link).Some?
    ensures var page := b.pages(link).value;
      var l := ListingOf(page.nextData);
      var v := Check(link, b).venue;
      && l.data.Obj?
      && v.name == VenueName(page.title) && !HasNegativeKeyword(v.name)
      && v.website == link && v.hasPool
      && HasPool(Lower(page.content), Amenities(l.data.fields, b.render))
      && !PoolTableSkip(true, Lower(page.content), Amenities(l.data.fields, b.render))
      && VenueDistance(l, b.distance) == Some(v.distance)
      && (v.distance <= MaxDistance || InLosAngeles(Lower(page.content)))
      && (v.alcohol <==> MentionsAlcohol(Rules(l.data.fields, b.render), Description(l.data.fields, b.render)))
  {
    var page := b.pages(link).value;
    var l := ListingOf(page.nextData);
    assert Check(link, b) == Screen(link, VenueName(page.title), page, l, b);
  }

  // ---------------------------------------------------------------- the listing loop

  /** The loop body as a function of the link: one pass of the `try` block with the
      browser `b`. The loop and its lemmas take the body as a parameter `check`, so
      that they reason about visiting order and the cap without the filters. */
  function CheckWith(b: Browser): string -> Outcome
  {
    link => Check(link, b)
  }

  /** The venue one outcome contributes: none, or the one it keeps. */
  function KeptOf(o: Outcome): (r: seq<Venue>)
    ensures |r| <= 1
    ensures r != [] <==> o.Kept?
    ensures r != [] ==> r[0] == o.venue
  {
    if o.Kept? then [o.venue] else []
  }

  /** The venues kept from `links`, in visiting order, before the cap. */
  function Visited(links: seq<string>, check: string -> Outcome): (vs: seq<Venue>)
    ensures |vs| <= |links|
  {
    if links == [] then [] else Visited(links[..|links| - 1], check) + KeptOf(check(links[|links| - 1]))
  }

  /** The venues the listing pages of `links` keep, in visiting order, before the cap. */
  function Accepted(links: seq<string>, b: Browser): (vs: seq<Venue>)
    ensures |vs| <= |links|
    ensures forall i :: 0 <= i < |vs| ==> vs[i].hasPool
  {
    var vs := Visited(links, CheckWith(b));
    forall i | 0 <= i < |vs| ensures vs[i].hasPool {
      VisitedFrom(links, CheckWith(b), vs[i]);
      var k :| 0 <= k < |links| && CheckWith(b)(links[k]) == Kept(vs[i]);
      KeptHasPool(links[k], b);
    }
    vs
  }

  lemma KeptHasPool(link: string, b: Browser)
    requires Check(link, b).Kept?
    ensures Check(link, b).venue.hasPool
  {
    KeptVenue(link, b);
  }

  lemma VisitedStep(links: seq<string>, k: nat, check: string -> Outcome)
    requires k < |links|
    ensures Visited(links[..k + 1], check) == Visited(links[..k], check) + KeptOf(check(links[k]))
  {
    assert links[..k + 1][..k] == links[..k];
  }

  /** Visiting more links only adds venues at the end. */
  lemma {:induction false} VisitedPrefix(links: seq<string>, n: nat, check: string -> Outcome)
    requires n <= |links|
    ensures Visited(links[..n], check) <= Visited(links, check)
    decreases |links|
  {
    if n < |links| {
      var front := links[..|links| - 1];
      assert front[..n] == links[..n];
      VisitedPrefix(front, n, check);
    } else {
      assert links[..n] == links;
    }
  }

  /** Every venue kept from `links` is the venue that the body kept for some link of `links`. */
  lemma {:induction false} VisitedFrom(links: seq<string>, check: string -> Outcome, v: Venue)
    requires v in Visited(links, check)
    ensures exists k :: 0 <= k < |links| && check(links[k]) == Kept(v)
  {
    var front := links[..|links| - 1];
    if v in Visited(front, check) {
      VisitedFrom(front, check, v);
      var k :| 0 <= k < |front| && check(front[k]) == Kept(v);
      assert links[k] == front[k];
    } else {
      assert check(links[|links| - 1]) == Kept(v);
    }
  }

  /** The first `MaxVenues` of `vs`. */
  function Capped(vs: seq<Venue>): (r: seq<Venue>)
    ensures r <= vs
    ensures |r| == if |vs| <= MaxVenues then |vs| else MaxVenues
  {
    if |vs| <= MaxVenues then vs else vs[..MaxVenues]
  }

  lemma CappedAtPrefix(front: seq<Venue>, all: seq<Venue>)
    requires front <= all && |front| == MaxVenues
    ensures Capped(all) == front
  {
  }

  /** The body of the loop for the `k`-th link below the limit: a kept listing is
      appended and counted; a page that failed or was rejected adds nothing. */
  method VisitLink(order: seq<string>, k: nat, before: seq<Venue>, count: nat, check: string -> Outcome)
    returns (venues: seq<Venue>, newCount: nat)
    requires k < |order| && before == Visited(order[..k], check) && count == |before|
    ensures venues == Visited(order[..k + 1], check)
    ensures newCount == |venues| <= count + 1
  {
    venues, newCount := before, count;
    var outcome := check(order[k]);
    if outcome.Kept? {
      venues := venues + [outcome.venue];
      newCount := newCount + 1;
    }
    VisitedStep(order, k, check);
  }

  /** The `for link in unique_links` loop, visiting the links in the order `order`;
      `count` is the number of venues appended so far. */
  method CollectVenues(links: set<string>, order: seq<string>, b: Browser) returns (venues: seq<Venue>)
    requires IsEnumeration(order, links)
    ensures venues == Capped(Accepted(order, b))
  {
    venues := VisitInOrder(order, CheckWith(b));
  }

  /** The loop itself, which visits the links of any sequence in turn until it has
      `MaxVenues` venues. */
  method VisitInOrder(order: seq<string>, check: string -> Outcome) returns (venues: seq<Venue>)
    ensures venues == Capped(Visited(order, check))
  {
    venues := [];
    var count := 0;
    var k := 0;
    while k < |order|
      invariant 0 <= k <= |order|
      invariant venues == Visited(order[..k], check)
      invariant count == |venues| <= MaxVenues
    {
      if count >= MaxVenues {
        CapReached(order, k, check, venues);
        return;
      }
      venues, count := VisitLink(order, k, venues, count, check);
      k := k + 1;
    }
    SliceAll(order);
  }

  /** Once the limit is reached, the venues so far are the capped venues of all links. */
  lemma CapReached(order: seq<string>, k: nat, check: string -> Outcome, venues: seq<Venue>)
    requires k <= |order|
    requires venues == Visited(order[..k], check) && |venues| == MaxVenues
    ensures venues == Capped(Visited(order, check))
  {
    VisitedPrefix(order, k, check);
    CappedAtPrefix(venues, Visited(order, check));
  }

  // ---------------------------------------------------------------- sorting

  predicate SortedByDistance(vs: seq<Venue>)
  {
    forall i, j :: 0 <= i < j < |vs| ==> vs[i].distance <= vs[j].distance
  }

  /** `x` placed after every venue of `vs` that is not farther than it. */
  function Insert(vs: seq<Venue>, x: Venue): (r: seq<Venue>)
    ensures multiset(r) == multiset(vs) + multiset{x}
    ensures SortedByDistance(vs) ==> SortedByDistance(r)
  {
    if vs == [] then [x]
    else if x.distance < vs[0].distance then [x] + vs
    else
      var rest := Insert(vs[1..], x);
      assert vs == [vs[0]] + vs[1..];
      InsertHead(vs, x, rest);
      [vs[0]] + rest
  }

  lemma InsertHead(vs: seq<Venue>, x: Venue, rest: seq<Venue>)
    requires vs != [] && vs[0].distance <= x.distance
    requires multiset(rest) == multiset(vs[1..]) + multiset{x}
    requires SortedByDistance(vs) ==> SortedByDistance(rest)
    ensures SortedByDistance(vs) ==> SortedByDistance([vs[0]] + rest)
  {
    if SortedByDistance(vs) {
      forall j | 0 <= j < |rest| ensures vs[0].distance <= rest[j].distance {
        assert rest[j] in multiset(rest);
        if rest[j] != x {
          assert rest[j] in multiset(vs[1..]);
          var m :| 0 <= m < |vs[1..]| && vs[1..][m] == rest[j];
          assert vs[m + 1] == rest[j];
        }
      }
    }
  }

  /** `venues_found.sort(key=lambda x: x['distance'])`. */
  function SortByDistance(vs: seq<Venue>): (r: seq<Venue>)
    ensures SortedByDistance(r)
    ensures multiset(r) == multiset(vs)
  {
    if vs == [] then []
    else
      assert vs == vs[..|vs| - 1] + [vs[|vs| - 1]];
      Insert(SortByDistance(vs[..|vs| - 1]), vs[|vs| - 1])
  }

  /** The sort keeps each venue's own fields: it only reorders whole venues. */
  lemma SortKeepsVenues(vs: seq<Venue>, v: Venue)
    ensures v in SortByDistance(vs) <==> v in vs
    ensures |SortByDistance(vs)| == |vs|
  {
    assert v in multiset(SortByDistance(vs)) <==> v in multiset(vs);
    assert |multiset(SortByDistance(vs))| == |multiset(vs)|;
  }

  /** The venues of `vs` at distance `d`, in their order in `vs`. */
  function AtDistance(vs: seq<Venue>, d: real): (r: seq<Venue>)
    ensures |r| <= |vs|
  {
    if vs == [] then []
    else (if vs[0].distance == d then [vs[0]] else []) + AtDistance(vs[1..], d)
  }

  lemma {:induction false} AtDistanceConcat(a: seq<Venue>, b: seq<Venue>, d: real)
    ensures AtDistance(a + b, d) == AtDistance(a, d) + AtDistance(b, d)
  {
    if a == [] {
      assert a + b == b;
    } else {
      var head: seq<Venue> := if a[0].distance == d then [a[0]] else [];
      assert (a + b)[0] == a[0] && (a + b)[1..] == a[1..] + b;
      assert AtDistance(a + b, d) == head + AtDistance(a[1..] + b, d);
      AtDistanceConcat(a[1..], b, d);
      SeqAssoc(head, AtDistance(a[1..], d), AtDistance(b, d));
    }
  }

  /** No venue of a sorted sequence that starts beyond `d` is at distance `d`. */
  lemma {:induction false} AtDistanceBeyond(vs: seq<Venue>, d: real)
    requires SortedByDistance(vs) && vs != [] && d < vs[0].distance
    ensures AtDistance(vs, d) == []
  {
    if |vs| > 1 {
      AtDistanceBeyond(vs[1..], d);
    }
  }

  /** Inserting `x` into a sorted sequence puts it after the venues at its own
      distance and leaves the order among the others alone. */
  lemma {:induction false} InsertStable(vs: seq<Venue>, x: Venue, d: real)
    requires SortedByDistance(vs)
    ensures AtDistance(Insert(vs, x), d) == AtDistance(vs, d) + (if x.distance == d then [x] else [])
  {
    var own: seq<Venue> := if x.distance == d then [x] else [];
    if vs == [] {
      assert Insert(vs, x) == [x] && [x][1..] == [];
    } else if x.distance < vs[0].distance {
      assert Insert(vs, x) == [x] + vs;
      assert ([x] + vs)[1..] == vs;
      assert AtDistance([x] + vs, d) == own + AtDistance(vs, d);
      if x.distance == d {
        AtDistanceBeyond(vs, d);
        assert own + [] == [] + own;
      } else {
        assert [] + AtDistance(vs, d) == AtDistance(vs, d) + [];
      }
    } else {
      var head: seq<Venue> := if vs[0].distance == d then [vs[0]] else [];
      var rest := Insert(vs[1..], x);
      assert Insert(vs, x) == [vs[0]] + rest;
      assert SortedByDistance(vs[1..]);
      InsertStable(vs[1..], x, d);
      assert ([vs[0]] + rest)[1..] == rest;
      assert AtDistance([vs[0]] + rest, d) == head + AtDistance(rest, d);
      assert AtDistance(vs, d) == head + AtDistance(vs[1..], d);
      SeqAssoc(head, AtDistance(vs[1..], d), own);
    }
  }

  lemma SeqAssoc(a: seq<Venue>, b: seq<Venue>, c: seq<Venue>)
    ensures a + (b + c) == (a + b) + c
  {
  }

  /** The sort is stable, as Python's `list.sort` is: the venues at any one distance
      come out in the order they went in. */
  lemma {:induction false} SortStable(vs: seq<Venue>, d: real)
    ensures AtDistance(SortByDistance(vs), d) == AtDistance(vs, d)
  {
    if vs != [] {
      var init, last := vs[..|vs| - 1], vs[|vs| - 1];
      assert vs == init + [last];
      SortStable(init, d);
      StableStep(init, last, SortByDistance(init), d);
    }
  }

  /** One insertion step of the sort keeps the venues at distance `d` in input order. */
  lemma StableStep(init: seq<Venue>, last: Venue, sorted: seq<Venue>, d: real)
    requires SortedByDistance(sorted) && AtDistance(sorted, d) == AtDistance(init, d)
    ensures AtDistance(Insert(sorted, last), d) == AtDistance(init + [last], d)
  {
    InsertStable(sorted, last, d);
    assert [last][1..] == [];
    assert AtDistance([last], d) == (if last.distance == d then [last] else []);
    AtDistanceConcat(init, [last], d);
  }

  // ---------------------------------------------------------------- export

  /** The `address` text of a venue's dict. */
  function AddressText(v: Venue): string
  {
    "Pool: YES (Verified), Alcohol: " + (if v.alcohol then "Yes" else "?")
  }

  const VenueHeaders: seq<Value> :=
    [Str("Name"), Str("Link"), Str("Distance (mi)"), Str("Price"), Str("Amenities"), Str("Availability"), Str("Smoking Policy")]

  /** The row `push_venues` writes for a venue. Its amenities cell reads `Yes` back
      out of the address text; `email` is `Check Link` and `review_count` is
      `Unknown` for every venue. */
  function VenueRow(v: Venue): (row: seq<Value>)
    ensures |row| == |VenueHeaders| && NoNull(row)
  {
    var pool := if v.hasPool then "Yes" else "No";
    var alcohol := if Contains(AddressText(v), "Yes") then "Yes" else "?";
    [Str(v.name), Str(v.website), Real(v.distance), Str(v.price),
     Str("Pool: " + pool + ", Alcohol: " + alcohol), Str("Check Link"), Str("Unknown")]
  }

  /** The amenities cell says `Alcohol: Yes` exactly when the alcohol test passed: the
      upper-case `YES` of the address text is not the `Yes` the cell looks for. */
  lemma VenueRowAlcohol(v: Venue)
    ensures VenueRow(v)[4] == Str("Pool: " + (if v.hasPool then "Yes" else "No") + ", Alcohol: " + (if v.alcohol then "Yes" else "?"))
  {
    var a := AddressText(v);
    if v.alcohol {
      assert OccursAt(a, "Yes", |a| - 3);
    } else {
      assert !HasChar(a, 's') by {
        forall i | 0 <= i < |a| ensures a[i] != 's' {
        }
      }
      NotContainsByChar(a, "Yes", 2);
    }
  }

  function VenueRows(vs: seq<Venue>): (rows: Grid)
    ensures |rows| == |vs|
    ensures forall i :: 0 <= i < |vs| ==> rows[i] == VenueRow(vs[i])
  {
    if vs == [] then [] else VenueRows(vs[..|vs| - 1]) + [VenueRow(vs[|vs| - 1])]
  }

  /** `push_venues(venues, sheet_name)` on the first worksheet. */
  method PushVenues(ws: Worksheet, venues: seq<Venue>)
    modifies ws
    ensures ws.cells == [VenueHeaders] + VenueRows(venues)
  {
    ws.Clear();
    var rows := [VenueHeaders];
    for k := 0 to |venues|
      invariant rows == [VenueHeaders] + VenueRows(venues[..k])
    {
      rows := rows + [VenueRow(venues[k])];
      assert venues[..k + 1][..k] == venues[..k];
    }
    assert venues[..|venues|] == venues;
    ws.Update(1, rows);
    OverlayAppends([], rows);
    forall i | 0 <= i < |rows| ensures NoNull(rows[i]) {
      if i > 0 {
        assert rows[i] == VenueRow(venues[i - 1]);
      }
    }
    FillAllPlain(rows);
    assert [] + rows == rows;
  }

  /** `run()`: collect, sort by distance, and write the sheet when anything was found. */
  method Run(hrefs: seq<string>, order: seq<string>, b: Browser, ws: Worksheet) returns (venues: seq<Venue>)
    requires IsEnumeration(order, set h | h in hrefs && IsListingLink(h))
    modifies ws
    ensures venues == SortByDistance(Capped(Accepted(order, b)))
    ensures venues != [] ==> ws.cells == [VenueHeaders] + VenueRows(venues)
    ensures venues == [] ==> ws.cells == old(ws.cells)
  {
    var links := SelectListingLinks(hrefs);
    assert links == set h | h in hrefs && IsListingLink(h);
    venues := CollectVenues(links, order, b);
    venues := SortByDistance(venues);
    if venues != [] {
      PushVenues(ws, venues);
    }
  }

  /** Every venue kept from `links` is the venue some link of `links` kept. */
  lemma AcceptedFrom(links: seq<string>, b: Browser, v: Venue)
    requires v in Accepted(links, b)
    ensures exists k :: 0 <= k < |links| && Check(links[k], b) == Kept(v)
  {
    VisitedFrom(links, CheckWith(b), v);
    var k :| 0 <= k < |links| && CheckWith(b)(links[k]) == Kept(v);
  }

  /** What the finder reports: at most 15 venues, sorted by distance, each of them
      the venue that one of the visited links kept (so `KeptVenue` applies to it). */
  lemma RunResult(order: seq<string>, b: Browser, v: Venue)
    ensures |SortByDistance(Capped(Accepted(order, b)))| <= MaxVenues
    ensures SortedByDistance(SortByDistance(Capped(Accepted(order, b))))
    ensures v in SortByDistance(Capped(Accepted(order, b))) ==>
      exists k :: 0 <= k < |order| && Check(order[k], b) == Kept(v)
  {
    var capped := Capped(Accepted(order, b));
    SortKeepsVenues(capped, v);
    if v in capped {
      assert v in Accepted(order, b) by {
        var m :| 0 <= m < |capped| && capped[m] == v;
        assert Accepted(order, b)[m] == v;
      }
      AcceptedFrom(order, b, v);
    }
  }
}
