/**
 * The website crawler of the lead pipeline: from a lead's `website` it builds
 * the eleven-page crawl plan, fetches each page, decodes obfuscated addresses,
 * keeps pattern matches that are not known false positives, adds `mailto:`
 * link targets, and records the union on the lead.
 *
 * The network and the HTML parser are a `Web` value: `fetch(url)` is the
 * page body (`""` when the request fails), `links(body)` the `href` of every
 * `<a href>` of the body, or `None` when the parser raises.
 */
module Crawler {
  import opened Values
  import opened Text
  import opened Urls
  import opened AddressPattern
  import opened Pool
  import opened Unions

  datatype Web = Web(fetch: string -> string, links: string -> Option<seq<string>>)

  /** `CONTACT_PATHS`. */
  const ContactPaths: seq<string> :=
    ["/contact", "/contact-us", "/contactus", "/about", "/about-us", "/aboutus",
     "/team", "/our-team", "/staff", "/get-in-touch"]

  /** The six obfuscation passes of `extract_emails_from_html`, in their order. */
  function Decode(html: string): string
  {
    var a := ReplaceAll(html, "[at]", "@");
    var b := ReplaceAll(a, "[dot]", ".");
    var c := ReplaceAll(b, " at ", "@");
    var d := ReplaceAll(c, " dot ", ".");
    var e := ReplaceAll(d, "(at)", "@");
    ReplaceAll(e, "(dot)", ".")
  }

  /** The image, placeholder and system markers, in the order the source tests them. */
  const FalsePositiveMarkers: seq<string> :=
    [".png", ".jpg", ".gif", ".svg", "example.com", "email.com", "domain.com", "yoursite", "yourdomain",
     "wordpress", "woocommerce", "admin@localhost"]

  /** The lower-cased address contains one of the markers. */
  predicate IsFalsePositive(email: string)
  {
    exists k :: 0 <= k < |FalsePositiveMarkers| && Contains(Lower(email), FalsePositiveMarkers[k])
  }

  /** What `extract_emails_from_html(html)` returns. */
  function ExtractedAddresses(html: string): (r: set<string>)
    ensures forall e :: e in r ==> IsAddress(e) && Contains(Decode(html), e)
    ensures forall e :: e in r ==> forall k :: 0 <= k < |FalsePositiveMarkers| ==> !Contains(Lower(e), FalsePositiveMarkers[k])
    ensures var m := FindAll(Decode(html));
      forall k :: 0 <= k < |m| && !IsFalsePositive(m[k]) ==> m[k] in r
  {
    Kept(set e | e in FindAll(Decode(html)))
  }

  /** The candidates that are not false positives. */
  function Kept(emails: set<string>): set<string>
  {
    set e | e in emails && !IsFalsePositive(e)
  }

  /** Filtering one more candidate adds it exactly when it is not a false positive. */
  lemma KeptAdd(emails: set<string>, email: string)
    ensures Kept(emails + {email}) == if IsFalsePositive(email) then Kept(emails) else Kept(emails) + {email}
  {
  }

  /** `extract_emails_from_html`: decode, collect the matches, drop false positives. */
  method ExtractEmailsFromHtml(html: string) returns (filtered: set<string>)
    ensures filtered == ExtractedAddresses(html)
  {
    var decoded := Decode(html);
    var emails := set e | e in FindAll(decoded);
    filtered := {};
    var rest := emails;
    while rest != {}
      invariant rest <= emails
      invariant filtered == Kept(emails - rest)
      decreases |rest|
    {
      var email :| email in rest;
      assert emails - (rest - {email}) == (emails - rest) + {email};
      KeptAdd(emails - rest, email);
      if !IsFalsePositive(email) {
        filtered := filtered + {email};
      }
      rest := rest - {email};
    }
    assert emails - rest == emails;
  }

  /** No character of `s` starts one of the obfuscation patterns. */
  predicate Plain(s: string)
  {
    !HasChar(s, '[') && !HasChar(s, ' ') && !HasChar(s, '(')
  }

  lemma PlainConcat(a: string, b: string)
    requires Plain(a) && Plain(b)
    ensures Plain(a + b)
  {
    HasCharConcat(a, b, '[');
    HasCharConcat(a, b, ' ');
    HasCharConcat(a, b, '(');
  }

  lemma PlainParts(local: string, host: string, top: string)
    requires AllLocal(local) && AllDomain(host) && AllTop(top)
    ensures Plain(local) && Plain(host) && Plain(top)
  {
    forall i | 0 <= i < |local| ensures local[i] != '[' && local[i] != ' ' && local[i] != '(' {
      assert IsLocalChar(local[i]);
    }
    forall i | 0 <= i < |host| ensures host[i] != '[' && host[i] != ' ' && host[i] != '(' {
      assert IsDomainChar(host[i]);
    }
    forall i | 0 <= i < |top| ensures top[i] != '[' && top[i] != ' ' && top[i] != '(' {
      assert IsTopChar(top[i]);
    }
  }

  /** The four passes after the bracketed ones leave plain text untouched. */
  lemma LaterPassesKeep(html: string, plain: string)
    requires ReplaceAll(ReplaceAll(html, "[at]", "@"), "[dot]", ".") == plain
    requires Plain(plain)
    ensures Decode(html) == plain
  {
    ReplaceAllUntouched(plain, " at ", "@");
    ReplaceAllUntouched(plain, " dot ", ".");
    ReplaceAllUntouched(plain, "(at)", "@");
    ReplaceAllUntouched(plain, "(dot)", ".");
  }

  /** `[dot]` after `[at]` is not an `[at]`. */
  lemma AtPassSkipsDot(top: string)
    requires !HasChar(top, '[')
    ensures ReplaceAll("[dot]" + top, "[at]", "@") == "[dot]" + top
  {
    var dotted := "[dot]" + top;
    assert dotted[1] == 'd';
    assert !("[at]" <= dotted);
    assert dotted[1..] == "dot]" + top;
    assert !HasChar("dot]", '[');
    HasCharConcat("dot]", top, '[');
    ReplaceAllUntouched("dot]" + top, "[at]", "@");
    assert [dotted[0]] + ("dot]" + top) == dotted;
  }

  lemma AtPass(local: string, host: string, top: string)
    requires Plain(local) && Plain(host) && Plain(top)
    ensures ReplaceAll(local + "[at]" + host + "[dot]" + top, "[at]", "@") == local + "@" + host + "[dot]" + top
  {
    var rest := host + ("[dot]" + top);
    Regroup5(local, "[at]", host, "[dot]", top);
    ReplaceAllSkipsPrefix(local, "[at]" + rest, "[at]", "@");
    AtPassHost(host, top);
    Regroup5(local, "@", host, "[dot]", top);
  }

  /** The `[at]` pass on `[at]` host `[dot]` top replaces just the first marker. */
  lemma AtPassHost(host: string, top: string)
    requires Plain(host) && Plain(top)
    ensures ReplaceAll("[at]" + (host + ("[dot]" + top)), "[at]", "@") == "@" + (host + ("[dot]" + top))
  {
    var dotted := "[dot]" + top;
    ReplaceAllAtMatch(host + dotted, "[at]", "@");
    ReplaceAllSkipsPrefix(host, dotted, "[at]", "@");
    AtPassSkipsDot(top);
  }

  lemma DotPass(front: string, top: string)
    requires !HasChar(front, '[') && !HasChar(top, '[')
    ensures ReplaceAll(front + "[dot]" + top, "[dot]", ".") == front + "." + top
  {
    assert front + "[dot]" + top == front + ("[dot]" + top);
    ReplaceAllSkipsPrefix(front, "[dot]" + top, "[dot]", ".");
    ReplaceAllAtMatch(top, "[dot]", ".");
    ReplaceAllUntouched(top, "[dot]", ".");
    assert front + ("." + top) == front + "." + top;
  }

  /** Decoding a `[at]`/`[dot]`-obfuscated address gives the plain address. */
  lemma DecodeBracketed(local: string, host: string, top: string)
    requires AllLocal(local) && AllDomain(host) && AllTop(top)
    ensures Decode(local + "[at]" + host + "[dot]" + top) == local + "@" + host + "." + top
  {
    PlainParts(local, host, top);
    var html := local + "[at]" + host + "[dot]" + top;
    var front := local + "@" + host;
    AtPass(local, host, top);
    assert !HasChar("@", '[');
    HasCharConcat(local, "@", '[');
    HasCharConcat(local + "@", host, '[');
    DotPass(front, top);
    var plain := front + "." + top;
    assert Plain(".");
    assert Plain("@");
    PlainConcat(local, "@");
    PlainConcat(local + "@", host);
    PlainConcat(front, ".");
    PlainConcat(front + ".", top);
    assert plain == local + "@" + host + "." + top;
    LaterPassesKeep(html, plain);
  }

  /** A page holding just a `[at]`/`[dot]`-obfuscated address yields that address,
      unless it is a false positive. */
  lemma ObfuscatedAddressExtracted(local: string, host: string, top: string)
    requires local != [] && host != [] && |top| >= 2
    requires AllLocal(local) && AllDomain(host) && AllTop(top)
    requires IsWordChar(local[0]) && IsWordChar(top[|top| - 1])
    ensures var e := local + "@" + host + "." + top;
      ExtractedAddresses(local + "[at]" + host + "[dot]" + top) == if IsFalsePositive(e) then {} else {e}
  {
    DecodeBracketed(local, host, top);
    WholeAddress(local, host, top);
    ExtractedOfWhole(local + "[at]" + host + "[dot]" + top, local + "@" + host + "." + top);
  }

  /** An address with word characters at both ends is, as a text, one match of the
      pattern and nothing else, and holds nothing the decoding passes change. */
  lemma WholeAddress(local: string, host: string, top: string)
    requires local != [] && host != [] && |top| >= 2
    requires AllLocal(local) && AllDomain(host) && AllTop(top)
    requires IsWordChar(local[0]) && IsWordChar(top[|top| - 1])
    ensures var e := local + "@" + host + "." + top;
      FindAll(e) == [e] && Plain(e)
  {
    var e := local + "@" + host + "." + top;
    AddressOfParts(local, host, top);
    SplitsAtChars(e, |local|, |local| + 1 + |host|);
    AddressCharsPlain(e);
    assert e[0] == local[0] && e[|e| - 1] == top[|top| - 1];
    WholeMatch(e, |local|, |local| + 1 + |host|);
    FindAllWhole(e);
  }

  /** A page that decodes to a single whole match yields it unless it is a false positive. */
  lemma ExtractedOfWhole(html: string, e: string)
    requires Decode(html) == e && FindAll(e) == [e]
    ensures ExtractedAddresses(html) == if IsFalsePositive(e) then {} else {e}
  {
  }

  /** `user[at]domain[dot]com` decodes to `user@domain.com`. */
  lemma DecodeExample()
    ensures Decode("user[at]domain[dot]com") == "user@domain.com"
  {
    DecodeBracketed("user", "domain", "com");
    ExampleSpelling();
  }

  lemma ExampleSpelling()
    ensures "user" + "[at]" + "domain" + "[dot]" + "com" == "user[at]domain[dot]com"
    ensures "user" + "@" + "domain" + "." + "com" == "user@domain.com"
  {
  }

  /** The markers are lower-case, so they are tested against the lower-cased address. */
  lemma MarkersLower(k: nat)
    requires k < |FalsePositiveMarkers|
    ensures forall j :: 0 <= j < |FalsePositiveMarkers[k]| ==> !IsUpper(FalsePositiveMarkers[k][j])
  {
  }

  /** An address holding a marker, in lower case, is a false positive. */
  lemma MarkerFlagged(e: string, i: nat, k: nat)
    requires k < |FalsePositiveMarkers| && OccursAt(e, FalsePositiveMarkers[k], i)
    ensures IsFalsePositive(e)
  {
    var m := FalsePositiveMarkers[k];
    MarkersLower(k);
    forall j | 0 <= j < |m| ensures Lower(e)[i + j] == m[j] {
      assert e[i + j] == m[j];
    }
    assert Lower(e)[i..i + |m|] == m;
    assert OccursAt(Lower(e), m, i);
  }

  /** Address characters include none that starts an obfuscation pattern, no `:`,
      no `?` and no whitespace. */
  lemma AddressCharsPlain(s: string)
    requires forall i :: 0 <= i < |s| ==> AddressChar(s[i])
    ensures Plain(s) && !HasChar(s, ':') && !HasChar(s, '?')
    ensures forall i :: 0 <= i < |s| ==> !IsSpace(s[i])
  {
    forall i | 0 <= i < |s| ensures s[i] !in {'[', ' ', '(', ':', '?'} && !IsSpace(s[i]) {
      assert AddressChar(s[i]);
    }
  }

  /** Decoding leaves text without `[`, space or `(` untouched. */
  lemma PlainDecodes(s: string)
    requires Plain(s)
    ensures Decode(s) == s
  {
    ReplaceAllUntouched(s, "[at]", "@");
    ReplaceAllUntouched(s, "[dot]", ".");
    LaterPassesKeep(s, s);
  }

  /** A page holding just an address with word characters at both ends yields that
      address, unless it is a false positive. */
  lemma PlainAddressExtracted(local: string, host: string, top: string)
    requires local != [] && host != [] && |top| >= 2
    requires AllLocal(local) && AllDomain(host) && AllTop(top)
    requires IsWordChar(local[0]) && IsWordChar(top[|top| - 1])
    ensures var e := local + "@" + host + "." + top;
      ExtractedAddresses(e) == if IsFalsePositive(e) then {} else {e}
  {
    var e := local + "@" + host + "." + top;
    WholeAddress(local, host, top);
    PlainDecodes(e);
    ExtractedOfWhole(e, e);
  }

  /** An address at the `domain.com` placeholder domain is dropped, obfuscated or not:
      `user[at]domain[dot]com` yields nothing. */
  lemma PlaceholderDomainDropped(local: string)
    requires local != [] && AllLocal(local) && IsWordChar(local[0])
    ensures ExtractedAddresses(local + "[at]domain[dot]com") == {}
    ensures ExtractedAddresses(local + "@domain.com") == {}
  {
    var e := local + "@" + "domain" + "." + "com";
    assert e == local + "@domain.com";
    assert local + "[at]" + "domain" + "[dot]" + "com" == local + "[at]domain[dot]com";
    assert e[|local| + 1..|local| + 11] == "domain.com";
    MarkerFlagged(e, |local| + 1, 6);
    ObfuscatedAddressExtracted(local, "domain", "com");
    PlainAddressExtracted(local, "domain", "com");
  }

  /** The text `crawl_website_for_emails` tests against the pattern for a
      `mailto:` link: every `mailto:` removed, cut at the first `?`, stripped. */
  function MailtoCandidate(href: string): (c: string)
    ensures !HasChar(c, '?')
    ensures c == [] || (!IsSpace(c[0]) && !IsSpace(c[|c| - 1]))
  {
    var cut := BeforeFirst(ReplaceAll(href, "mailto:", ""), '?');
    StripKeepsAbsent(cut, '?');
    Strip(cut)
  }

  predicate IsMailto(href: string) { "mailto:" <= href }

  /** The address one link contributes. */
  function MailtoOf(href: string): set<string>
  {
    if IsMailto(href) && PrefixMatches(MailtoCandidate(href)) then {MailtoCandidate(href)} else {}
  }

  /** The addresses the `mailto:` links of a page contribute, without the false-positive filter. */
  function MailtoAddresses(hrefs: seq<string>): set<string>
  {
    UnionOf(hrefs, MailtoOf)
  }

  /** A link target is collected exactly when some link starts with `mailto:` and its
      candidate text matches the pattern at its start. */
  lemma MailtoAddressesIff(hrefs: seq<string>, e: string)
    ensures e in MailtoAddresses(hrefs) <==>
      exists k :: 0 <= k < |hrefs| && IsMailto(hrefs[k]) && MailtoCandidate(hrefs[k]) == e && PrefixMatches(e)
  {
    UnionOfIff(hrefs, MailtoOf, e);
  }

  /** Whatever a `mailto:` link contributes matches at its start, holds no `?` and has no
      surrounding whitespace. */
  lemma MailtoAddressShape(hrefs: seq<string>, e: string)
    requires e in MailtoAddresses(hrefs)
    ensures PrefixMatches(e) && !HasChar(e, '?')
    ensures e == [] || (!IsSpace(e[0]) && !IsSpace(e[|e| - 1]))
  {
    UnionOfIff(hrefs, MailtoOf, e);
    var k :| 0 <= k < |hrefs| && e in MailtoOf(hrefs[k]);
    MailtoOfShape(hrefs[k], e);
  }

  lemma MailtoOfShape(href: string, e: string)
    requires e in MailtoOf(href)
    ensures PrefixMatches(e) && !HasChar(e, '?')
    ensures e == [] || (!IsSpace(e[0]) && !IsSpace(e[|e| - 1]))
  {
  }

  /** A `mailto:` link to text without `:`, `?` or surrounding whitespace tests that text. */
  lemma MailtoTestsTarget(target: string)
    requires !HasChar(target, ':') && !HasChar(target, '?')
    requires target == [] || (!IsSpace(target[0]) && !IsSpace(target[|target| - 1]))
    ensures IsMailto("mailto:" + target)
    ensures MailtoCandidate("mailto:" + target) == target
  {
    ReplaceAllAtMatch(target, "mailto:", "");
    NotContainsByChar(target, "mailto:", 6);
    ReplaceAllAbsent(target, "mailto:", "");
    assert "" + target == target;
    BeforeFirstAbsent(target, '?');
    StripKeeps(target);
  }

  lemma MailtoAddressesOne(href: string)
    ensures MailtoAddresses([href]) == MailtoOf(href)
  {
    UnionOfSnoc([], href, MailtoOf);
    assert [] + [href] == [href];
  }

  /** A link to an `example.com` address is collected. */
  lemma MailtoExampleKept(local: string, e: string)
    requires local != [] && AllLocal(local) && IsWordChar(local[0])
    requires e == local + "@example.com"
    ensures MailtoAddresses(["mailto:" + e]) == {e}
  {
    ExampleAddressMatches(local, e);
    MailtoTarget(e);
  }

  lemma ExampleAddressMatches(local: string, e: string)
    requires local != [] && AllLocal(local) && IsWordChar(local[0])
    requires e == local + "@example.com"
    ensures PrefixMatches(e) && !HasChar(e, ':') && !HasChar(e, '?')
    ensures e != [] && !IsSpace(e[0]) && !IsSpace(e[|e| - 1])
  {
    ExampleParts(local);
    AddressOfParts(local, "example", "com");
    SplitsAtChars(e, |local|, |local| + 8);
    AddressCharsPlain(e);
    assert e[0] == local[0] && e[|e| - 1] == 'm';
    WholeMatch(e, |local|, |local| + 8);
  }

  /** `local@example.com` as the pieces the address pattern reads. */
  lemma ExampleParts(local: string)
    ensures local + "@example.com" == local + "@" + "example" + "." + "com"
  {
    Regroup5(local, "@", "example", ".", "com");
    assert "@" + ("example" + ("." + "com")) == "@example.com";
  }

  /** A link to a target that matches at its start, has no `:` or `?` and no
      surrounding whitespace contributes exactly that target. */
  lemma MailtoTarget(t: string)
    requires PrefixMatches(t) && !HasChar(t, ':') && !HasChar(t, '?')
    requires t == [] || (!IsSpace(t[0]) && !IsSpace(t[|t| - 1]))
    ensures MailtoAddresses(["mailto:" + t]) == {t}
  {
    MailtoTestsTarget(t);
    MailtoAddressesOne("mailto:" + t);
  }

  /** The same address in the page text is dropped by the `example.com` marker. */
  lemma ExampleDomainDropped(local: string, e: string)
    requires local != [] && AllLocal(local) && IsWordChar(local[0])
    requires e == local + "@example.com"
    ensures ExtractedAddresses(e) == {}
  {
    ExampleParts(local);
    assert e[|local| + 1..|local| + 12] == "example.com";
    MarkerFlagged(e, |local| + 1, 4);
    PlainAddressExtracted(local, "example", "com");
  }

  /** `mailto:` targets skip the false-positive filter: `info@example.com` is kept
      from a link, while the same text in the page body is dropped. */
  lemma MailtoBypassesFilter(local: string, e: string)
    requires local != [] && AllLocal(local) && IsWordChar(local[0])
    requires e == local + "@example.com"
    ensures MailtoAddresses(["mailto:" + e]) == {e}
    ensures ExtractedAddresses(e) == {}
  {
    MailtoExampleKept(local, e);
    ExampleDomainDropped(local, e);
  }

  /** `match` only anchors the start: after an address ending in a word character,
      whatever follows a non-word character is kept with it (`jane@acme.org, bob`). */
  lemma MailtoKeepsTrailingText(local: string, host: string, top: string, rest: string)
    requires local != [] && host != [] && |top| >= 2
    requires AllLocal(local) && AllDomain(host) && AllTop(top)
    requires IsWordChar(local[0]) && IsWordChar(top[|top| - 1])
    requires rest != [] && !IsWordChar(rest[0]) && !IsSpace(rest[|rest| - 1])
    requires !HasChar(rest, ':') && !HasChar(rest, '?')
    ensures var t := local + "@" + host + "." + top + rest;
      MailtoAddresses(["mailto:" + t]) == {t}
  {
    TrailingMatches(local, host, top, rest);
    MailtoTarget(local + "@" + host + "." + top + rest);
  }

  lemma TrailingMatches(local: string, host: string, top: string, rest: string)
    requires local != [] && host != [] && |top| >= 2
    requires AllLocal(local) && AllDomain(host) && AllTop(top)
    requires IsWordChar(local[0]) && IsWordChar(top[|top| - 1])
    requires rest != [] && !IsWordChar(rest[0]) && !IsSpace(rest[|rest| - 1])
    requires !HasChar(rest, ':') && !HasChar(rest, '?')
    ensures var t := local + "@" + host + "." + top + rest;
      PrefixMatches(t) && !HasChar(t, ':') && !HasChar(t, '?') && !IsSpace(t[0]) && !IsSpace(t[|t| - 1])
  {
    var e := local + "@" + host + "." + top;
    var t := e + rest;
    AddressOfParts(local, host, top);
    SplitsAtChars(e, |local|, |local| + 1 + |host|);
    AddressCharsPlain(e);
    HasCharConcat(e, rest, ':');
    HasCharConcat(e, rest, '?');
    assert t[0] == local[0] && t[|t| - 1] == rest[|rest| - 1];
    assert t[0..|e|] == e;
    assert t[|e| - 1] == top[|top| - 1] && t[|e|] == rest[0];
    assert MatchAt(t, 0, |e|);
  }

  /** The site with `https://` put in front unless it already names `http` or `https`. */
  function WithScheme(t: string): (site: string)
    ensures "http://" <= site || "https://" <= site
    ensures site == t || site == "https://" + t
    ensures site == t <==> "http://" <= t || "https://" <= t
  {
    if "http://" <= t || "https://" <= t then t else "https://" + t
  }

  /** `normalize_website(website) or None`, with the AttributeError a truthy
      non-string raises from `.strip()`. */
  function NormalizeWebsite(website: Value): (r: Result<Option<string>, Fault>)
    ensures r == Ok(None) <==> !Truthy(website)
    ensures r.Err? <==> Truthy(website) && !website.Str?
    ensures r.Err? ==> r.error == NoAttribute(TypeName(website), "strip")
    ensures r.Ok? && r.value.Some? ==> "http://" <= r.value.value || "https://" <= r.value.value
  {
    if !Truthy(website) then Ok(None)
    else match website
      case Str(s) => Ok(Some(WithScheme(RStripChar(Strip(s), '/'))))
      case _ => Err(NoAttribute(TypeName(website), "strip"))
  }

  /** A bare host name gets `https://` and keeps everything else. */
  lemma NormalizeBareHost(host: string)
    requires host != [] && !IsSpace(host[0]) && !IsSpace(host[|host| - 1]) && host[|host| - 1] != '/'
    requires !("http://" <= host) && !("https://" <= host)
    ensures NormalizeWebsite(Str(host)) == Ok(Some("https://" + host))
  {
    StripKeeps(host);
  }

  /** Surrounding whitespace and trailing slashes go; a given scheme is kept. */
  lemma NormalizeTrims(site: string, pad: string, slashes: string, website: string)
    requires "http://" <= site || "https://" <= site
    requires site[|site| - 1] != '/' && !IsSpace(site[|site| - 1])
    requires forall i :: 0 <= i < |slashes| ==> slashes[i] == '/'
    requires forall i :: 0 <= i < |pad| ==> IsSpace(pad[i])
    requires website == pad + site + slashes + pad
    ensures NormalizeWebsite(Str(website)) == Ok(Some(site))
  {
    assert site[0] == 'h';
    StripSlashed(site, slashes, pad, website);
    RStripCharRun(site, slashes, '/');
    NormalizeSchemed(site, website);
  }

  lemma StripSlashed(site: string, slashes: string, pad: string, website: string)
    requires site != [] && site[0] == 'h'
    requires site[|site| - 1] != '/' && !IsSpace(site[|site| - 1])
    requires forall i :: 0 <= i < |slashes| ==> slashes[i] == '/'
    requires forall i :: 0 <= i < |pad| ==> IsSpace(pad[i])
    requires website == pad + site + slashes + pad
    ensures Strip(website) == site + slashes
  {
    var inner := site + slashes;
    assert inner[0] == site[0];
    if slashes != [] {
      assert inner[|inner| - 1] == slashes[|slashes| - 1];
    } else {
      assert inner == site;
    }
    assert website == pad + inner + pad;
    StripPadded(pad, inner);
  }

  lemma NormalizeSchemed(site: string, website: string)
    requires "http://" <= site || "https://" <= site
    requires RStripChar(Strip(website), '/') == site
    requires website != []
    ensures NormalizeWebsite(Str(website)) == Ok(Some(site))
  {
    assert WithScheme(site) == site;
  }

  /** Stripping removes whitespace padding around a text without surrounding whitespace. */
  lemma StripPadded(pad: string, inner: string)
    requires inner != [] && !IsSpace(inner[0]) && !IsSpace(inner[|inner| - 1])
    requires forall i :: 0 <= i < |pad| ==> IsSpace(pad[i])
    ensures Strip(pad + inner + pad) == inner
  {
    LStripPad(pad, inner + pad);
    assert pad + inner + pad == pad + (inner + pad);
    RStripPad(inner, pad);
  }

  lemma {:induction false} LStripPad(pad: string, s: string)
    requires s != [] && !IsSpace(s[0])
    requires forall i :: 0 <= i < |pad| ==> IsSpace(pad[i])
    ensures LStrip(pad + s) == s
    decreases |pad|
  {
    if pad == [] {
      assert pad + s == s;
    } else {
      var t := pad + s;
      assert t[0] == pad[0] && IsSpace(t[0]);
      assert LStrip(t) == LStrip(t[1..]);
      assert t[1..] == pad[1..] + s;
      LStripPad(pad[1..], s);
    }
  }

  lemma {:induction false} RStripPad(s: string, pad: string)
    requires s != [] && !IsSpace(s[|s| - 1])
    requires forall i :: 0 <= i < |pad| ==> IsSpace(pad[i])
    ensures RStrip(s + pad) == s
    decreases |pad|
  {
    if pad == [] {
      assert s + pad == s;
    } else {
      var front := pad[..|pad| - 1];
      assert (s + pad)[..|s + pad| - 1] == s + front;
      RStripPad(s, front);
    }
  }

  lemma {:induction false} RStripCharRun(s: string, run: string, c: char)
    requires s != [] && s[|s| - 1] != c
    requires forall i :: 0 <= i < |run| ==> run[i] == c
    ensures RStripChar(s + run, c) == s
    decreases |run|
  {
    if run == [] {
      assert s + run == s;
    } else {
      var front := run[..|run| - 1];
      assert (s + run)[..|s + run| - 1] == s + front;
      RStripCharRun(s, front, c);
    }
  }

  /** `get_base_url(url)`. */
  function GetBaseUrl(url: string): (r: Result<string, Fault>)
    ensures r.Err? <==> UrlParse(url).Err?
    ensures r.Ok? ==> r.value == UrlParse(url).value.scheme + "://" + UrlParse(url).value.netloc
  {
    match UrlParse(url)
    case Err(e) => Err(e)
    case Ok(p) => Ok(p.scheme + "://" + p.netloc)
  }

  /** The base URL of a normalised site keeps the site's scheme. */
  lemma BaseUrlKeepsScheme(site: string, p: string)
    requires p == "http://" || p == "https://"
    requires p <= site
    ensures GetBaseUrl(site).Ok? ==> p <= GetBaseUrl(site).value
  {
    HttpSchemeDetected(site, p);
    if GetBaseUrl(site).Ok? {
      var q := UrlParse(site).value;
      SchemeJoin(p, q.scheme, q.netloc);
    }
  }

  lemma SchemeJoin(p: string, scheme: string, netloc: string)
    requires p == "http://" || p == "https://"
    requires scheme == p[..|p| - 3]
    ensures p <= scheme + "://" + netloc
  {
    assert scheme + "://" == p;
  }

  /** The base URL of `https://host/...` is `https://host` for an ASCII host. */
  lemma BaseUrlOfHost(host: string, tail: string, url: string)
    requires IsAscii(host) && Printable(host) && NoneOf(host, {'/', '?', '#', '[', ']'})
    requires tail == [] || tail[0] == '/'
    requires forall i :: 0 <= i < |tail| ==> !IsUnsafe(tail[i])
    requires url == "https://" + host + tail
    ensures GetBaseUrl(url) == Ok("https://" + host)
  {
    HttpsNetloc(host, tail);
    assert "https" + "://" == "https://";
  }

  /** A site whose host holds a character that NFKC turns into a delimiter, such as
      `℀`, raises `urlparse`'s ValueError before any page is fetched. */
  lemma NfkcSiteRaises(host: string, k: nat, web: Web)
    requires Printable(host) && NoneOf(host, {'/', '?', '#', '[', ']'})
    requires k < |host| && host[k] in NfkcDelimiters && !IsSpace(host[|host| - 1])
    ensures Crawl(Str("https://" + host), web) == Err(NetlocNfkc(host))
  {
    var site := "https://" + host;
    assert site[|site| - 1] == host[|host| - 1];
    assert "" + site + "" + "" == site;
    NormalizeTrims(site, "", "", site);
    NfkcHostRejected(host, [], k);
    assert site + [] == site;
  }

  /** `urljoin(base, path)` for a base `scheme://netloc` and a one-segment absolute path. */
  function JoinRoot(base: string, path: string): string
  {
    base + path
  }

  /** `pages_to_check`: the site itself, then the base joined with each contact path. */
  function PagesToCheck(site: string, base: string): (r: seq<string>)
    ensures |r| == 1 + |ContactPaths| == 11
    ensures r[0] == site
    ensures forall k :: 0 <= k < |ContactPaths| ==> r[k + 1] == JoinRoot(base, ContactPaths[k])
  {
    [site] + JoinAll(base, ContactPaths)
  }

  /** The base joined with each path, in order. */
  function JoinAll(base: string, paths: seq<string>): (r: seq<string>)
    ensures |r| == |paths|
    ensures forall k :: 0 <= k < |paths| ==> r[k] == JoinRoot(base, paths[k])
  {
    if paths == [] then [] else [JoinRoot(base, paths[0])] + JoinAll(base, paths[1..])
  }

  /** The finds of one fetched body: text matches, and `mailto:` targets when the parser succeeds. */
  function PageFinds(html: string, web: Web): set<string>
  {
    if html == "" then {}
    else ExtractedAddresses(html) + match web.links(html) case None => {} case Some(hrefs) => MailtoAddresses(hrefs)
  }

  /** The finds of the page at a URL. */
  function FetchFinds(web: Web): string -> set<string>
  {
    url => PageFinds(web.fetch(url), web)
  }

  /** The union of the finds of `pages`, accumulated in order. */
  function Found(pages: seq<string>, web: Web): set<string>
  {
    UnionOf(pages, FetchFinds(web))
  }

  /** An address is found by a crawl exactly when one of the crawled pages yields it;
      an empty or failed page contributes nothing and stops nothing. */
  lemma FoundIsUnion(pages: seq<string>, web: Web, e: string)
    ensures e in Found(pages, web) <==> exists k :: 0 <= k < |pages| && e in PageFinds(web.fetch(pages[k]), web)
  {
    UnionOfIff(pages, FetchFinds(web), e);
  }

  /** `crawl_website_for_emails(website)`, or the exception it lets escape. */
  function Crawl(website: Value, web: Web): Result<set<string>, Fault>
  {
    match NormalizeWebsite(website)
    case Err(e) => Err(e)
    case Ok(None) => Ok({})
    case Ok(Some(site)) =>
      match GetBaseUrl(site)
      case Err(e) => Err(e)
      case Ok(base) => Ok(Found(PagesToCheck(site, base), web))
  }

  /** `crawl_website_for_emails`; `fetched` lists the URLs requested, in order. */
  method CrawlWebsiteForEmails(website: Value, web: Web) returns (r: Result<set<string>, Fault>, fetched: seq<string>)
    ensures r == Crawl(website, web)
    ensures NormalizeWebsite(website).Ok? && NormalizeWebsite(website).value.None? ==> r == Ok({}) && fetched == []
    ensures r.Ok? && NormalizeWebsite(website).value.Some? ==>
      var site := NormalizeWebsite(website).value.value;
      fetched == PagesToCheck(site, GetBaseUrl(site).value)
  {
    fetched := [];
    var normalized := NormalizeWebsite(website);
    if normalized.Err? {
      return Err(normalized.error), fetched;
    }
    if normalized.value.None? {
      return Ok({}), fetched;
    }
    var site := normalized.value.value;
    var baseUrl := GetBaseUrl(site);
    if baseUrl.Err? {
      return Err(baseUrl.error), fetched;
    }
    var pages := PagesToCheck(site, baseUrl.value);
    var emails;
    emails, fetched := CrawlPages(pages, web);
    r := Ok(emails);
  }

  /** The loop of `crawl_website_for_emails` over `pages_to_check`: every page is
      requested in order, and its finds are added to `emails`. */
  method CrawlPages(pages: seq<string>, web: Web) returns (emails: set<string>, fetched: seq<string>)
    ensures emails == Found(pages, web)
    ensures fetched == pages
  {
    emails := {};
    fetched := [];
    var i := 0;
    while i < |pages|
      invariant 0 <= i <= |pages|
      invariant fetched == pages[..i]
      invariant emails == Found(pages[..i], web)
    {
      ghost var before := emails;
      var pageUrl := pages[i];
      var html := web.fetch(pageUrl);
      SliceSnoc(pages, i);
      fetched := fetched + [pageUrl];
      emails := ScanPage(emails, html, web);
      CrawlStep(pages, i, web, before, emails);
      i := i + 1;
    }
    SliceAll(pages);
  }

  /** The body of the loop for one fetched page: a non-empty body adds its text
      matches and, when the parser succeeds, its `mailto:` targets. */
  method ScanPage(before: set<string>, html: string, web: Web) returns (emails: set<string>)
    ensures emails == before + PageFinds(html, web)
  {
    emails := before;
    if html != "" {
      var found := ExtractEmailsFromHtml(html);
      emails := emails + found;
      var soup := web.links(html);
      if soup.Some? {
        emails := AddMailtoTargets(emails, soup.value);
      }
    }
  }

  /** One page of the loop adds its finds to those of the pages before it. */
  lemma CrawlStep(pages: seq<string>, i: nat, web: Web, before: set<string>, after: set<string>)
    requires i < |pages| && before == Found(pages[..i], web)
    requires after == before + PageFinds(web.fetch(pages[i]), web)
    ensures after == Found(pages[..i + 1], web)
  {
    assert FetchFinds(web)(pages[i]) == PageFinds(web.fetch(pages[i]), web);
    UnionStep(pages, i, FetchFinds(web), {}, before, after);
  }

  /** The `mailto:` scan of one page: each link whose target text matches the
      pattern at its start adds that text to `emails`. */
  method AddMailtoTargets(before: set<string>, hrefs: seq<string>) returns (emails: set<string>)
    ensures emails == before + MailtoAddresses(hrefs)
  {
    emails := before;
    var j := 0;
    while j < |hrefs|
      invariant 0 <= j <= |hrefs|
      invariant emails == before + MailtoAddresses(hrefs[..j])
    {
      ghost var scanned := emails;
      var href := hrefs[j];
      emails := ScanLink(emails, href);
      MailtoStep(hrefs, j, before, scanned, emails);
      j := j + 1;
    }
    SliceAll(hrefs);
  }

  /** The body of the scan for one link: a `mailto:` target matching the pattern at its start is added. */
  method ScanLink(before: set<string>, href: string) returns (emails: set<string>)
    ensures emails == before + MailtoOf(href)
  {
    emails := before;
    if "mailto:" <= href {
      var email := MailtoCandidate(href);
      if PrefixMatches(email) {
        emails := emails + {email};
      }
    }
  }

  /** One link of the scan adds what it contributes. */
  lemma MailtoStep(hrefs: seq<string>, j: nat, before: set<string>, scanned: set<string>, after: set<string>)
    requires j < |hrefs| && scanned == before + MailtoAddresses(hrefs[..j])
    requires after == scanned + MailtoOf(hrefs[j])
    ensures after == before + MailtoAddresses(hrefs[..j + 1])
  {
    UnionStep(hrefs, j, MailtoOf, before, scanned, after);
  }

  method ListOfSet(s: set<string>) returns (xs: seq<string>)
    ensures IsEnumeration(xs, s)
    ensures |xs| == |s|
  {
    xs := [];
    var rest := s;
    while rest != {}
      invariant rest <= s
      invariant forall x :: x in xs <==> x in s - rest
      invariant forall k, m :: 0 <= k < m < |xs| ==> xs[k] != xs[m]
      invariant |xs| + |rest| == |s|
      decreases |rest|
    {
      var x :| x in rest;
      assert x !in xs;
      assert |rest - {x}| == |rest| - 1;
      xs := xs + [x];
      rest := rest - {x};
    }
  }

  /** The lead with `emails_found` and `primary_email` set from the enumeration `xs`. */
  function WithEmails(lead: Record, xs: seq<string>): Record
  {
    lead["emails_found" := List(StrList(xs))]["primary_email" := if xs == [] then Null else Str(xs[0])]
  }

  /** The lead gains the two fields and keeps every other one. */
  lemma WithEmailsFields(lead: Record, xs: seq<string>)
    ensures var r := WithEmails(lead, xs);
      && r.Keys == lead.Keys + {"emails_found", "primary_email"}
      && r["emails_found"] == List(StrList(xs))
      && r["primary_email"] == (if xs == [] then Null else Str(xs[0]))
      && forall key :: key in lead && key != "emails_found" && key != "primary_email" ==> r[key] == lead[key]
  {
  }

  /** The record `crawl_all_websites` keeps for a lead whose task raised `e`. */
  function CrawlFailure(lead: Record, e: Fault): Record
  {
    WithEmails(lead, [])["error" := Str(e.Message())]
  }

  /** A failed task's lead gets no addresses and the error text, and keeps every other field. */
  lemma CrawlFailureFields(lead: Record, e: Fault)
    ensures var r := CrawlFailure(lead, e);
      && r.Keys == lead.Keys + {"emails_found", "primary_email", "error"}
      && r["emails_found"] == List([]) && r["primary_email"] == Null && r["error"] == Str(e.Message())
      && forall key :: key in lead && key !in {"emails_found", "primary_email", "error"} ==> r[key] == lead[key]
  {
    WithEmailsFields(lead, []);
  }

  /** `out` is a record `crawl_all_websites` may produce for `lead`. */
  ghost predicate Crawled(lead: Record, out: Record, web: Web)
  {
    var website := Get(lead, "website", Null);
    if !Truthy(website) then out == WithEmails(lead, [])
    else match Crawl(website, web)
      case Err(e) => out == CrawlFailure(lead, e)
      case Ok(found) => exists xs :: IsEnumeration(xs, found) && out == WithEmails(lead, xs)
  }

  /** `process_lead`: the updated lead, or the exception the crawl raised. */
  method ProcessLead(lead: Record, web: Web) returns (r: Result<Record, Fault>)
    ensures var website := Get(lead, "website", Null);
      r.Err? <==> Truthy(website) && Crawl(website, web).Err?
    ensures r.Err? ==> Crawl(Get(lead, "website", Null), web) == Err(r.error)
    ensures r.Ok? ==> Crawled(lead, r.value, web)
  {
    var website := Get(lead, "website", Null);
    if Truthy(website) {
      var emails, _ := CrawlWebsiteForEmails(website, web);
      if emails.Err? {
        return Err(emails.error);
      }
      var xs := ListOfSet(emails.value);
      r := Ok(WithEmails(lead, xs));
    } else {
      r := Ok(WithEmails(lead, []));
    }
  }

  /** With a website, `primary_email` is `None` exactly when nothing was found,
      and otherwise one of the found addresses. */
  lemma PrimaryEmailIsFound(lead: Record, out: Record, web: Web, found: set<string>)
    requires Crawled(lead, out, web)
    requires Truthy(Get(lead, "website", Null)) && Crawl(Get(lead, "website", Null), web) == Ok(found)
    ensures out["primary_email"] == Null <==> found == {}
    ensures out["primary_email"] != Null ==> out["primary_email"].Str? && out["primary_email"].s in found
    ensures out["emails_found"].List? && |out["emails_found"].items| == |found|
  {
    var xs :| IsEnumeration(xs, found) && out == WithEmails(lead, xs);
    WithEmailsFields(lead, xs);
    EnumerationSize(xs, found);
    if xs != [] {
      assert xs[0] in found;
    }
  }

  lemma {:induction false} EnumerationSize(xs: seq<string>, s: set<string>)
    requires IsEnumeration(xs, s)
    ensures |xs| == |s|
    decreases |xs|
  {
    if xs != [] {
      var last := xs[|xs| - 1];
      var front := xs[..|xs| - 1];
      assert IsEnumeration(front, s - {last}) by {
        forall x ensures x in front <==> x in s - {last} {
          if x in front {
            var k :| 0 <= k < |front| && front[k] == x;
            assert xs[k] == x && k < |xs| - 1;
          }
          if x in s - {last} {
            assert x in xs;
            var k :| 0 <= k < |xs| && xs[k] == x;
            assert k != |xs| - 1;
            assert front[k] == x;
          }
        }
      }
      EnumerationSize(front, s - {last});
    } else {
      assert s == {};
    }
  }

  /** `crawl_all_websites`, sequentialised: the `k`-th result is the record of
      the lead whose task finished `k`-th. */
  method CrawlAllWebsites(leads: seq<Record>, order: seq<nat>, web: Web) returns (results: seq<Record>)
    requires IsCompletionOrder(order, |leads|)
    ensures |results| == |leads|
    ensures forall k :: 0 <= k < |results| ==> Crawled(leads[order[k]], results[k], web)
  {
    ghost var done := (m: nat, r: Record) => m < |order| && order[m] < |leads| && Crawled(leads[order[m]], r, web);
    results := [];
    var k := 0;
    while k < |order|
      invariant 0 <= k <= |order|
      invariant |results| == k
      invariant forall m :: 0 <= m < k ==> done(m, results[m])
    {
      var record := FinishTask(leads[order[k]], web);
      assert done(k, record);
      AllExtend(done, results, record);
      results := results + [record];
      k := k + 1;
    }
    forall m | 0 <= m < |results| ensures Crawled(leads[order[m]], results[m], web) {
      assert done(m, results[m]);
    }
  }

  /** The handler of one finished task: its updated lead, or the lead with the
      error's text when the task raised. The record is one the crawl may produce. */
  method FinishTask(lead: Record, web: Web) returns (record: Record)
    ensures Crawled(lead, record, web)
  {
    var result := ProcessLead(lead, web);
    if result.Ok? {
      record := result.value;
    } else {
      record := CrawlFailure(lead, result.error);
    }
  }

  /** Every lead of a batch has its record among the results. */
  lemma EveryLeadCrawled(leads: seq<Record>, order: seq<nat>, web: Web, results: seq<Record>, i: nat)
    requires IsCompletionOrder(order, |leads|) && |results| == |leads|
    requires forall k :: 0 <= k < |results| ==> Crawled(leads[order[k]], results[k], web)
    requires i < |leads|
    ensures exists k :: 0 <= k < |results| && Crawled(leads[i], results[k], web)
  {
    CompletionOrderCovers(order, |leads|, i);
    var k :| 0 <= k < |leads| && order[k] == i;
    assert Crawled(leads[order[k]], results[k], web);
  }
}
