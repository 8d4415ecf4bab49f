/**
 * The e-mail verifier: the domain of a lead's website, the RCPT probe of an
 * address and its three-valued verdict, the catch-all probe, the pattern
 * guesses, the per-lead decision that sets `verified_email` and
 * `email_status`, the batch over all leads and its four statistics.
 *
 * DNS and the SMTP conversation are a `Mail` value: `mx(domain)` is the list
 * of exchange names the MX lookup gives (`[]` when it fails), and
 * `session(host, email)` what happens when the address is offered to `host`.
 */
module SmtpVerify {
  import opened Values
  import opened Text
  import opened Urls
  import opened Pool

  /** What `smtplib` raises inside the probe, in the order the handlers test them. */
  datatype SmtpFailure =
    | ServerDisconnected          // smtplib.SMTPServerDisconnected
    | ConnectFailed               // smtplib.SMTPConnectError
    | TimedOut                    // socket.timeout
    | OtherFailure(text: string)  // any other exception, as `str(e)`

  function FailureText(f: SmtpFailure): string
  {
    match f
    case ServerDisconnected => "Server disconnected"
    case ConnectFailed => "Connection failed"
    case TimedOut => "Timeout"
    case OtherFailure(text) => text
  }

  /** One SMTP session: the RCPT reply code, or a failure before it, or a failure
      after it (a QUIT refused when the `with` block closes). */
  datatype Session =
    | Replied(code: int)
    | FailedBeforeReply(failure: SmtpFailure)
    | FailedAfterReply(code: int, failure: SmtpFailure)

  datatype Mail = Mail(mx: string -> seq<string>, session: (string, string) -> Session)

  /** Python's `True`, `False` and `None` in the `valid` field. */
  datatype Tri = Yes | No | Unknown

  /** The dict `verify_email_smtp` returns. */
  datatype Probe = Probe(email: string, valid: Tri, catchAll: bool, error: Option<string>)

  /** The verdict on an RCPT reply code. */
  function Classify(code: int): (t: Tri)
    ensures t == Yes <==> code == 250
    ensures t == No <==> code == 550
  {
    if code == 250 then Yes else if code == 550 then No else Unknown
  }

  /** `get_mx_records`: the exchange names with their trailing dots removed. */
  function MxHosts(mail: Mail, domain: string): (r: seq<string>)
    ensures |r| == |mail.mx(domain)|
    ensures forall k :: 0 <= k < |r| ==> r[k] == RStripChar(mail.mx(domain)[k], '.')
  {
    StripDots(mail.mx(domain))
  }

  /** Each name with its trailing dots removed. */
  function StripDots(names: seq<string>): (r: seq<string>)
    ensures |r| == |names|
    ensures forall k :: 0 <= k < |r| ==> r[k] == RStripChar(names[k], '.')
  {
    if names == [] then [] else [RStripChar(names[0], '.')] + StripDots(names[1..])
  }

  /** `email.split('@')[1]`, or the IndexError when there is no `@`. */
  function DomainOfAddress(email: string): (r: Result<string, Fault>)
    ensures r.Err? <==> !HasChar(email, '@')
    ensures r.Err? ==> r.error == IndexOutOfRange
    ensures r.Ok? ==> !HasChar(r.value, '@')
  {
    var parts := SplitOn(email, '@');
    if |parts| < 2 then Err(IndexOutOfRange) else Ok(parts[1])
  }

  /** `verify_email_smtp(email, mx_host)`: the host is looked up when `mx_host` is
      missing or empty, and the session's outcome sets `valid` and `error`. */
  function VerifyEmailSmtp(email: string, mxHost: Option<string>, mail: Mail): (r: Result<Probe, Fault>)
    ensures r.Err? <==> !HasChar(email, '@')
    ensures r.Ok? ==> r.value.email == email && !r.value.catchAll
  {
    match DomainOfAddress(email)
    case Err(e) => Err(e)
    case Ok(domain) =>
      var hosts := if mxHost.Some? && mxHost.value != "" then [mxHost.value] else MxHosts(mail, domain);
      if hosts == [] then Ok(Probe(email, No, false, Some("No MX records")))
      else match mail.session(hosts[0], email)
        case Replied(code) => Ok(Probe(email, Classify(code), false, None))
        case FailedBeforeReply(f) => Ok(Probe(email, No, false, Some(FailureText(f))))
        case FailedAfterReply(code, f) => Ok(Probe(email, Classify(code), false, Some(FailureText(f))))
  }

  /** The exchange `verify_email_smtp` talks to when no host is given. */
  function FirstHost(email: string, mail: Mail): Option<string>
    requires HasChar(email, '@')
  {
    var hosts := MxHosts(mail, DomainOfAddress(email).value);
    if hosts == [] then None else Some(hosts[0])
  }

  /** The probe says `True` exactly for a 250 reply, `None` exactly for a reply that is
      neither 250 nor 550; no MX record and a failure before the reply both say `False`. */
  lemma ProbeVerdict(email: string, mail: Mail)
    requires HasChar(email, '@')
    ensures var p := VerifyEmailSmtp(email, None, mail).value;
      match FirstHost(email, mail)
      case None => p.valid == No && p.error == Some("No MX records")
      case Some(host) =>
        match mail.session(host, email)
        case Replied(code) => p.valid == Classify(code) && p.error.None?
        case FailedBeforeReply(f) => p.valid == No && p.error == Some(FailureText(f))
        case FailedAfterReply(code, f) => p.valid == Classify(code) && p.error == Some(FailureText(f))
  {
  }

  /** An explicit, non-empty `mx_host` is used as given: no lookup happens. */
  lemma GivenHostUsed(email: string, host: string, mail: Mail)
    requires HasChar(email, '@') && host != ""
    ensures VerifyEmailSmtp(email, Some(host), mail).value.valid ==
      match mail.session(host, email)
      case Replied(code) => Classify(code)
      case FailedBeforeReply(_) => No
      case FailedAfterReply(code, _) => Classify(code)
  {
  }

  const FakeLocalPart: string := "definitely_fake_12345"

  /** The address `check_catch_all` probes; its `@` is the one after the made-up local part. */
  function FakeAddress(domain: string): (e: string)
    ensures HasChar(e, '@')
    ensures DomainOfAddress(e) == Ok(BeforeFirst(domain, '@'))
  {
    var e := FakeLocalPart + "@" + domain;
    assert e[|FakeLocalPart|] == '@';
    FakeSplit(domain);
    e
  }

  lemma FakeSplit(domain: string)
    ensures DomainOfAddress(FakeLocalPart + "@" + domain) == Ok(BeforeFirst(domain, '@'))
  {
    var e := FakeLocalPart + "@" + domain;
    var n := |FakeLocalPart|;
    assert e[n] == '@';
    assert forall i :: 0 <= i < n ==> e[i] != '@';
    assert FindAny(e, {'@'}, 0) == n;
    assert e[n + 1..] == domain;
    assert SplitOn(e, '@') == [e[..n]] + SplitOn(domain, '@');
    var i := FindAny(domain, {'@'}, 0);
    if i < |domain| {
      assert SplitOn(domain, '@')[0] == domain[..i];
    } else {
      assert SplitOn(domain, '@') == [domain];
      assert domain[..i] == domain;
    }
    assert SplitOn(e, '@')[1] == BeforeFirst(domain, '@');
  }

  /** `check_catch_all(domain)`: the verdict on an address nobody would have. The
      probe never raises, since that address always has an `@`. */
  function CheckCatchAll(domain: string, mail: Mail): (t: Tri)
    ensures VerifyEmailSmtp(FakeAddress(domain), None, mail).Ok?
    ensures t == VerifyEmailSmtp(FakeAddress(domain), None, mail).value.valid
  {
    VerifyEmailSmtp(FakeAddress(domain), None, mail).value.valid
  }

  /** `get_domain_from_website(website)`: the netloc, or the path when there is no
      netloc, without a leading lower-case `www.`, then lower-cased. Falsy input,
      non-text input and a URL `urlparse` rejects all give `None`. */
  function GetDomainFromWebsite(website: Value): (r: Option<string>)
    ensures !Truthy(website) || !website.Str? ==> r.None?
    ensures website.Str? && website.s != "" ==> (r.Some? <==> UrlParse(website.s).Ok?)
    ensures r.Some? ==> forall i :: 0 <= i < |r.value| ==> !IsUpper(r.value[i])
  {
    if !Truthy(website) || !website.Str? then None
    else match UrlParse(website.s)
      case Err(_) => None
      case Ok(p) =>
        var domain := if p.netloc != "" then p.netloc else p.path;
        var bare := if "www." <= domain then domain[4..] else domain;
        Some(Lower(bare))
  }

  /** A website without a scheme is read as a path, which is kept whole:
      `host/about` gives the domain `host/about`. */
  lemma SchemelessDomain(url: string)
    requires url != [] && Printable(url) && NoneOf(url, {':', '?', '#', ';'}) && !("//" <= url)
    requires !("www." <= url)
    ensures GetDomainFromWebsite(Str(url)) == Some(Lower(url))
  {
    SchemelessIsPath(url);
    DomainOfPath(url);
  }

  lemma DomainOfPath(url: string)
    requires url != [] && !("www." <= url)
    requires UrlParse(url) == Ok(ParsedUrl("", "", url, "", "", ""))
    ensures GetDomainFromWebsite(Str(url)) == Some(Lower(url))
  {
    var p := UrlParse(url).value;
    assert p.netloc == "" && p.path == url;
    assert Truthy(Str(url));
  }

  /** The domain of `https://host/...` is the host, lower-cased, after a leading
      lower-case `www.` is removed; an upper-case `WWW.` is kept (and lower-cased). */
  lemma HttpsDomain(host: string, tail: string, url: string)
    requires host != [] && IsAscii(host) && Printable(host) && NoneOf(host, {'/', '?', '#', '[', ']'})
    requires tail == [] || tail[0] == '/'
    requires forall i :: 0 <= i < |tail| ==> !IsUnsafe(tail[i])
    requires url == "https://" + host + tail
    ensures GetDomainFromWebsite(Str(url)) == Some(Lower(if "www." <= host then host[4..] else host))
  {
    HttpsNetloc(host, tail);
  }

  /** A field of an address pattern, or literal text. */
  datatype Piece = Lit(text: string) | DomainField | FirstField | LastField

  /** `EMAIL_PATTERNS`, in order. */
  const EmailPatterns: seq<seq<Piece>> := [
    [Lit("info@"), DomainField],
    [Lit("contact@"), DomainField],
    [Lit("hello@"), DomainField],
    [Lit("sales@"), DomainField],
    [Lit("support@"), DomainField],
    [Lit("admin@"), DomainField],
    [Lit("office@"), DomainField],
    [FirstField, Lit("@"), DomainField],
    [FirstField, Lit("."), LastField, Lit("@"), DomainField],
    [FirstField, LastField, Lit("@"), DomainField]
  ]

  /** The role accounts of the first seven patterns. */
  const RoleAccounts: seq<string> := ["info", "contact", "hello", "sales", "support", "admin", "office"]

  /** `pattern.format(domain=..., first=..., last=...)`: the fields are filled in,
      and the text put in is not read again. */
  function Format(pattern: seq<Piece>, domain: string, first: string, last: string): string
  {
    if pattern == [] then ""
    else
      var head := match pattern[0]
        case Lit(text) => text
        case DomainField => domain
        case FirstField => first
        case LastField => last;
      head + Format(pattern[1..], domain, first, last)
  }

  /** The test a formatted pattern must pass to be kept. */
  predicate Resolved(email: string)
  {
    !HasChar(email, '{') && HasChar(email, '@')
  }

  /** The kept formatted patterns, in the order of `patterns`. */
  function Guesses(patterns: seq<seq<Piece>>, domain: string, first: string, last: string): (r: seq<string>)
    ensures |r| <= |patterns|
    ensures forall k :: 0 <= k < |r| ==> Resolved(r[k])
  {
    if patterns == [] then []
    else
      var front := Guesses(patterns[..|patterns| - 1], domain, first, last);
      var email := Format(patterns[|patterns| - 1], domain, first, last);
      if Resolved(email) then front + [email] else front
  }

  /** `name.split()`'s first word, lower-cased, or `''` when there is none. */
  function FirstName(words: seq<string>): string
  {
    if words != [] then Lower(words[0]) else ""
  }

  /** `name.split()`'s last word, lower-cased, or `''` when there are fewer than two. */
  function LastName(words: seq<string>): string
  {
    if |words| > 1 then Lower(words[|words| - 1]) else ""
  }

  /** What `generate_email_guesses(lead)` returns, or the AttributeError that a name
      which is not text raises from `.split()`. */
  function GuessesFor(lead: Record): (r: Result<seq<string>, Fault>)
    ensures r.Err? ==> r.error.NoAttribute?
  {
    var domain := GetDomainFromWebsite(Get(lead, "website", Null));
    if domain.None? || domain.value == "" then Ok([])
    else
      var name := Get(lead, "name", Str(""));
      if !name.Str? then Err(NoAttribute(TypeName(name), "split"))
      else
        var words := Words(name.s);
        Ok(Guesses(EmailPatterns, domain.value, FirstName(words), LastName(words)))
  }

  /** `generate_email_guesses`. */
  method GenerateEmailGuesses(lead: Record) returns (r: Result<seq<string>, Fault>)
    ensures r == GuessesFor(lead)
    ensures r.Ok? ==> forall k :: 0 <= k < |r.value| ==> Resolved(r.value[k])
  {
    var domain := GetDomainFromWebsite(Get(lead, "website", Null));
    if domain.None? || domain.value == "" {
      return Ok([]);
    }
    var name := Get(lead, "name", Str(""));
    if !name.Str? {
      return Err(NoAttribute(TypeName(name), "split"));
    }
    var nameParts := Words(name.s);
    var first := FirstName(nameParts);
    var last := LastName(nameParts);
    var guesses := FormatAll(EmailPatterns, domain.value, first, last);
    r := Ok(guesses);
  }

  /** The loop of `generate_email_guesses`: each pattern in turn is formatted, and kept
      when it is fully resolved. */
  method FormatAll(patterns: seq<seq<Piece>>, domain: string, first: string, last: string) returns (guesses: seq<string>)
    ensures guesses == Guesses(patterns, domain, first, last)
  {
    guesses := [];
    for k := 0 to |patterns|
      invariant guesses == Guesses(patterns[..k], domain, first, last)
    {
      var email := Format(patterns[k], domain, first, last);
      if !HasChar(email, '{') && HasChar(email, '@') {
        guesses := guesses + [email];
      }
      assert patterns[..k + 1][..k] == patterns[..k];
    }
    assert patterns[..|patterns|] == patterns;
  }

  /** Every pattern has a literal `@` and no literal `{`. */
  predicate Tame(pattern: seq<Piece>)
  {
    forall k :: 0 <= k < |pattern| && pattern[k].Lit? ==> !HasChar(pattern[k].text, '{')
  }

  predicate HasAtLiteral(pattern: seq<Piece>)
  {
    exists k :: 0 <= k < |pattern| && pattern[k].Lit? && HasChar(pattern[k].text, '@')
  }

  predicate UsesDomain(pattern: seq<Piece>)
  {
    exists k :: 0 <= k < |pattern| && pattern[k] == DomainField
  }

  /** Formatting puts in each field's text, so a `{` in the result comes from a
      literal or from a field that was used, and a literal `@` survives. */
  lemma {:induction false} FormatChars(pattern: seq<Piece>, domain: string, first: string, last: string)
    ensures Tame(pattern) && !HasChar(domain, '{') && !HasChar(first, '{') && !HasChar(last, '{') ==>
      !HasChar(Format(pattern, domain, first, last), '{')
    ensures HasAtLiteral(pattern) ==> HasChar(Format(pattern, domain, first, last), '@')
    ensures UsesDomain(pattern) && HasChar(domain, '{') ==> HasChar(Format(pattern, domain, first, last), '{')
  {
    if pattern != [] {
      var rest := pattern[1..];
      FormatChars(rest, domain, first, last);
      var head := match pattern[0]
        case Lit(text) => text
        case DomainField => domain
        case FirstField => first
        case LastField => last;
      assert Format(pattern, domain, first, last) == head + Format(rest, domain, first, last);
      HasCharConcat(head, Format(rest, domain, first, last), '{');
      HasCharConcat(head, Format(rest, domain, first, last), '@');
      if Tame(pattern) {
        assert Tame(rest) by {
          forall k | 0 <= k < |rest| && rest[k].Lit? ensures !HasChar(rest[k].text, '{') {
            assert rest[k] == pattern[k + 1];
          }
        }
      }
      if HasAtLiteral(pattern) {
        var k :| 0 <= k < |pattern| && pattern[k].Lit? && HasChar(pattern[k].text, '@');
        if k > 0 {
          assert rest[k - 1] == pattern[k];
        }
      }
      if UsesDomain(pattern) {
        var k :| 0 <= k < |pattern| && pattern[k] == DomainField;
        if k > 0 {
          assert rest[k - 1] == pattern[k];
        }
      }
    }
  }

  lemma PatternsShape(k: nat)
    requires k < |EmailPatterns|
    ensures Tame(EmailPatterns[k]) && HasAtLiteral(EmailPatterns[k]) && UsesDomain(EmailPatterns[k])
  {
    var p := EmailPatterns[k];
    var at := if k < 7 then 0 else if k == 7 then 1 else if k == 8 then 3 else 2;
    assert p[at].Lit? && HasChar(p[at].text, '@') by {
      assert p[at].text[|p[at].text| - 1] == '@';
    }
    assert p[|p| - 1] == DomainField;
  }

  /** Without a `{` in the domain or the names, every pattern is kept, in order:
      ten guesses. */
  lemma GuessesComplete(domain: string, first: string, last: string)
    requires !HasChar(domain, '{') && !HasChar(first, '{') && !HasChar(last, '{')
    ensures |Guesses(EmailPatterns, domain, first, last)| == |EmailPatterns| == 10
    ensures forall k :: 0 <= k < 10 ==> Guesses(EmailPatterns, domain, first, last)[k] == Format(EmailPatterns[k], domain, first, last)
  {
    forall k | 0 <= k < |EmailPatterns| ensures Resolved(Format(EmailPatterns[k], domain, first, last)) {
      PatternsShape(k);
      FormatChars(EmailPatterns[k], domain, first, last);
    }
    AllKept(EmailPatterns, domain, first, last);
  }

  lemma {:induction false} AllKept(patterns: seq<seq<Piece>>, domain: string, first: string, last: string)
    requires forall k :: 0 <= k < |patterns| ==> Resolved(Format(patterns[k], domain, first, last))
    ensures |Guesses(patterns, domain, first, last)| == |patterns|
    ensures forall k :: 0 <= k < |patterns| ==> Guesses(patterns, domain, first, last)[k] == Format(patterns[k], domain, first, last)
  {
    if patterns != [] {
      var front := patterns[..|patterns| - 1];
      forall k | 0 <= k < |front| ensures Resolved(Format(front[k], domain, first, last)) {
        assert front[k] == patterns[k];
      }
      AllKept(front, domain, first, last);
    }
  }

  /** Every pattern uses the domain, so a domain holding `{` leaves no guess at all. */
  lemma BraceDomainNoGuesses(domain: string, first: string, last: string)
    requires HasChar(domain, '{')
    ensures Guesses(EmailPatterns, domain, first, last) == []
  {
    forall k | 0 <= k < |EmailPatterns| ensures !Resolved(Format(EmailPatterns[k], domain, first, last)) {
      PatternsShape(k);
      FormatChars(EmailPatterns[k], domain, first, last);
    }
    NoneKept(EmailPatterns, domain, first, last);
  }

  lemma {:induction false} NoneKept(patterns: seq<seq<Piece>>, domain: string, first: string, last: string)
    requires forall k :: 0 <= k < |patterns| ==> !Resolved(Format(patterns[k], domain, first, last))
    ensures Guesses(patterns, domain, first, last) == []
  {
    if patterns != [] {
      var front := patterns[..|patterns| - 1];
      forall k | 0 <= k < |front| ensures !Resolved(Format(front[k], domain, first, last)) {
        assert front[k] == patterns[k];
      }
      NoneKept(front, domain, first, last);
    }
  }

  /** The first seven guesses are the role accounts at the domain, and for a one-word
      name the eighth to tenth are `first@`, `first.@` and `first@` again. */
  lemma GuessTexts(domain: string, first: string)
    ensures forall k :: 0 <= k < 7 ==> Format(EmailPatterns[k], domain, first, "") == RoleAccounts[k] + "@" + domain
    ensures Format(EmailPatterns[7], domain, first, "") == first + "@" + domain
    ensures Format(EmailPatterns[8], domain, first, "") == first + ".@" + domain
    ensures Format(EmailPatterns[9], domain, first, "") == first + "@" + domain
  {
    forall k | 0 <= k < 7 ensures Format(EmailPatterns[k], domain, first, "") == RoleAccounts[k] + "@" + domain {
      RoleFormat(k, domain, first, "");
    }
    var d := [DomainField];
    assert Format(d, domain, first, "") == domain;
    assert EmailPatterns[7][1..] == [Lit("@")] + d;
    assert EmailPatterns[8][3..] == [Lit("@")] + d;
    assert EmailPatterns[9][2..] == [Lit("@")] + d;
    var t := [Lit("@")] + d;
    assert Format(t, domain, first, "") == "@" + domain by {
      assert t[1..] == d;
    }
    var u := [LastField] + t;
    assert u[1..] == t;
    assert Format(u, domain, first, "") == "@" + domain;
    var w := [Lit(".")] + u;
    assert w[1..] == u;
    assert Format(w, domain, first, "") == ".@" + domain;
    assert EmailPatterns[8][1..] == w;
  }

  lemma RoleFormat(k: nat, domain: string, first: string, last: string)
    requires k < 7
    ensures Format(EmailPatterns[k], domain, first, last) == RoleAccounts[k] + "@" + domain
  {
    var p := EmailPatterns[k];
    assert p == [Lit(RoleAccounts[k] + "@"), DomainField] by {
      if k == 0 {
        assert RoleAccounts[0] + "@" == "info@";
      } else if k == 1 {
        assert RoleAccounts[1] + "@" == "contact@";
      } else if k == 2 {
        assert RoleAccounts[2] + "@" == "hello@";
      } else if k == 3 {
        assert RoleAccounts[3] + "@" == "sales@";
      } else if k == 4 {
        assert RoleAccounts[4] + "@" == "support@";
      } else if k == 5 {
        assert RoleAccounts[5] + "@" == "admin@";
      } else {
        assert RoleAccounts[6] + "@" == "office@";
      }
    }
    assert p[1..] == [DomainField];
    assert Format([DomainField], domain, first, last) == domain;
  }

  /** Whenever the ten guesses are all kept, the five that are probed are the role
      accounts `info`, `contact`, `hello`, `sales` and `support` at the domain. */
  lemma ProbedAreRoleAccounts(domain: string, first: string, last: string)
    requires !HasChar(domain, '{') && !HasChar(first, '{') && !HasChar(last, '{')
    ensures |FirstFive(Guesses(EmailPatterns, domain, first, last))| == 5
    ensures forall k :: 0 <= k < 5 ==> FirstFive(Guesses(EmailPatterns, domain, first, last))[k] == RoleAccounts[k] + "@" + domain
  {
    GuessesComplete(domain, first, last);
    forall k | 0 <= k < 5
      ensures FirstFive(Guesses(EmailPatterns, domain, first, last))[k] == RoleAccounts[k] + "@" + domain
    {
      RoleFormat(k, domain, first, last);
    }
  }

  /** The outcome of the decision for one lead. */
  datatype Status = Verified | Unverified | Invalid | NoWebsite | CatchAll | GuessedVerified | GuessedUnverified | Error

  function StatusText(s: Status): string
  {
    match s
    case Verified => "verified"
    case Unverified => "unverified"
    case Invalid => "invalid"
    case NoWebsite => "no_website"
    case CatchAll => "catch_all"
    case GuessedVerified => "guessed_verified"
    case GuessedUnverified => "guessed_unverified"
    case Error => "error"
  }

  /** The two fields `process_lead` writes. */
  datatype Verdict = Verdict(email: Value, status: Status)

  /** The verdict on the lead's own address, from its probe. */
  function PrimaryVerdict(email: string, p: Probe): (v: Verdict)
    ensures v.status == Verified <==> p.valid == Yes
    ensures v.status == Unverified <==> p.valid == Unknown
    ensures v.status == Invalid <==> p.valid == No
    ensures v.email == if p.valid == No then Null else Str(email)
  {
    match p.valid
    case Yes => Verdict(Str(email), Verified)
    case Unknown => Verdict(Str(email), Unverified)
    case No => Verdict(Null, Invalid)
  }

  /** A guess the SMTP probe accepts. */
  predicate Accepted(email: string, mail: Mail)
  {
    var probe := VerifyEmailSmtp(email, None, mail);
    probe.Ok? && probe.value.valid == Yes
  }

  /** The first of `tries` the probe accepts. */
  function FirstAccepted(tries: seq<string>, mail: Mail): (r: Option<nat>)
    ensures r.Some? ==> r.value < |tries| && Accepted(tries[r.value], mail)
    ensures r.Some? ==> forall m :: 0 <= m < r.value ==> !Accepted(tries[m], mail)
    ensures r.None? ==> forall m :: 0 <= m < |tries| ==> !Accepted(tries[m], mail)
  {
    FirstWhere(tries, t => Accepted(t, mail))
  }

  /** The first position of `xs` whose element has `P`. */
  function FirstWhere<T>(xs: seq<T>, P: T -> bool): (r: Option<nat>)
    ensures r.Some? ==> r.value < |xs| && P(xs[r.value])
    ensures r.Some? ==> forall m :: 0 <= m < r.value ==> !P(xs[m])
    ensures r.None? ==> forall m :: 0 <= m < |xs| ==> !P(xs[m])
  {
    if xs == [] then None
    else if P(xs[0]) then Some(0)
    else match FirstWhere(xs[1..], P)
      case None => None
      case Some(m) => Some(m + 1)
  }

  function Min(a: nat, b: nat): nat { if a < b then a else b }

  /** `guesses[:5]`. */
  function FirstFive(guesses: seq<string>): (r: seq<string>)
    ensures |r| == Min(5, |guesses|) && r == guesses[..|r|]
  {
    guesses[..Min(5, |guesses|)]
  }

  /** What `process_lead` decides for a lead, or the exception it lets escape. */
  function Verification(lead: Record, mail: Mail): (r: Result<Verdict, Fault>)
    ensures r.Ok? ==> r.value.status != Error
    ensures r.Ok? ==> (r.value.email == Null <==> r.value.status == Invalid || r.value.status == NoWebsite)
    ensures HasPrimary(lead) && r.Ok? ==> r.value.status in {Verified, Unverified, Invalid}
    ensures !HasPrimary(lead) ==> r.Ok? || r.error.NoAttribute?
  {
    var primary := Get(lead, "primary_email", Null);
    if Truthy(primary) then PrimaryVerification(primary, mail) else GuessVerification(lead, mail)
  }

  /** The decision on a lead's own (truthy) address. */
  function PrimaryVerification(primary: Value, mail: Mail): (r: Result<Verdict, Fault>)
    ensures r.Ok? ==> r.value.status in {Verified, Unverified, Invalid}
    ensures r.Ok? ==> (r.value.email == Null <==> r.value.status == Invalid)
  {
    if !primary.Str? then Err(NoAttribute(TypeName(primary), "split"))
    else match VerifyEmailSmtp(primary.s, None, mail)
      case Err(e) => Err(e)
      case Ok(p) => Ok(PrimaryVerdict(primary.s, p))
  }

  /** The decision for a lead without an address of its own. */
  function GuessVerification(lead: Record, mail: Mail): (r: Result<Verdict, Fault>)
    ensures r.Ok? ==> r.value.status in {NoWebsite, CatchAll, GuessedVerified, GuessedUnverified}
    ensures r.Ok? ==> (r.value.email == Null <==> r.value.status == NoWebsite)
    ensures r.Ok? || r.error.NoAttribute?
  {
    GuessOnDomain(GetDomainFromWebsite(Get(lead, "website", Null)), lead, mail)
  }

  /** The decision on a lead without an address whose website gave `domain`. */
  function GuessOnDomain(domain: Option<string>, lead: Record, mail: Mail): (r: Result<Verdict, Fault>)
    ensures r.Ok? ==> r.value.status in {NoWebsite, CatchAll, GuessedVerified, GuessedUnverified}
    ensures r.Ok? ==> (r.value.email == Null <==> r.value.status == NoWebsite)
    ensures r.Ok? || r.error.NoAttribute?
  {
    if domain.None? || domain.value == "" then Ok(Verdict(Null, NoWebsite))
    else if CheckCatchAll(domain.value, mail) == Yes then Ok(Verdict(Str("info@" + domain.value), CatchAll))
    else match GuessesFor(lead)
      case Err(e) => Err(e)
      case Ok(guesses) => Ok(GuessedVerdict(domain.value, FirstFive(guesses), mail))
  }

  /** The verdict after the guesses: the first accepted one, or `info@` the domain. */
  function GuessedVerdict(domain: string, tries: seq<string>, mail: Mail): (v: Verdict)
    ensures v.status in {GuessedVerified, GuessedUnverified} && v.email.Str?
  {
    match FirstAccepted(tries, mail)
    case Some(k) => Verdict(Str(tries[k]), GuessedVerified)
    case None => Verdict(Str("info@" + domain), GuessedUnverified)
  }

  /** The guesses the loop of `process_lead` probes: up to and including the first
      accepted one, or all of them. */
  function ProbedGuesses(tries: seq<string>, mail: Mail): (r: seq<string>)
    ensures r <= tries
  {
    match FirstAccepted(tries, mail)
    case Some(k) => tries[..k + 1]
    case None => tries
  }

  /** The loop stops at the first accepted guess: every guess probed before the last
      one was refused or left open, and the last one is accepted unless all were tried. */
  lemma ProbedGuessesStop(tries: seq<string>, mail: Mail)
    ensures var r := ProbedGuesses(tries, mail);
      && (forall m :: 0 <= m < |r| - 1 ==> !Accepted(r[m], mail))
      && (r != tries ==> r != [] && Accepted(r[|r| - 1], mail))
      && (FirstAccepted(tries, mail).Some? <==> r != [] && Accepted(r[|r| - 1], mail))
  {
  }

  /** The addresses `process_lead` probes with `verify_email_smtp`, in order; a
      lead's own address without an `@` makes that call raise and is not listed. */
  function Probes(lead: Record, mail: Mail): seq<string>
  {
    var primary := Get(lead, "primary_email", Null);
    if Truthy(primary) then
      if primary.Str? && HasChar(primary.s, '@') then [primary.s] else []
    else GuessProbes(lead, mail)
  }

  function GuessProbes(lead: Record, mail: Mail): seq<string>
  {
    var domain := GetDomainFromWebsite(Get(lead, "website", Null));
    if domain.None? || domain.value == "" then []
    else if CheckCatchAll(domain.value, mail) == Yes then [FakeAddress(domain.value)]
    else match GuessesFor(lead)
      case Err(_) => [FakeAddress(domain.value)]
      case Ok(guesses) => [FakeAddress(domain.value)] + ProbedGuesses(FirstFive(guesses), mail)
  }

  /** The lead with the verdict's two fields set. */
  function Applied(lead: Record, v: Verdict): Record
  {
    lead["verified_email" := v.email]["email_status" := Str(StatusText(v.status))]
  }

  /** A verdict writes only `verified_email` and `email_status`. */
  lemma AppliedFields(lead: Record, v: Verdict)
    ensures var r := Applied(lead, v);
      && r.Keys == lead.Keys + {"verified_email", "email_status"}
      && r["verified_email"] == v.email && r["email_status"] == Str(StatusText(v.status))
      && forall key :: key in lead && key != "verified_email" && key != "email_status" ==> r[key] == lead[key]
  {
  }

  /** `process_lead`; `probed` lists the addresses probed, in order. */
  method ProcessLead(lead: Record, mail: Mail) returns (r: Result<Record, Fault>, probed: seq<string>)
    ensures match Verification(lead, mail)
      case Err(e) => r == Err(e)
      case Ok(v) => r == Ok(Applied(lead, v))
    ensures probed == Probes(lead, mail)
  {
    var primary := Get(lead, "primary_email", Null);
    if Truthy(primary) {
      r, probed := ProcessPrimary(lead, primary, mail);
    } else {
      r, probed := ProcessGuesses(lead, mail);
    }
  }

  /** The branch of `process_lead` for a lead that has its own address. */
  method ProcessPrimary(lead: Record, primary: Value, mail: Mail) returns (r: Result<Record, Fault>, probed: seq<string>)
    ensures match PrimaryVerification(primary, mail)
      case Err(e) => r == Err(e)
      case Ok(v) => r == Ok(Applied(lead, v))
    ensures probed == if primary.Str? && HasChar(primary.s, '@') then [primary.s] else []
  {
    if !primary.Str? {
      return Err(NoAttribute(TypeName(primary), "split")), [];
    }
    var email := primary.s;
    var result := VerifyEmailSmtp(email, None, mail);
    if result.Err? {
      return Err(result.error), [];
    }
    probed := [email];
    match result.value.valid {
      case Yes => r := Ok(Applied(lead, Verdict(Str(email), Verified)));
      case Unknown => r := Ok(Applied(lead, Verdict(Str(email), Unverified)));
      case No => r := Ok(Applied(lead, Verdict(Null, Invalid)));
    }
  }

  /** The branch of `process_lead` for a lead without an address of its own. */
  method ProcessGuesses(lead: Record, mail: Mail) returns (r: Result<Record, Fault>, probed: seq<string>)
    ensures match GuessVerification(lead, mail)
      case Err(e) => r == Err(e)
      case Ok(v) => r == Ok(Applied(lead, v))
    ensures probed == GuessProbes(lead, mail)
  {
    var domain := GetDomainFromWebsite(Get(lead, "website", Null));
    if domain.None? || domain.value == "" {
      return Ok(Applied(lead, Verdict(Null, NoWebsite))), [];
    }
    var d := domain.value;
    var isCatchAll := CheckCatchAll(d, mail);
    if isCatchAll == Yes {
      return Ok(Applied(lead, Verdict(Str("info@" + d), CatchAll))), [FakeAddress(d)];
    }
    var guesses := GenerateEmailGuesses(lead);
    if guesses.Err? {
      return Err(guesses.error), [FakeAddress(d)];
    }
    var tries := FirstFive(guesses.value);
    FirstFiveHaveAt(guesses.value, tries);
    var accepted, tried := TryGuesses(tries, mail);
    probed := [FakeAddress(d)] + tried;
    var verdict := match accepted
      case Some(k) => Verdict(Str(tries[k]), GuessedVerified)
      case None => Verdict(Str("info@" + d), GuessedUnverified);
    r := Ok(Applied(lead, verdict));
  }

  /** Every guess probed has an `@`, so probing it cannot raise. */
  lemma FirstFiveHaveAt(guesses: seq<string>, tries: seq<string>)
    requires forall k :: 0 <= k < |guesses| ==> Resolved(guesses[k])
    requires tries == FirstFive(guesses)
    ensures forall k :: 0 <= k < |tries| ==> HasChar(tries[k], '@')
  {
    assert forall k :: 0 <= k < |tries| ==> tries[k] == guesses[k];
  }

  /** `for guess in guesses[:5]`: each guess is probed in turn and the first one the
      server accepts ends the loop. */
  method TryGuesses(tries: seq<string>, mail: Mail) returns (accepted: Option<nat>, probed: seq<string>)
    requires forall k :: 0 <= k < |tries| ==> HasChar(tries[k], '@')
    ensures accepted == FirstAccepted(tries, mail)
    ensures probed == ProbedGuesses(tries, mail)
  {
    probed := [];
    var k := 0;
    while k < |tries|
      invariant 0 <= k <= |tries|
      invariant probed == tries[..k]
      invariant forall m :: 0 <= m < k ==> !Accepted(tries[m], mail)
    {
      var guess := tries[k];
      var result := VerifyEmailSmtp(guess, None, mail);
      probed := probed + [guess];
      if result.value.valid == Yes {
        assert Accepted(guess, mail);
        StopsAt(tries, k, mail, probed);
        return Some(k), probed;
      }
      assert !Accepted(guess, mail);
      RefusedStep(tries, k, mail);
      k := k + 1;
    }
    NoneAccepted(tries, mail, probed);
    accepted := None;
  }

  /** The loop leaves at the first accepted guess with every guess up to it probed. */
  lemma StopsAt(tries: seq<string>, k: nat, mail: Mail, probed: seq<string>)
    requires k < |tries| && Accepted(tries[k], mail)
    requires forall m :: 0 <= m < k ==> !Accepted(tries[m], mail)
    requires probed == tries[..k] + [tries[k]]
    ensures FirstAccepted(tries, mail) == Some(k)
    ensures probed == ProbedGuesses(tries, mail)
  {
    FirstAcceptedAt(tries, k, mail);
    assert tries[..k + 1] == tries[..k] + [tries[k]];
  }

  /** A guess the loop passes over was not accepted. */
  lemma RefusedStep(tries: seq<string>, k: nat, mail: Mail)
    requires k < |tries| && !Accepted(tries[k], mail)
    requires forall m :: 0 <= m < k ==> !Accepted(tries[m], mail)
    ensures forall m :: 0 <= m < k + 1 ==> !Accepted(tries[m], mail)
  {
  }

  /** A loop that ran to the end probed every guess and accepted none. */
  lemma NoneAccepted(tries: seq<string>, mail: Mail, probed: seq<string>)
    requires forall m :: 0 <= m < |tries| ==> !Accepted(tries[m], mail)
    requires probed == tries[..|tries|]
    ensures FirstAccepted(tries, mail) == None
    ensures probed == ProbedGuesses(tries, mail)
  {
    assert tries[..|tries|] == tries;
  }

  /** The first accepted guess is the one accepted after only refusals. */
  lemma FirstAcceptedAt(tries: seq<string>, k: nat, mail: Mail)
    requires k < |tries| && Accepted(tries[k], mail)
    requires forall m :: 0 <= m < k ==> !Accepted(tries[m], mail)
    ensures FirstAccepted(tries, mail) == Some(k)
  {
    var r := FirstAccepted(tries, mail);
    assert r.Some? && r.value <= k;
  }

  predicate HasPrimary(lead: Record)
  {
    Truthy(Get(lead, "primary_email", Null))
  }

  /** A lead's own address is kept unless its probe says `False`; it is then dropped,
      and this covers a missing MX record and a connection failure. */
  lemma PrimaryOutcome(lead: Record, mail: Mail)
    requires HasPrimary(lead)
    ensures var primary := Get(lead, "primary_email", Null);
      Verification(lead, mail).Ok? <==> primary.Str? && HasChar(primary.s, '@')
    ensures Verification(lead, mail).Ok? ==>
      var email := Get(lead, "primary_email", Null).s;
      var v := Verification(lead, mail).value;
      var p := VerifyEmailSmtp(email, None, mail).value;
      && (v.status == Verified <==> p.valid == Yes)
      && (v.status == Unverified <==> p.valid == Unknown)
      && (v.status != Invalid ==> v.email == Str(email))
      && (FirstHost(email, mail).None? ==> v.status == Invalid)
      && Probes(lead, mail) == [email]
  {
  }

  /** A connection that fails before the RCPT reply makes the lead's own address invalid. */
  lemma ConnectionFailureInvalid(lead: Record, mail: Mail, f: SmtpFailure)
    requires HasPrimary(lead)
    requires var primary := Get(lead, "primary_email", Null);
      primary.Str? && HasChar(primary.s, '@')
    requires var email := Get(lead, "primary_email", Null).s;
      exists host :: FirstHost(email, mail) == Some(host) && mail.session(host, email) == FailedBeforeReply(f)
    ensures Verification(lead, mail) == Ok(Verdict(Null, Invalid))
  {
    var email := Get(lead, "primary_email", Null).s;
    ProbeVerdict(email, mail);
  }

  /** Without its own address and without a usable domain, a lead is `no_website`
      and no server is contacted. */
  lemma NoWebsiteNoProbe(lead: Record, mail: Mail)
    requires !HasPrimary(lead)
    requires var d := GetDomainFromWebsite(Get(lead, "website", Null)); d.None? || d.value == ""
    ensures Verification(lead, mail) == Ok(Verdict(Null, NoWebsite))
    ensures Probes(lead, mail) == []
  {
  }

  /** A lead without its own address whose website's host holds a character that
      NFKC turns into a delimiter gets `no_website`: the ValueError of `urlparse` is
      caught and no server is contacted. */
  lemma NfkcWebsiteNoProbe(lead: Record, mail: Mail, host: string, k: nat)
    requires !HasPrimary(lead)
    requires Printable(host) && NoneOf(host, {'/', '?', '#', '[', ']'})
    requires k < |host| && host[k] in NfkcDelimiters
    requires Get(lead, "website", Null) == Str("https://" + host)
    ensures Verification(lead, mail) == Ok(Verdict(Null, NoWebsite))
    ensures Probes(lead, mail) == []
  {
    NfkcHostRejected(host, [], k);
    assert "https://" + host + [] == "https://" + host;
    NoWebsiteNoProbe(lead, mail);
  }

  /** `catch_all` is set exactly when the server accepts the made-up address, and
      it then proposes `info@` the domain after that one probe. */
  lemma CatchAllOutcome(lead: Record, mail: Mail)
    requires !HasPrimary(lead)
    ensures Verification(lead, mail).Ok? && Verification(lead, mail).value.status == CatchAll <==>
      var d := GetDomainFromWebsite(Get(lead, "website", Null));
      d.Some? && d.value != "" && Accepted(FakeAddress(d.value), mail)
    ensures Verification(lead, mail).Ok? && Verification(lead, mail).value.status == CatchAll ==>
      var d := GetDomainFromWebsite(Get(lead, "website", Null)).value;
      Verification(lead, mail).value.email == Str("info@" + d) && Probes(lead, mail) == [FakeAddress(d)]
  {
    var d := GetDomainFromWebsite(Get(lead, "website", Null));
    if d.Some? && d.value != "" {
      assert CheckCatchAll(d.value, mail) == Yes <==> Accepted(FakeAddress(d.value), mail);
    }
    if d.Some? && d.value != "" && CheckCatchAll(d.value, mail) == Yes {
      CatchAllBranch(lead, mail, d.value);
    } else {
      NotCatchAllBranch(lead, mail, d);
    }
  }

  lemma CatchAllBranch(lead: Record, mail: Mail, d: string)
    requires !HasPrimary(lead)
    requires GetDomainFromWebsite(Get(lead, "website", Null)) == Some(d) && d != ""
    requires CheckCatchAll(d, mail) == Yes
    ensures Verification(lead, mail) == Ok(Verdict(Str("info@" + d), CatchAll))
    ensures Probes(lead, mail) == [FakeAddress(d)]
  {
    assert Verification(lead, mail) == GuessVerification(lead, mail);
    assert Probes(lead, mail) == GuessProbes(lead, mail);
  }

  lemma NotCatchAllBranch(lead: Record, mail: Mail, d: Option<string>)
    requires !HasPrimary(lead)
    requires GetDomainFromWebsite(Get(lead, "website", Null)) == d
    requires !(d.Some? && d.value != "" && CheckCatchAll(d.value, mail) == Yes)
    ensures !(Verification(lead, mail).Ok? && Verification(lead, mail).value.status == CatchAll)
  {
    assert Verification(lead, mail) == GuessVerification(lead, mail);
    assert GuessVerification(lead, mail) == GuessOnDomain(d, lead, mail);
    NotCatchAllOn(d, lead, mail);
  }

  lemma NotCatchAllOn(d: Option<string>, lead: Record, mail: Mail)
    requires !(d.Some? && d.value != "" && CheckCatchAll(d.value, mail) == Yes)
    ensures !(GuessOnDomain(d, lead, mail).Ok? && GuessOnDomain(d, lead, mail).value.status == CatchAll)
  {
    if d.Some? && d.value != "" {
      match GuessesFor(lead)
      case Err(e) =>
        assert GuessOnDomain(d, lead, mail) == Err(e);
      case Ok(guesses) =>
        var v := GuessedVerdict(d.value, FirstFive(guesses), mail);
        assert GuessOnDomain(d, lead, mail) == Ok(v);
        assert v.status != CatchAll;
    }
  }


  /** `guessed_verified` names the first of the first five guesses the server
      accepts; the made-up address and every guess before it were probed first. */
  lemma GuessedVerifiedIsFirstAccepted(lead: Record, mail: Mail)
    requires Verification(lead, mail).Ok? && Verification(lead, mail).value.status == GuessedVerified
    ensures GuessesFor(lead).Ok? && GetDomainFromWebsite(Get(lead, "website", Null)).Some?
    ensures var tries := FirstFive(GuessesFor(lead).value);
      var d := GetDomainFromWebsite(Get(lead, "website", Null)).value;
      exists k :: 0 <= k < |tries| && Verification(lead, mail).value.email == Str(tries[k])
        && Accepted(tries[k], mail) && (forall m :: 0 <= m < k ==> !Accepted(tries[m], mail))
        && Probes(lead, mail) == [FakeAddress(d)] + tries[..k + 1]
  {
    GuessBranch(lead, mail);
    var d := GetDomainFromWebsite(Get(lead, "website", Null)).value;
    var tries := FirstFive(GuessesFor(lead).value);
    var v := Verification(lead, mail).value;
    assert v == GuessedVerdict(d, tries, mail);
    FirstAcceptedNamed(v, Probes(lead, mail), d, tries, mail);
  }

  lemma FirstAcceptedNamed(v: Verdict, probes: seq<string>, domain: string, tries: seq<string>, mail: Mail)
    requires v == GuessedVerdict(domain, tries, mail) && v.status == GuessedVerified
    requires probes == [FakeAddress(domain)] + ProbedGuesses(tries, mail)
    ensures
      exists k :: 0 <= k < |tries| && v.email == Str(tries[k])
        && Accepted(tries[k], mail) && (forall m :: 0 <= m < k ==> !Accepted(tries[m], mail))
        && probes == [FakeAddress(domain)] + tries[..k + 1]
  {
    var k := FirstAccepted(tries, mail).value;
    assert v.email == Str(tries[k]);
  }

  /** A verdict from the guesses comes from `GuessedVerdict`, after a usable domain
      that is not catch-all and a successful `generate_email_guesses`. */
  lemma GuessBranch(lead: Record, mail: Mail)
    requires Verification(lead, mail).Ok?
    requires Verification(lead, mail).value.status in {GuessedVerified, GuessedUnverified}
    ensures !HasPrimary(lead) && GuessesFor(lead).Ok?
    ensures var d := GetDomainFromWebsite(Get(lead, "website", Null));
      && d.Some? && d.value != "" && CheckCatchAll(d.value, mail) != Yes
      && var tries := FirstFive(GuessesFor(lead).value);
      && Verification(lead, mail).value == GuessedVerdict(d.value, tries, mail)
      && Probes(lead, mail) == [FakeAddress(d.value)] + ProbedGuesses(tries, mail)
  {
    assert !HasPrimary(lead);
    assert Verification(lead, mail) == GuessVerification(lead, mail);
  }

  /** Without an accepted guess the lead gets `guessed_unverified` with `info@` the
      domain, after all of the first five guesses were probed. */
  lemma GuessedUnverifiedTriedAll(lead: Record, mail: Mail)
    requires Verification(lead, mail).Ok? && Verification(lead, mail).value.status == GuessedUnverified
    ensures GuessesFor(lead).Ok?
    ensures var tries := FirstFive(GuessesFor(lead).value);
      var d := GetDomainFromWebsite(Get(lead, "website", Null)).value;
      && (forall m :: 0 <= m < |tries| ==> !Accepted(tries[m], mail))
      && Verification(lead, mail).value.email == Str("info@" + d)
      && Probes(lead, mail) == [FakeAddress(d)] + tries
  {
    GuessBranch(lead, mail);
    var d := GetDomainFromWebsite(Get(lead, "website", Null)).value;
    var tries := FirstFive(GuessesFor(lead).value);
    UnverifiedVerdict(d, tries, mail);
  }

  /** A `guessed_unverified` verdict comes from guesses none of which was accepted. */
  lemma UnverifiedVerdict(d: string, tries: seq<string>, mail: Mail)
    requires GuessedVerdict(d, tries, mail).status == GuessedUnverified
    ensures forall m :: 0 <= m < |tries| ==> !Accepted(tries[m], mail)
    ensures GuessedVerdict(d, tries, mail).email == Str("info@" + d)
    ensures ProbedGuesses(tries, mail) == tries
  {
    assert FirstAccepted(tries, mail).None?;
  }

  /** The record `verify_all_leads` keeps for a lead whose task raised `e`. */
  function ErrorRecord(lead: Record, e: Fault): Record
  {
    lead["verified_email" := Null]["email_status" := Str("error")]["verification_error" := Str(e.Message())]
  }

  /** A failed task writes `None`, `error` and the error text, and nothing else. */
  lemma ErrorRecordFields(lead: Record, e: Fault)
    ensures var r := ErrorRecord(lead, e);
      && r.Keys == lead.Keys + {"verified_email", "email_status", "verification_error"}
      && r["verified_email"] == Null && r["email_status"] == Str("error")
      && r["verification_error"] == Str(e.Message())
      && forall key :: key in lead && key !in {"verified_email", "email_status", "verification_error"} ==> r[key] == lead[key]
  {
  }

  /** The record carries one of the eight status texts. */
  predicate HasStatus(r: Record)
  {
    exists st :: StatusOf(r) == Str(StatusText(st))
  }

  /** The record `verify_all_leads` collects for a lead whose task ended with `res`. */
  function OutcomeOf(lead: Record, res: Result<Verdict, Fault>): Record
  {
    match res
    case Ok(v) => Applied(lead, v)
    case Err(e) => ErrorRecord(lead, e)
  }

  /** The record `verify_all_leads` collects for `lead`. */
  function Outcome(lead: Record, mail: Mail): Record
  {
    OutcomeOf(lead, Verification(lead, mail))
  }

  /** Every collected record carries one of the status texts and keeps the lead's
      other fields. */
  lemma OutcomeFields(lead: Record, mail: Mail)
    ensures var r := Outcome(lead, mail);
      && HasStatus(r)
      && lead.Keys + {"verified_email", "email_status"} <= r.Keys
      && forall key :: key in lead && key !in {"verified_email", "email_status", "verification_error"} ==> r[key] == lead[key]
  {
    var res := Verification(lead, mail);
    assert Outcome(lead, mail) == OutcomeOf(lead, res);
    OutcomeOfFields(lead, res);
  }

  lemma OutcomeOfFields(lead: Record, res: Result<Verdict, Fault>)
    ensures var r := OutcomeOf(lead, res);
      && HasStatus(r)
      && lead.Keys + {"verified_email", "email_status"} <= r.Keys
      && forall key :: key in lead && key !in {"verified_email", "email_status", "verification_error"} ==> r[key] == lead[key]
  {
    match res
    case Ok(v) =>
      AppliedFields(lead, v);
      assert StatusOf(Applied(lead, v)) == Str(StatusText(v.status));
    case Err(e) =>
      ErrorRecordFields(lead, e);
      assert StatusOf(ErrorRecord(lead, e)) == Str(StatusText(Error));
  }

  /** `verify_all_leads`, sequentialised: the `k`-th result is the record of the lead
      whose task finished `k`-th. */
  method VerifyAllLeads(leads: seq<Record>, order: seq<nat>, mail: Mail) returns (results: seq<Record>)
    requires IsCompletionOrder(order, |leads|)
    ensures |results| == |leads|
    ensures forall k :: 0 <= k < |results| ==> results[k] == Outcome(leads[order[k]], mail)
  {
    ghost var done := (m: nat, r: Record) => m < |order| && order[m] < |leads| && r == Outcome(leads[order[m]], mail);
    results := [];
    var k := 0;
    while k < |order|
      invariant 0 <= k <= |order|
      invariant |results| == k
      invariant forall m :: 0 <= m < k ==> done(m, results[m])
    {
      var record := FinishTask(leads[order[k]], mail);
      assert done(k, record);
      AllExtend(done, results, record);
      results := results + [record];
      k := k + 1;
    }
    forall m | 0 <= m < |results| ensures results[m] == Outcome(leads[order[m]], mail) {
      assert done(m, results[m]);
    }
  }

  /** The handler of one finished task: the verified lead, or the lead marked
      `error` with the exception's text. */
  method FinishTask(lead: Record, mail: Mail) returns (record: Record)
    ensures record == Outcome(lead, mail)
  {
    var result, _ := ProcessLead(lead, mail);
    if result.Ok? {
      record := result.value;
    } else {
      record := ErrorRecord(lead, result.error);
    }
  }

  /** The status of a result, for the statistics. */
  function StatusOf(r: Record): Value
  {
    Get(r, "email_status", Null)
  }

  /** `sum(1 for r in results if test(r))`. */
  function Count(results: seq<Record>, test: Record -> bool): (n: nat)
    ensures n <= |results|
  {
    if results == [] then 0
    else Count(results[..|results| - 1], test) + (if test(results[|results| - 1]) then 1 else 0)
  }

  predicate IsVerified(r: Record) { StatusOf(r) in {Str("verified"), Str("guessed_verified")} }

  predicate IsCatchAll(r: Record) { StatusOf(r) == Str("catch_all") }

  /** `'unverified' in r.get('email_status', '')`; a status that is not text would raise. */
  predicate IsUnverified(r: Record)
  {
    var s := Get(r, "email_status", Str(""));
    s.Str? && Contains(s.s, "unverified")
  }

  predicate IsNoEmail(r: Record) { StatusOf(r) in {Str("no_website"), Str("invalid"), Str("error")} }

  /** Each status text falls in exactly one of the four statistics, and which one
      is read off the status: the substring test puts `guessed_unverified` with
      `unverified`. */
  lemma OneBucket(r: Record, st: Status)
    requires StatusOf(r) == Str(StatusText(st))
    ensures IsVerified(r) <==> st == Verified || st == GuessedVerified
    ensures IsCatchAll(r) <==> st == CatchAll
    ensures IsUnverified(r) <==> st == Unverified || st == GuessedUnverified
    ensures IsNoEmail(r) <==> st == NoWebsite || st == Invalid || st == Error
  {
    var s := StatusText(st);
    assert Get(r, "email_status", Str("")) == StatusOf(r);
    match st
    case Unverified =>
      assert s[0..|"unverified"|] == s == "unverified";
      assert OccursAt(s, "unverified", 0);
    case GuessedUnverified =>
      assert s[8..18] == "unverified";
      assert OccursAt(s, "unverified", 8);
    case GuessedVerified =>
      assert !HasChar(s, 'n');
      NotContainsByChar(s, "unverified", 1);
    case CatchAll =>
      assert !HasChar(s, 'n');
      NotContainsByChar(s, "unverified", 1);
    case NoWebsite =>
      assert !HasChar(s, 'u');
      NotContainsByChar(s, "unverified", 0);
    case Invalid =>
      assert !HasChar(s, 'u');
      NotContainsByChar(s, "unverified", 0);
    case Verified =>
      assert |s| < |"unverified"|;
    case Error =>
      assert |s| < |"unverified"|;
  }

  /** The four statistics of a batch add up to the number of results. */
  lemma {:induction false} StatsPartition(results: seq<Record>)
    requires forall k :: 0 <= k < |results| ==> HasStatus(results[k])
    ensures Count(results, IsVerified) + Count(results, IsCatchAll) + Count(results, IsUnverified)
      + Count(results, IsNoEmail) == |results|
  {
    if results != [] {
      var front := results[..|results| - 1];
      forall k | 0 <= k < |front| ensures HasStatus(front[k]) {
        assert front[k] == results[k];
      }
      StatsPartition(front);
      var last := results[|results| - 1];
      assert HasStatus(last);
      var st :| StatusOf(last) == Str(StatusText(st));
      OneBucket(last, st);
    }
  }

  /** Every record of `verify_all_leads` carries one of the eight status texts, so the
      statistics it prints cover each result once. */
  lemma BatchStats(leads: seq<Record>, order: seq<nat>, mail: Mail, results: seq<Record>)
    requires |results| <= |order|
    requires forall k :: 0 <= k < |results| ==> order[k] < |leads|
    requires forall k :: 0 <= k < |results| ==> results[k] == Outcome(leads[order[k]], mail)
    ensures Count(results, IsVerified) + Count(results, IsCatchAll) + Count(results, IsUnverified)
      + Count(results, IsNoEmail) == |results|
  {
    forall k | 0 <= k < |results| ensures HasStatus(results[k]) {
      OutcomeFields(leads[order[k]], mail);
    }
    StatsPartition(results);
  }

  /** Every lead of a batch has its record among the results. */
  lemma EveryLeadVerified(leads: seq<Record>, order: seq<nat>, mail: Mail, results: seq<Record>, i: nat)
    requires IsCompletionOrder(order, |leads|) && |results| == |leads|
    requires forall k :: 0 <= k < |results| ==> results[k] == Outcome(leads[order[k]], mail)
    requires i < |leads|
    ensures exists k :: 0 <= k < |results| && results[k] == Outcome(leads[i], mail)
  {
    CompletionOrderCovers(order, |leads|, i);
    var k :| 0 <= k < |leads| && order[k] == i;
    assert results[k] == Outcome(leads[order[k]], mail);
  }
}
