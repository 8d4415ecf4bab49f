/**
 * The part of Python's `urllib.parse` that the crawler and the verifier use:
 * `urlsplit` and `urlparse` as CPython 3.12 defines them (leading C0/space
 * stripped, tab and newline characters dropped, the scheme rule, the `//`
 * authority split, fragment, query and `;` parameters, the ValueError for
 * an unbalanced IPv6 bracket, and the ValueError of `_checknetloc` for a
 * non-ASCII netloc that NFKC normalisation gives a delimiter).
 */
module Urls {
  import opened Values
  import opened Text

  datatype SplitUrl = SplitUrl(scheme: string, netloc: string, path: string, query: string, fragment: string)

  datatype ParsedUrl = ParsedUrl(scheme: string, netloc: string, path: string, params: string, query: string, fragment: string)

  predicate IsAsciiLetter(c: char) { 'A' <= c <= 'Z' || 'a' <= c <= 'z' }

  predicate IsDigit(c: char) { '0' <= c <= '9' }

  /** `urllib.parse.scheme_chars`. */
  predicate IsSchemeChar(c: char) { IsAsciiLetter(c) || IsDigit(c) || c == '+' || c == '-' || c == '.' }

  predicate AllSchemeChars(s: string) { forall i :: 0 <= i < |s| ==> IsSchemeChar(s[i]) }

  /** `_WHATWG_C0_CONTROL_OR_SPACE`. */
  predicate IsC0OrSpace(c: char) { c <= ' ' }

  /** `_UNSAFE_URL_BYTES_TO_REMOVE`. */
  predicate IsUnsafe(c: char) { c == '\t' || c == '\r' || c == '\n' }

  function LStripC0(s: string): (r: string)
    ensures |r| <= |s| && r == s[|s| - |r|..]
    ensures r == [] || !IsC0OrSpace(r[0])
  {
    if s != [] && IsC0OrSpace(s[0]) then LStripC0(s[1..]) else s
  }

  function RemoveUnsafe(s: string): (r: string)
    ensures forall i :: 0 <= i < |r| ==> !IsUnsafe(r[i])
  {
    if s == [] then []
    else if IsUnsafe(s[0]) then RemoveUnsafe(s[1..])
    else [s[0]] + RemoveUnsafe(s[1..])
  }

  lemma {:induction false} RemoveUnsafeKeeps(s: string)
    requires forall i :: 0 <= i < |s| ==> !IsUnsafe(s[i])
    ensures RemoveUnsafe(s) == s
  {
    if s != [] {
      RemoveUnsafeKeeps(s[1..]);
    }
  }

  lemma {:induction false} RemoveUnsafeAppend(a: string, b: string)
    requires forall i :: 0 <= i < |a| ==> !IsUnsafe(a[i])
    ensures RemoveUnsafe(a + b) == a + RemoveUnsafe(b)
  {
    if a == [] {
      assert a + b == b;
    } else {
      assert (a + b)[0] == a[0];
      assert (a + b)[1..] == a[1..] + b;
      RemoveUnsafeAppend(a[1..], b);
    }
  }

  /** The scheme rule of `urlsplit`: the text before the first `:` is the scheme
      when it is non-empty, starts with an ASCII letter and has only scheme characters. */
  function SplitScheme(u: string): (r: (string, string))
  {
    var i := FindAny(u, {':'}, 0);
    if 0 < i < |u| && IsAsciiLetter(u[0]) && AllSchemeChars(u[..i]) then (Lower(u[..i]), u[i + 1..])
    else ("", u)
  }

  predicate UnbalancedBrackets(netloc: string)
  {
    HasChar(netloc, '[') != HasChar(netloc, ']')
  }

  predicate IsAscii(s: string)
  {
    forall i :: 0 <= i < |s| ==> s[i] < '\U{80}'
  }

  /** Characters whose NFKC compatibility form holds one of `/ ? # @ :`: the
      fullwidth, small and vertical forms of those five, the account-of signs
      `℀ ℁ ℅ ℆` and the double punctuation `⁇ ⁈ ⁉`. */
  const NfkcDelimiters: set<char> := {
    '\U{FF0F}', '\U{FF1F}', '\U{FF03}', '\U{FF20}', '\U{FF1A}',
    '\U{FE56}', '\U{FE5F}', '\U{FE6B}', '\U{FE55}',
    '\U{FE16}', '\U{FE13}',
    '\U{2100}', '\U{2101}', '\U{2105}', '\U{2106}',
    '\U{2047}', '\U{2048}', '\U{2049}'
  }

  /** The test of `_checknetloc(netloc)`: an empty or ASCII netloc passes at once;
      otherwise, with `@ : # ?` removed, a netloc whose NFKC form holds one of
      `/ ? # @ :` fails, which is the case when it holds a character of
      `NfkcDelimiters`. */
  predicate NfkcUnsafe(netloc: string)
  {
    !IsAscii(netloc) && exists i :: 0 <= i < |netloc| && netloc[i] in NfkcDelimiters
  }

  /** The text `urlsplit` works on: leading C0/space stripped, then tabs and newlines removed. */
  function Prepared(url: string): string
  {
    RemoveUnsafe(LStripC0(url))
  }

  /** `_splitnetloc(rest, 2)` when `rest` starts with `//`; otherwise no authority. */
  function SplitNetloc(rest: string): (r: (string, string))
    ensures NoneOf(r.0, {'/', '?', '#'})
  {
    if "//" <= rest then
      var delim := FindAny(rest, {'/', '?', '#'}, 2);
      (rest[2..delim], rest[delim..])
    else ("", rest)
  }

  /** `s.split(c, 1)` read as (before, after); `(s, "")` when `c` does not occur. */
  function SplitOnce(s: string, c: char): (r: (string, string))
    ensures !HasChar(r.0, c)
  {
    var i := FindAny(s, {c}, 0);
    if i < |s| then (s[..i], s[i + 1..]) else (s, "")
  }

  /** `urlsplit(url)`. */
  function UrlSplit(url: string): (r: Result<SplitUrl, Fault>)
    ensures r.Err? ==> r.error == InvalidIpv6Url || r.error.NetlocNfkc?
    ensures r.Ok? ==> !UnbalancedBrackets(r.value.netloc) && !NfkcUnsafe(r.value.netloc)
  {
    var scheme := SplitScheme(Prepared(url));
    var authority := SplitNetloc(scheme.1);
    if UnbalancedBrackets(authority.0) then Err(InvalidIpv6Url)
    else
      var fragment := SplitOnce(authority.1, '#');
      var query := SplitOnce(fragment.0, '?');
      if NfkcUnsafe(authority.0) then Err(NetlocNfkc(authority.0))
      else Ok(SplitUrl(scheme.0, authority.0, query.0, query.1, fragment.1))
  }

  /** `urllib.parse.uses_params`. */
  const UsesParams: seq<string> :=
    ["", "ftp", "hdl", "prospero", "http", "imap", "https", "shttp", "rtsp", "rtsps", "rtspu",
     "sip", "sips", "mms", "sftp", "tel"]

  /** `_splitparams(path)`, applied only when `path` holds a `;`. */
  function SplitParams(path: string): (string, string)
  {
    var slash := RFind(path, '/');
    var i := if slash >= 0 then FindAny(path, {';'}, slash) else FindAny(path, {';'}, 0);
    if i < |path| then (path[..i], path[i + 1..]) else (path, "")
  }

  /** `urlparse(url)`. */
  function UrlParse(url: string): (r: Result<ParsedUrl, Fault>)
    ensures r.Ok? == UrlSplit(url).Ok?
    ensures r.Ok? ==> r.value.scheme == UrlSplit(url).value.scheme && r.value.netloc == UrlSplit(url).value.netloc
  {
    match UrlSplit(url)
    case Err(e) => Err(e)
    case Ok(p) =>
      if p.scheme in UsesParams && HasChar(p.path, ';') then
        var (path, params) := SplitParams(p.path);
        Ok(ParsedUrl(p.scheme, p.netloc, path, params, p.query, p.fragment))
      else Ok(ParsedUrl(p.scheme, p.netloc, p.path, "", p.query, p.fragment))
  }

  predicate NoneOf(s: string, cs: set<char>)
  {
    forall i :: 0 <= i < |s| ==> s[i] !in cs
  }

  predicate Printable(s: string)
  {
    forall i :: 0 <= i < |s| ==> !IsC0OrSpace(s[i])
  }

  /** The scheme rule on a text that starts with `http://` or `https://`. */
  lemma HttpSchemeSplit(u: string, p: string)
    requires p == "http://" || p == "https://"
    requires p <= u
    ensures SplitScheme(u).0 == p[..|p| - 3]
    ensures SplitScheme(u).1 == u[|p| - 2..]
  {
    var n := |p| - 3;
    assert u[n] == ':';
    forall i | 0 <= i < n ensures u[i] != ':' && IsSchemeChar(u[i]) && !IsUpper(u[i]) {
      assert u[i] == p[i];
    }
    var i := FindAny(u, {':'}, 0);
    assert i == n;
    assert u[..n] == p[..n];
    LowerKeeps(u[..n]);
  }

  /** Preparing a URL keeps an `http://` or `https://` prefix in place. */
  lemma PreparedKeepsPrefix(url: string, p: string)
    requires p == "http://" || p == "https://"
    requires p <= url
    ensures p <= Prepared(url)
  {
    assert url[0] == 'h';
    assert LStripC0(url) == url;
    var tail := url[|p|..];
    assert url == p + tail;
    RemoveUnsafeAppend(p, tail);
  }

  /** An `http://` or `https://` URL is split with that scheme, whatever follows. */
  lemma HttpSchemeDetected(url: string, p: string)
    requires p == "http://" || p == "https://"
    requires p <= url
    ensures UrlSplit(url).Ok? ==> UrlSplit(url).value.scheme == p[..|p| - 3]
  {
    PreparedKeepsPrefix(url, p);
    HttpSchemeSplit(Prepared(url), p);
  }

  /** A URL with neither scheme, authority, query, fragment nor parameters is all path:
      `urlparse("host/about")` has an empty netloc and the path `host/about`. */
  lemma SchemelessIsPath(url: string)
    requires url != [] && Printable(url) && NoneOf(url, {':', '?', '#', ';'}) && !("//" <= url)
    ensures UrlParse(url) == Ok(ParsedUrl("", "", url, "", "", ""))
  {
    assert LStripC0(url) == url;
    RemoveUnsafeKeeps(url);
    assert FindAny(url, {':'}, 0) == |url|;
    assert SplitScheme(url) == ("", url);
    assert SplitNetloc(url) == ("", url);
    assert FindAny(url, {'#'}, 0) == |url|;
    assert FindAny(url, {'?'}, 0) == |url|;
    assert !HasChar(url, ';');
    assert !UnbalancedBrackets("");
  }

  /** `urlparse("https://" + host + tail)` has scheme `https` and netloc `host` when the host is
      ASCII with no delimiter, bracket or control character and the tail is empty or a path. */
  lemma HttpsNetloc(host: string, tail: string)
    requires IsAscii(host) && Printable(host) && NoneOf(host, {'/', '?', '#', '[', ']'})
    requires tail == [] || tail[0] == '/'
    requires forall i :: 0 <= i < |tail| ==> !IsUnsafe(tail[i])
    ensures UrlParse("https://" + host + tail).Ok?
    ensures UrlParse("https://" + host + tail).value.netloc == host
    ensures UrlParse("https://" + host + tail).value.scheme == "https"
  {
    var url := "https://" + host + tail;
    HttpsPrepared(host, tail);
    HttpSchemeSplit(url, "https://");
    HostNetloc(host, tail);
    DropConcat("https://", host, tail, 6);
    assert "https://"[6..] == "//";
  }

  /** Such a URL has nothing for the preprocessing to strip or remove. */
  lemma HttpsPrepared(host: string, tail: string)
    requires Printable(host)
    requires forall i :: 0 <= i < |tail| ==> !IsUnsafe(tail[i])
    ensures Prepared("https://" + host + tail) == "https://" + host + tail
  {
    var url := "https://" + host + tail;
    assert url[0] == 'h';
    assert LStripC0(url) == url;
    forall i | 0 <= i < |url| ensures !IsUnsafe(url[i]) {
      if i >= 8 + |host| {
        assert url[i] == tail[i - 8 - |host|];
      } else if i >= 8 {
        assert url[i] == host[i - 8];
      }
    }
    RemoveUnsafeKeeps(url);
  }

  /** Dropping part of the first of three concatenated pieces. */
  lemma DropConcat<T>(a: seq<T>, b: seq<T>, c: seq<T>, n: nat)
    requires n <= |a|
    ensures (a + b + c)[n..] == a[n..] + b + c
  {
  }

  /** The authority split stops exactly at the end of a delimiter-free host. */
  lemma HostNetloc(host: string, tail: string)
    requires NoneOf(host, {'/', '?', '#'})
    requires tail == [] || tail[0] == '/'
    ensures SplitNetloc("//" + host + tail).0 == host
  {
    var rest := "//" + host + tail;
    assert "//" <= rest;
    forall i | 2 <= i < 2 + |host| ensures rest[i] !in {'/', '?', '#'} {
      assert rest[i] == host[i - 2];
    }
    if tail != [] {
      assert rest[2 + |host|] == tail[0];
    }
    var delim := FindAny(rest, {'/', '?', '#'}, 2);
    assert delim == 2 + |host|;
    assert rest[2..delim] == host;
  }

  /** A host holding a character whose NFKC form is a delimiter, such as `℀` (`a/c`),
      makes `urlparse("https://" + host + tail)` raise the `_checknetloc` ValueError. */
  lemma NfkcHostRejected(host: string, tail: string, k: nat)
    requires Printable(host) && NoneOf(host, {'/', '?', '#', '[', ']'})
    requires k < |host| && host[k] in NfkcDelimiters
    requires tail == [] || tail[0] == '/'
    requires forall i :: 0 <= i < |tail| ==> !IsUnsafe(tail[i])
    ensures UrlParse("https://" + host + tail) == Err(NetlocNfkc(host))
  {
    var url := "https://" + host + tail;
    HttpsAuthority(host, tail);
    DelimiterNotAscii(host[k]);
    assert NfkcUnsafe(host);
    NetlocRejected(url, host);
  }

  /** The authority `urlsplit` finds in `https://` + host + tail is the host. */
  lemma HttpsAuthority(host: string, tail: string)
    requires Printable(host) && NoneOf(host, {'/', '?', '#'})
    requires tail == [] || tail[0] == '/'
    requires forall i :: 0 <= i < |tail| ==> !IsUnsafe(tail[i])
    ensures SplitNetloc(SplitScheme(Prepared("https://" + host + tail)).1).0 == host
  {
    var url := "https://" + host + tail;
    HttpsPrepared(host, tail);
    HttpSchemeSplit(url, "https://");
    HostNetloc(host, tail);
    DropConcat("https://", host, tail, 6);
    assert "https://"[6..] == "//";
  }

  /** A netloc with balanced brackets that fails `_checknetloc` makes `urlsplit` raise. */
  lemma NetlocRejected(url: string, netloc: string)
    requires SplitNetloc(SplitScheme(Prepared(url)).1).0 == netloc
    requires !UnbalancedBrackets(netloc) && NfkcUnsafe(netloc)
    ensures UrlSplit(url) == Err(NetlocNfkc(netloc))
  {
  }

  lemma DelimiterNotAscii(c: char)
    requires c in NfkcDelimiters
    ensures !(c < '\U{80}')
  {
  }
}
