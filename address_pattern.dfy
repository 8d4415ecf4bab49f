/**
 * The crawler's address pattern
 *   \b[A-Za-z0-9._%+-]+@[A-Za-z0-9.-]+\.[A-Z|a-z]{2,}\b
 * as a predicate on text, and Python's `findall` and `match` for it.
 *
 * A match of the pattern starting at `i` and ending at `j` is a text
 * `s[i..j]` that has the address shape (local part, `@`, domain, final dot,
 * at least two top-level characters) with a word boundary at both ends, `\w`
 * read as ASCII letters, digits and `_`. The local part cannot be shortened
 * (no class holds `@`), and of two candidate final dots the later one always
 * gives the later end, so the match the regular-expression engine reports at a
 * start is the one with the largest end.
 */
module AddressPattern {
  import opened Values
  import opened Text

  predicate IsLetter(c: char) { 'A' <= c <= 'Z' || 'a' <= c <= 'z' }

  predicate IsDigitChar(c: char) { '0' <= c <= '9' }

  /** `[A-Za-z0-9._%+-]` */
  predicate IsLocalChar(c: char)
  {
    IsLetter(c) || IsDigitChar(c) || c == '.' || c == '_' || c == '%' || c == '+' || c == '-'
  }

  /** `[A-Za-z0-9.-]` */
  predicate IsDomainChar(c: char) { IsLetter(c) || IsDigitChar(c) || c == '.' || c == '-' }

  /** `[A-Z|a-z]`: the `|` is a member of the class. */
  predicate IsTopChar(c: char) { IsLetter(c) || c == '|' }

  /** `\w` on ASCII text. */
  predicate IsWordChar(c: char) { IsLetter(c) || IsDigitChar(c) || c == '_' }

  predicate AllLocal(s: string) { forall i :: 0 <= i < |s| ==> IsLocalChar(s[i]) }

  predicate AllDomain(s: string) { forall i :: 0 <= i < |s| ==> IsDomainChar(s[i]) }

  predicate AllTop(s: string) { forall i :: 0 <= i < |s| ==> IsTopChar(s[i]) }

  /** `s` is local part `s[..at]`, `@`, domain `s[at+1..dot]`, `.`, top-level part `s[dot+1..]`. */
  predicate SplitsAt(s: string, at: int, dot: int)
  {
    && 0 < at && at + 1 < dot && dot + 3 <= |s|
    && s[at] == '@' && s[dot] == '.'
    && AllLocal(s[..at]) && AllDomain(s[at + 1..dot]) && AllTop(s[dot + 1..])
  }

  /** `s` has the shape of the pattern, boundaries aside. */
  predicate IsAddress(s: string)
  {
    exists at, dot :: 0 <= at < |s| && 0 <= dot < |s| && SplitsAt(s, at, dot)
  }

  predicate IsWordAt(s: string, k: int)
  {
    0 <= k < |s| && IsWordChar(s[k])
  }

  /** `\b` at position `k` of `s`. */
  predicate Boundary(s: string, k: int)
  {
    IsWordAt(s, k - 1) != IsWordAt(s, k)
  }

  /** The pattern matches `s[i..j]` at position `i` of `s`. */
  predicate MatchAt(s: string, i: int, j: int)
  {
    0 <= i < j <= |s| && IsAddress(s[i..j]) && Boundary(s, i) && Boundary(s, j)
  }

  /** The largest end `k <= hi` of a match starting at `i`, if any. */
  function LastEnd(s: string, i: nat, hi: nat): (r: Option<nat>)
    requires i <= hi <= |s|
    ensures r.Some? ==> i < r.value <= hi && MatchAt(s, i, r.value)
    ensures r.Some? ==> forall k :: r.value < k <= hi ==> !MatchAt(s, i, k)
    ensures r.None? ==> forall k :: i < k <= hi ==> !MatchAt(s, i, k)
    decreases hi
  {
    if hi == i then None
    else if MatchAt(s, i, hi) then Some(hi)
    else LastEnd(s, i, hi - 1)
  }

  /** Where the pattern, tried at `i`, stops: the end of the longest match there. */
  function MatchEnd(s: string, i: nat): (r: Option<nat>)
    requires i <= |s|
    ensures r.Some? ==> MatchAt(s, i, r.value) && forall k :: r.value < k <= |s| ==> !MatchAt(s, i, k)
    ensures r.None? <==> forall k :: !MatchAt(s, i, k)
  {
    LastEnd(s, i, |s|)
  }

  /** `EMAIL_PATTERN.findall(s[pos..])` read on `s`: scan from `pos`, take the
      longest match at the first position where one starts, resume at its end. */
  function FindAllFrom(s: string, pos: nat): (r: seq<string>)
    requires pos <= |s|
    ensures forall k :: 0 <= k < |r| ==> IsAddress(r[k]) && Contains(s, r[k])
    decreases |s| - pos
  {
    if pos == |s| then []
    else match MatchEnd(s, pos)
      case Some(j) =>
        assert OccursAt(s, s[pos..j], pos);
        [s[pos..j]] + FindAllFrom(s, j)
      case None => FindAllFrom(s, pos + 1)
  }

  /** `EMAIL_PATTERN.findall(s)`. */
  function FindAll(s: string): (r: seq<string>)
    ensures forall k :: 0 <= k < |r| ==> IsAddress(r[k]) && Contains(s, r[k])
  {
    FindAllFrom(s, 0)
  }

  /** `EMAIL_PATTERN.match(s)` succeeds: a match that starts at the beginning of `s`. */
  predicate PrefixMatches(s: string)
  {
    LastEnd(s, 0, |s|).Some?
  }

  /** `match` succeeds exactly when some prefix of the text is a match. */
  lemma PrefixMatchesIff(s: string)
    ensures PrefixMatches(s) <==> exists j :: MatchAt(s, 0, j)
  {
    if PrefixMatches(s) {
      assert MatchAt(s, 0, LastEnd(s, 0, |s|).value);
    }
  }

  /** The whole text as one match is found, and found alone. */
  lemma {:induction false} FindAllWhole(s: string)
    requires MatchAt(s, 0, |s|)
    ensures FindAll(s) == [s]
  {
    assert MatchEnd(s, 0) == Some(|s|);
    assert s[0..|s|] == s;
    assert FindAllFrom(s, |s|) == [];
    assert FindAllFrom(s, 0) == [s[0..|s|]] + FindAllFrom(s, |s|);
  }

  /** Text without an `@` holds no match; every match has one. */
  lemma {:induction false} AddressHasAt(s: string)
    requires IsAddress(s)
    ensures HasChar(s, '@')
  {
    var at, dot :| 0 <= at < |s| && 0 <= dot < |s| && SplitsAt(s, at, dot);
    assert s[at] == '@';
  }

  /** A text with the address shape whose ends are word characters matches as a whole. */
  lemma WholeMatch(s: string, at: nat, dot: nat)
    requires at < |s| && dot < |s| && SplitsAt(s, at, dot)
    requires IsWordChar(s[0]) && IsWordChar(s[|s| - 1])
    ensures MatchAt(s, 0, |s|)
  {
    assert s[0..|s|] == s;
  }

  /** Local part, `@`, domain, `.` and top-level part put together have the address shape. */
  lemma {:induction false} AddressOfParts(local: string, host: string, top: string)
    requires local != [] && |host| > 0 && |top| >= 2
    requires AllLocal(local) && AllDomain(host) && AllTop(top)
    ensures SplitsAt(local + "@" + host + "." + top, |local|, |local| + 1 + |host|)
    ensures IsAddress(local + "@" + host + "." + top)
  {
    var s := local + "@" + host + "." + top;
    var at, dot := |local|, |local| + 1 + |host|;
    assert s[..at] == local;
    assert s[at + 1..dot] == host;
    assert s[dot + 1..] == top;
    assert s[at] == '@' && s[dot] == '.';
    assert SplitsAt(s, at, dot);
  }

  /** A character that can occur in a text with the address shape. */
  predicate AddressChar(c: char) { IsLocalChar(c) || c == '@' || c == '|' }

  /** Every character of a text with the address shape is an address character. */
  lemma SplitsAtChars(s: string, at: int, dot: int)
    requires SplitsAt(s, at, dot)
    ensures forall i :: 0 <= i < |s| ==> AddressChar(s[i])
  {
    forall i | 0 <= i < |s| ensures AddressChar(s[i]) {
      if i < at {
        assert s[..at][i] == s[i];
      } else if at < i < dot {
        assert s[at + 1..dot][i - at - 1] == s[i];
      } else if dot < i {
        assert s[dot + 1..][i - dot - 1] == s[i];
      }
    }
  }
}
