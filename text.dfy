/**
 * The Python `str` operations the modelled code relies on, over `seq<char>`.
 * Lower-casing covers ASCII letters only; whitespace is Python's `str.isspace`.
 */
module Text {

  /** Python's `str.isspace` for one character. */
  predicate IsSpace(c: char)
  {
    || c == '\t' || c == '\n' || c == '\U{000B}' || c == '\U{000C}' || c == '\r'
    || ('\U{001C}' <= c <= '\U{001F}') || c == ' '
    || c == '\U{0085}' || c == '\U{00A0}' || c == '\U{1680}'
    || ('\U{2000}' <= c <= '\U{200A}')
    || c == '\U{2028}' || c == '\U{2029}' || c == '\U{202F}' || c == '\U{205F}' || c == '\U{3000}'
  }

  predicate IsUpper(c: char) { 'A' <= c <= 'Z' }

  function LowerChar(c: char): (r: char)
    ensures !IsUpper(r)
    ensures !IsUpper(c) ==> r == c
  {
    if IsUpper(c) then (c as int + 32) as char else c
  }

  /** `s.lower()` on ASCII letters; every other character is kept. */
  function Lower(s: string): (r: string)
    ensures |r| == |s|
    ensures forall i :: 0 <= i < |s| ==> r[i] == LowerChar(s[i])
  {
    if s == [] then [] else [LowerChar(s[0])] + Lower(s[1..])
  }

  /** Lower-casing leaves a text without upper-case letters as it is. */
  lemma LowerKeeps(s: string)
    requires forall i :: 0 <= i < |s| ==> !IsUpper(s[i])
    ensures Lower(s) == s
  {
  }

  /** `sub` occurs in `s` starting at index `i`. */
  predicate OccursAt(s: string, sub: string, i: int)
  {
    0 <= i <= |s| - |sub| && s[i..i + |sub|] == sub
  }

  /** `sub in s`. */
  predicate Contains(s: string, sub: string)
  {
    exists i :: 0 <= i <= |s| - |sub| && OccursAt(s, sub, i)
  }

  predicate HasChar(s: string, c: char)
  {
    exists i :: 0 <= i < |s| && s[i] == c
  }

  lemma HasCharConcat(a: string, b: string, c: char)
    ensures HasChar(a + b, c) <==> HasChar(a, c) || HasChar(b, c)
  {
    if HasChar(a + b, c) {
      var i :| 0 <= i < |a + b| && (a + b)[i] == c;
      if i >= |a| {
        assert b[i - |a|] == c;
      }
    }
    if HasChar(b, c) {
      var i :| 0 <= i < |b| && b[i] == c;
      assert (a + b)[|a| + i] == c;
    }
    if HasChar(a, c) {
      var i :| 0 <= i < |a| && a[i] == c;
      assert (a + b)[i] == c;
    }
  }

  /** `s.lstrip()`: the longest suffix of `s` that does not start with whitespace. */
  function LStrip(s: string): (r: string)
    ensures |r| <= |s| && r == s[|s| - |r|..]
    ensures r == [] || !IsSpace(r[0])
  {
    if s != [] && IsSpace(s[0]) then LStrip(s[1..]) else s
  }

  /** `s.rstrip()`: the longest prefix of `s` that does not end with whitespace. */
  function RStrip(s: string): (r: string)
    ensures |r| <= |s| && r == s[..|r|]
    ensures r == [] || !IsSpace(r[|r| - 1])
  {
    if s != [] && IsSpace(s[|s| - 1]) then RStrip(s[..|s| - 1]) else s
  }

  /** `s.strip()`. */
  function Strip(s: string): (r: string)
    ensures |r| <= |s|
    ensures r == [] || (!IsSpace(r[0]) && !IsSpace(r[|r| - 1]))
  {
    RStrip(LStrip(s))
  }

  /** What `s.strip()` keeps is a contiguous part of `s`. */
  lemma StripIsSlice(s: string)
    ensures exists i, j :: 0 <= i <= j <= |s| && Strip(s) == s[i..j]
  {
    var t := LStrip(s);
    var r := RStrip(t);
    assert r == s[|s| - |t|..|s| - |t| + |r|];
  }

  /** Stripping adds no character. */
  lemma StripKeepsAbsent(s: string, c: char)
    requires !HasChar(s, c)
    ensures !HasChar(Strip(s), c)
  {
    StripIsSlice(s);
    var i, j :| 0 <= i <= j <= |s| && Strip(s) == s[i..j];
    forall k | 0 <= k < j - i ensures Strip(s)[k] != c {
      assert Strip(s)[k] == s[i + k];
    }
  }

  /** Stripping leaves a text that neither starts nor ends with whitespace as it is. */
  lemma StripKeeps(s: string)
    requires s == [] || (!IsSpace(s[0]) && !IsSpace(s[|s| - 1]))
    ensures Strip(s) == s
  {
  }

  /** `s.rstrip(c)`: `s` with every trailing `c` removed. */
  function RStripChar(s: string, c: char): (r: string)
    ensures |r| <= |s| && r == s[..|r|]
    ensures forall i :: |r| <= i < |s| ==> s[i] == c
    ensures r == [] || r[|r| - 1] != c
  {
    if s != [] && s[|s| - 1] == c then RStripChar(s[..|s| - 1], c) else s
  }

  /** Index of the first character of `s` at or after `from` that is in `cs`; `|s|` when none. */
  function FindAny(s: string, cs: set<char>, from: nat): (r: nat)
    requires from <= |s|
    ensures from <= r <= |s|
    ensures forall i :: from <= i < r ==> s[i] !in cs
    ensures r < |s| ==> s[r] in cs
    decreases |s| - from
  {
    if from == |s| || s[from] in cs then from else FindAny(s, cs, from + 1)
  }

  /** Index of the last `c` in `s` (Python `rfind`), or -1 when there is none. */
  function RFind(s: string, c: char): (r: int)
    ensures -1 <= r < |s|
    ensures r >= 0 ==> s[r] == c
    ensures forall i :: r < i < |s| ==> s[i] != c
  {
    if s == [] then -1 else if s[|s| - 1] == c then |s| - 1 else RFind(s[..|s| - 1], c)
  }

  /** `s.replace(pat, rep)`: left-to-right, non-overlapping replacement of every `pat`. */
  function ReplaceAll(s: string, pat: string, rep: string): string
    requires pat != []
  {
    if s == [] then []
    else if pat <= s then rep + ReplaceAll(s[|pat|..], pat, rep)
    else [s[0]] + ReplaceAll(s[1..], pat, rep)
  }

  lemma {:induction false} ReplaceAllUntouched(s: string, pat: string, rep: string)
    requires pat != []
    requires !HasChar(s, pat[0])
    ensures ReplaceAll(s, pat, rep) == s
  {
    if s != [] {
      assert s[0] == pat[0] ==> HasChar(s, pat[0]);
      assert !(pat <= s);
      assert !HasChar(s[1..], pat[0]) by {
        forall i | 0 <= i < |s[1..]| ensures s[1..][i] != pat[0] {
          assert s[1..][i] == s[i + 1];
        }
      }
      ReplaceAllUntouched(s[1..], pat, rep);
    }
  }

  lemma {:induction false} ReplaceAllSkipsPrefix(a: string, b: string, pat: string, rep: string)
    requires pat != []
    requires !HasChar(a, pat[0])
    ensures ReplaceAll(a + b, pat, rep) == a + ReplaceAll(b, pat, rep)
  {
    if a != [] {
      assert (a + b)[0] == a[0];
      assert !(pat <= a + b);
      assert (a + b)[1..] == a[1..] + b;
      assert !HasChar(a[1..], pat[0]) by {
        forall i | 0 <= i < |a[1..]| ensures a[1..][i] != pat[0] {
          assert a[1..][i] == a[i + 1];
        }
      }
      ReplaceAllSkipsPrefix(a[1..], b, pat, rep);
    } else {
      assert a + b == b;
    }
  }

  /** A text lacking one of the characters of `sub` does not contain `sub`. */
  lemma NotContainsByChar(s: string, sub: string, k: nat)
    requires k < |sub| && !HasChar(s, sub[k])
    ensures !Contains(s, sub)
  {
    forall i | 0 <= i <= |s| - |sub| ensures !OccursAt(s, sub, i) {
      assert s[i + k] != sub[k];
    }
  }

  /** Replacing a pattern that does not occur changes nothing. */
  lemma {:induction false} ReplaceAllAbsent(s: string, pat: string, rep: string)
    requires pat != [] && !Contains(s, pat)
    ensures ReplaceAll(s, pat, rep) == s
  {
    if s != [] {
      if |pat| <= |s| {
        assert !OccursAt(s, pat, 0);
      }
      assert !(pat <= s);
      assert !Contains(s[1..], pat) by {
        if Contains(s[1..], pat) {
          var i :| 0 <= i <= |s[1..]| - |pat| && OccursAt(s[1..], pat, i);
          assert s[1..][i..i + |pat|] == s[i + 1..i + 1 + |pat|];
          assert OccursAt(s, pat, i + 1);
        }
      }
      ReplaceAllAbsent(s[1..], pat, rep);
    }
  }

  lemma ReplaceAllAtMatch(b: string, pat: string, rep: string)
    requires pat != []
    ensures ReplaceAll(pat + b, pat, rep) == rep + ReplaceAll(b, pat, rep)
  {
    assert pat <= pat + b;
    assert (pat + b)[|pat|..] == b;
  }

  /** `s.split(sep)` for a one-character separator. */
  function SplitOn(s: string, sep: char): (r: seq<string>)
    ensures |r| >= 1
    ensures |r| == 1 <==> !HasChar(s, sep)
    ensures forall k :: 0 <= k < |r| ==> !HasChar(r[k], sep)
    decreases |s|
  {
    var i := FindAny(s, {sep}, 0);
    if i == |s| then [s]
    else
      assert HasChar(s, sep);
      [s[..i]] + SplitOn(s[i + 1..], sep)
  }

  /** `s.split(sep)[0]`: the part of `s` before the first `sep`. */
  function BeforeFirst(s: string, sep: char): (r: string)
    ensures r <= s && !HasChar(r, sep)
    ensures |r| < |s| ==> s[|r|] == sep
  {
    s[..FindAny(s, {sep}, 0)]
  }

  lemma BeforeFirstAbsent(s: string, sep: char)
    requires !HasChar(s, sep)
    ensures BeforeFirst(s, sep) == s
  {
  }

  /** Length of the longest prefix of `s` free of whitespace. */
  function TokenLength(s: string): (n: nat)
    ensures n <= |s|
    ensures forall i :: 0 <= i < n ==> !IsSpace(s[i])
    ensures n < |s| ==> IsSpace(s[n])
  {
    if s == [] || IsSpace(s[0]) then 0 else 1 + TokenLength(s[1..])
  }

  /** `s.split()` with no argument: the maximal runs of non-whitespace characters. */
  function Words(s: string): (r: seq<string>)
    ensures forall k :: 0 <= k < |r| ==> IsWord(r[k])
    decreases |s|
  {
    var t := LStrip(s);
    if t == [] then []
    else
      var n := TokenLength(t);
      assert n > 0;
      var rest := Words(t[n..]);
      assert IsWord(t[..n]);
      AllCons(IsWord, t[..n], rest);
      [t[..n]] + rest
  }

  /** Putting an element with a property in front of elements with it. */
  lemma AllCons<T>(P: T -> bool, x: T, s: seq<T>)
    requires P(x) && forall k :: 0 <= k < |s| ==> P(s[k])
    ensures forall k :: 0 <= k < |s| + 1 ==> P(([x] + s)[k])
  {
    forall k | 0 <= k < |s| + 1 ensures P(([x] + s)[k]) {
      if k > 0 {
        assert ([x] + s)[k] == s[k - 1];
      }
    }
  }

  /** Five concatenated pieces, grouped from the right. */
  lemma Regroup5<T>(a: seq<T>, b: seq<T>, c: seq<T>, d: seq<T>, e: seq<T>)
    ensures a + b + c + d + e == a + (b + (c + (d + e)))
  {
  }

  /** A non-empty run of non-whitespace characters. */
  predicate IsWord(w: string)
  {
    w != [] && forall i :: 0 <= i < |w| ==> !IsSpace(w[i])
  }

  function DigitText(d: nat): string
    requires d < 10
  {
    ["0123456789"[d]]
  }

  /** `str(n)` for a natural number. */
  function NatText(n: nat): (r: string)
    ensures r != []
    ensures forall i :: 0 <= i < |r| ==> '0' <= r[i] <= '9'
  {
    if n < 10 then DigitText(n) else NatText(n / 10) + DigitText(n % 10)
  }
}
