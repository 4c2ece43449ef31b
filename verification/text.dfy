/**
 * The handful of Python `str` operations the reply parser relies on:
 * `isspace`/`strip`, `upper`, the `in` substring test, `startswith` and
 * `split` with an explicit one-character separator.
 *
 * `upper` is modelled on ASCII letters only; see README.md.
 */
module Text {

  /** Python's `str.isspace()` for a single character. */
  predicate IsSpace(c: char) {
    || c == ' '
    || ('\t' <= c <= '\r')              // \t \n \v \f \r
    || ('\U{1C}' <= c <= '\U{1F}')      // file, group, record and unit separators
    || c == '\U{85}' || c == '\U{A0}' || c == '\U{1680}'
    || ('\U{2000}' <= c <= '\U{200A}')
    || c == '\U{2028}' || c == '\U{2029}' || c == '\U{202F}'
    || c == '\U{205F}' || c == '\U{3000}'
  }

  /**
   * No letter, digit, colon or point is whitespace, so stripping never
   * removes a character of a header or of a score.
   */
  lemma SpaceIsNoText(c: char)
    ensures IsSpace(c) ==> !('A' <= c <= 'Z') && !('a' <= c <= 'z') && !('0' <= c <= '9') && c != ':' && c != '.'
  {
  }

  predicate AllSpace(s: string) {
    forall i :: 0 <= i < |s| ==> IsSpace(s[i])
  }

  /** Number of whitespace characters at the front of `s`. */
  function LeadingSpace(s: string): (n: nat)
    ensures n <= |s|
    ensures AllSpace(s[..n])
    ensures n < |s| ==> !IsSpace(s[n])
  {
    if s != [] && IsSpace(s[0]) then
      var m := LeadingSpace(s[1..]);
      assert s[..1 + m] == [s[0]] + s[1..][..m];
      1 + m
    else 0
  }

  /** Number of whitespace characters at the back of `s`. */
  function TrailingSpace(s: string): (n: nat)
    ensures n <= |s|
    ensures AllSpace(s[|s| - n..])
    ensures n < |s| ==> !IsSpace(s[|s| - n - 1])
  {
    if s != [] && IsSpace(s[|s| - 1]) then
      var m := TrailingSpace(s[..|s| - 1]);
      TrailingStep(s, m);
      1 + m
    else 0
  }

  /** A whitespace margin of `s` without its last character grows by that character when it is whitespace. */
  lemma TrailingStep(s: string, m: nat)
    requires s != [] && IsSpace(s[|s| - 1])
    requires m <= |s| - 1 && AllSpace(s[..|s| - 1][|s| - 1 - m..])
    requires m < |s| - 1 ==> !IsSpace(s[..|s| - 1][|s| - 1 - m - 1])
    ensures AllSpace(s[|s| - (1 + m)..])
    ensures 1 + m < |s| ==> !IsSpace(s[|s| - (1 + m) - 1])
  {
    var init := s[..|s| - 1];
    assert s[|s| - (1 + m)..] == init[|init| - m..] + [s[|s| - 1]];
    AllSpaceAppend(init[|init| - m..], [s[|s| - 1]]);
    assert 1 + m < |s| ==> s[|s| - (1 + m) - 1] == init[|init| - m - 1];
  }

  /** Whitespace runs concatenate to a whitespace run. */
  lemma AllSpaceAppend(a: string, b: string)
    requires AllSpace(a) && AllSpace(b)
    ensures AllSpace(a + b)
  {
    forall i | 0 <= i < |a + b| ensures IsSpace((a + b)[i]) {
      if i < |a| { assert (a + b)[i] == a[i]; } else { assert (a + b)[i] == b[i - |a|]; }
    }
  }

  /** A text that is not all whitespace keeps a character between its two whitespace margins. */
  lemma MarginsApart(s: string)
    requires LeadingSpace(s) < |s|
    ensures LeadingSpace(s) < |s| - TrailingSpace(s)
  {
  }

  /**
   * A slice that starts and ends with a non-whitespace character, between
   * two whitespace margins, has the three properties of a stripped text.
   */
  lemma StripSlice(s: string, a: nat, b: nat)
    requires a < b <= |s| && AllSpace(s[..a]) && AllSpace(s[b..])
    requires !IsSpace(s[a]) && !IsSpace(s[b - 1])
    ensures exists k :: 0 <= k <= |s| - |s[a..b]| && s[a..b] == s[k..k + |s[a..b]|] && AllSpace(s[..k]) && AllSpace(s[k + |s[a..b]|..])
    ensures s[a..b] != [] && !AllSpace(s)
    ensures !IsSpace(s[a..b][0]) && !IsSpace(s[a..b][|s[a..b]| - 1])
  {
    var r := s[a..b];
    assert a + |r| == b && r == s[a..a + |r|];
    assert AllSpace(s[..a]) && AllSpace(s[a + |r|..]);
    assert r[0] == s[a] && r[|r| - 1] == s[b - 1];
    assert !AllSpace(s) by { assert !IsSpace(s[a]); }
  }

  /**
   * Python's `s.strip()`: `s` with its leading and trailing whitespace removed.
   * The result is the infix of `s` between two all-whitespace margins, it is
   * empty exactly when `s` is all whitespace, and otherwise it starts and ends
   * with a non-whitespace character.
   */
  function Strip(s: string): (r: string)
    ensures exists k :: 0 <= k <= |s| - |r| && r == s[k..k + |r|] && AllSpace(s[..k]) && AllSpace(s[k + |r|..])
    ensures r == [] <==> AllSpace(s)
    ensures r != [] ==> !IsSpace(r[0]) && !IsSpace(r[|r| - 1])
  {
    var a := LeadingSpace(s);
    if a == |s| then
      assert s[..a] == s && s[..0] == [] && s[0..] == s;
      []
    else
      MarginsApart(s);
      var b := |s| - TrailingSpace(s);
      StripSlice(s, a, b);
      s[a..b]
  }

  /** Python's `str.upper()` on one character, restricted to ASCII letters. */
  function UpperChar(c: char): (u: char)
  {
    if 'a' <= c <= 'z' then (c as int - 32) as char else c
  }

  /** `s.upper()`: every character mapped by `UpperChar`, length unchanged. */
  function Upper(s: string): (r: string)
    ensures |r| == |s|
    ensures forall i :: 0 <= i < |s| ==> r[i] == UpperChar(s[i])
  {
    seq(|s|, i requires 0 <= i < |s| => UpperChar(s[i]))
  }

  /** Python's `s.startswith(prefix)`. */
  predicate StartsWith(s: string, prefix: string) {
    |prefix| <= |s| && s[..|prefix|] == prefix
  }

  /** Python's `pat in s`: `pat` occurs as a contiguous substring of `s`. */
  predicate Contains(s: string, pat: string): (b: bool)
    ensures b ==> |pat| <= |s|
    decreases |s|
  {
    StartsWith(s, pat) || (s != [] && Contains(s[1..], pat))
  }

  /** Joins `parts` with `sep` between consecutive parts (Python's `sep.join`). */
  function Join(parts: seq<string>, sep: char): (r: string)
    requires |parts| >= 1
  {
    if |parts| == 1 then parts[0] else parts[0] + [sep] + Join(parts[1..], sep)
  }

  /**
   * Python's `s.split(sep)` for a one-character separator: the maximal
   * separator-free pieces of `s`, so that joining them back with `sep` gives
   * `s` again. Splitting the empty string gives one empty piece.
   */
  function Split(s: string, sep: char): (r: seq<string>)
    ensures |r| >= 1
    ensures forall p :: p in r ==> sep !in p
    ensures Join(r, sep) == s
    ensures sep in s <==> |r| >= 2
    decreases |s|
  {
    if s == [] then [""]
    else
      var rest := Split(s[1..], sep);
      if s[0] == sep then
        assert s == [sep] + s[1..];
        [""] + rest
      else
        var r := [[s[0]] + rest[0]] + rest[1..];
        JoinFirstPiece(rest, s[0], sep);
        assert s == [s[0]] + s[1..];
        assert sep in s <==> sep in s[1..];
        assert forall p :: p in r ==> p == r[0] || p in rest;
        r
  }

  /** Prefixing the first piece prefixes the joined text. */
  lemma JoinFirstPiece(parts: seq<string>, c: char, sep: char)
    requires |parts| >= 1
    ensures Join([[c] + parts[0]] + parts[1..], sep) == [c] + Join(parts, sep)
  {
    var r := [[c] + parts[0]] + parts[1..];
    assert r[1..] == parts[1..];
    if |parts| > 1 {
      assert Join(r, sep) == ([c] + parts[0]) + [sep] + Join(parts[1..], sep);
    }
  }

  /** A substring of a suffix of `s` is a substring of `s`. */
  lemma {:induction false} ContainsInSuffix(s: string, k: nat, pat: string)
    requires k <= |s|
    ensures Contains(s[k..], pat) ==> Contains(s, pat)
    decreases k
  {
    if k > 0 {
      assert s[1..][k - 1..] == s[k..];
      ContainsInSuffix(s[1..], k - 1, pat);
    }
  }

  /** The last character of an occurring pattern occurs in `s`. */
  lemma {:induction false} ContainsLastChar(s: string, pat: string)
    requires pat != []
    ensures Contains(s, pat) ==> pat[|pat| - 1] in s
    decreases |s|
  {
    if StartsWith(s, pat) {
      assert s[|pat| - 1] == pat[|pat| - 1];
    } else if s != [] {
      ContainsLastChar(s[1..], pat);
    }
  }

  /** Upper-casing commutes with dropping a prefix. */
  lemma UpperSuffix(s: string, k: nat)
    requires k <= |s|
    ensures Upper(s[k..]) == Upper(s)[k..]
  {
  }

  /** Upper-casing works character by character, so it distributes over concatenation. */
  lemma UpperConcat(a: string, b: string)
    ensures Upper(a + b) == Upper(a) + Upper(b)
  {
  }

  /** A string without ASCII lower-case letters is its own upper-case form. */
  lemma UpperFixed(s: string)
    requires forall i :: 0 <= i < |s| ==> !('a' <= s[i] <= 'z')
    ensures Upper(s) == s
  {
  }

  /**
   * The piece at index 1 of `s.split(sep)` is the text between the first and
   * the second separator (or the end of `s`).
   */
  lemma {:induction false} SplitSecondPiece(a: string, b: string, rest: string, sep: char)
    requires sep !in a && sep !in b
    requires rest == [] || rest[0] == sep
    ensures Split(a + [sep] + b + rest, sep)[1] == b
    decreases |a|
  {
    if a == [] {
      assert [sep] + b + rest == a + [sep] + b + rest;
      SplitFirstPiece(b, rest, sep);
      assert (a + [sep] + b + rest)[1..] == b + rest;
    } else {
      assert (a + [sep] + b + rest)[1..] == a[1..] + [sep] + b + rest;
      SplitSecondPiece(a[1..], b, rest, sep);
    }
  }

  /** The piece at index 0 of `s.split(sep)` is the text before the first separator. */
  lemma {:induction false} SplitFirstPiece(a: string, rest: string, sep: char)
    requires sep !in a
    requires rest == [] || rest[0] == sep
    ensures Split(a + rest, sep)[0] == a
    decreases |a|
  {
    if a == [] {
      assert a + rest == rest;
    } else {
      assert (a + rest)[1..] == a[1..] + rest;
      SplitFirstPiece(a[1..], rest, sep);
    }
  }

  /** `pat` occurs in `s` starting at position `i`. */
  predicate OccursAt(s: string, pat: string, i: int) {
    0 <= i <= |s| - |pat| && s[i..i + |pat|] == pat
  }

  /** An occurrence of `pat` in `s` sits at some position. */
  lemma {:induction false} ContainsWitness(s: string, pat: string)
    requires Contains(s, pat)
    ensures exists i :: OccursAt(s, pat, i)
    decreases |s|
  {
    if StartsWith(s, pat) {
      assert OccursAt(s, pat, 0);
    } else {
      ContainsWitness(s[1..], pat);
      var i :| OccursAt(s[1..], pat, i);
      assert s[i + 1..i + 1 + |pat|] == s[1..][i..i + |pat|];
      assert OccursAt(s, pat, i + 1);
    }
  }

  /** ... and a pattern occurring at some position is contained in `s`. */
  lemma {:induction false} OccursContains(s: string, pat: string, i: int)
    requires OccursAt(s, pat, i)
    ensures Contains(s, pat)
    decreases i
  {
    if i > 0 {
      assert s[1..][i - 1..i - 1 + |pat|] == s[i..i + |pat|];
      OccursContains(s[1..], pat, i - 1);
    } else {
      assert s[..|pat|] == pat;
    }
  }

  /** `pat in s` exactly when `pat` occurs at some position of `s`. */
  lemma ContainsOccurs(s: string, pat: string)
    ensures Contains(s, pat) <==> exists i :: OccursAt(s, pat, i)
  {
    if Contains(s, pat) {
      ContainsWitness(s, pat);
    }
    if exists i :: OccursAt(s, pat, i) {
      var i :| OccursAt(s, pat, i);
      OccursContains(s, pat, i);
    }
  }

  /** `s.startswith(prefix)` exactly when `s` is `prefix` followed by some rest. */
  lemma StartsWithConcat(s: string, prefix: string)
    ensures StartsWith(s, prefix) <==> exists rest :: s == prefix + rest
  {
    if StartsWith(s, prefix) {
      assert s == prefix + s[|prefix|..];
    }
    if exists rest :: s == prefix + rest {
      var rest :| s == prefix + rest;
      assert s[..|prefix|] == prefix;
    }
  }

  /** The leading whitespace of `a + t` is `a` when `t` starts with another character ... */
  lemma {:induction false} LeadingSpaceOf(a: string, t: string)
    requires AllSpace(a) && t != [] && !IsSpace(t[0])
    ensures LeadingSpace(a + t) == |a|
    decreases |a|
  {
    if a == [] {
      assert a + t == t;
    } else {
      assert (a + t)[0] == a[0] && IsSpace(a[0]);
      assert (a + t)[1..] == a[1..] + t;
      assert forall i :: 0 <= i < |a[1..]| ==> a[1..][i] == a[i + 1];
      LeadingSpaceOf(a[1..], t);
    }
  }

  /** ... and the trailing whitespace of `t + b` is `b` when `t` ends with another character. */
  lemma {:induction false} TrailingSpaceOf(t: string, b: string)
    requires AllSpace(b) && t != [] && !IsSpace(t[|t| - 1])
    ensures TrailingSpace(t + b) == |b|
    decreases |b|
  {
    if b != [] {
      assert (t + b)[..|t + b| - 1] == t + b[..|b| - 1];
      TrailingSpaceOf(t, b[..|b| - 1]);
    }
  }

  /** A non-empty text that neither starts nor ends with whitespace. */
  predicate Unpadded(t: string) {
    t != [] && !IsSpace(t[0]) && !IsSpace(t[|t| - 1])
  }

  /** Stripping a tidy text gives it back. */
  lemma StripUnpadded(t: string)
    requires Unpadded(t)
    ensures Strip(t) == t
  {
    assert "" + t + "" == t;
    StripPadded("", t, "");
  }

  /** Stripping whitespace margins off a text whose ends are not whitespace gives that text back. */
  lemma StripPadded(a: string, t: string, b: string)
    requires AllSpace(a) && AllSpace(b)
    requires t != [] && !IsSpace(t[0]) && !IsSpace(t[|t| - 1])
    ensures Strip(a + t + b) == t
  {
    var s := a + t + b;
    assert s == a + (t + b);
    LeadingSpaceOf(a, t + b);
    assert (a + t)[|a + t| - 1] == t[|t| - 1];
    TrailingSpaceOf(a + t, b);
    assert s[|a|..|s| - |b|] == t;
  }

  /** A text without the separator splits into itself alone ... */
  lemma {:induction false} SplitNoSep(a: string, sep: char)
    requires sep !in a
    ensures Split(a, sep) == [a]
    decreases |a|
  {
    if a != [] {
      SplitNoSep(a[1..], sep);
      assert [a[0]] + a[1..] == a;
    }
  }

  /** ... and a text before the first separator becomes the first piece. */
  lemma {:induction false} SplitCons(a: string, rest: string, sep: char)
    requires sep !in a
    ensures Split(a + [sep] + rest, sep) == [a] + Split(rest, sep)
    decreases |a|
  {
    var s := a + [sep] + rest;
    if a == [] {
      assert s[1..] == rest;
    } else {
      assert s[1..] == a[1..] + [sep] + rest;
      SplitCons(a[1..], rest, sep);
      assert [a[0]] + a[1..] == a;
    }
  }

  /** `Split` undoes `Join` when no piece holds the separator: the two are inverse. */
  lemma {:induction false} SplitJoin(parts: seq<string>, sep: char)
    requires |parts| >= 1
    requires forall p :: p in parts ==> sep !in p
    ensures Split(Join(parts, sep), sep) == parts
    decreases |parts|
  {
    if |parts| == 1 {
      SplitNoSep(parts[0], sep);
    } else {
      SplitJoin(parts[1..], sep);
      SplitCons(parts[0], Join(parts[1..], sep), sep);
    }
  }
}
