/** String operations with the meaning Python gives them in the shop code:
    `str.strip()`, `str.lower()` (ASCII letters), `str.rfind`,
    `posixpath.splitext`, `posixpath.join`, and `str(n)` for a status code. */
module Text {

  /** Python's `str.isspace()` for one character: exactly the characters
      that `str.strip()` with no argument removes. */
  predicate IsSpace(c: char)
  {
    || c == ' '
    || ('\t' <= c <= '\r')
    || ('\U{1C}' <= c <= '\U{1F}')
    || c == '\U{85}' || c == '\U{A0}' || c == '\U{1680}'
    || ('\U{2000}' <= c <= '\U{200A}')
    || c == '\U{2028}' || c == '\U{2029}' || c == '\U{202F}'
    || c == '\U{205F}' || c == '\U{3000}'
  }

  predicate AllSpace(s: string)
  {
    forall k :: 0 <= k < |s| ==> IsSpace(s[k])
  }

  /** Index of the first non-blank character (|s| when there is none). */
  function LeadingSpaces(s: string): (n: nat)
    ensures n <= |s|
    ensures forall k :: 0 <= k < n ==> IsSpace(s[k])
    ensures n < |s| ==> !IsSpace(s[n])
  {
    if |s| > 0 && IsSpace(s[0]) then 1 + LeadingSpaces(s[1..]) else 0
  }

  /** Length of `s` without its trailing blanks. */
  function ContentEnd(s: string): (n: nat)
    ensures n <= |s|
    ensures forall k :: n <= k < |s| ==> IsSpace(s[k])
    ensures n > 0 ==> !IsSpace(s[n - 1])
  {
    if |s| > 0 && IsSpace(s[|s| - 1]) then ContentEnd(s[..|s| - 1]) else |s|
  }

  /** Python's `s.strip()`. */
  function Strip(s: string): (r: string)
    ensures |r| <= |s|
    ensures r == "" <==> AllSpace(s)
    ensures r != "" ==> !IsSpace(r[0]) && !IsSpace(r[|r| - 1])
  {
    var i := LeadingSpaces(s);
    if i == |s| then ""
    else
      var j := ContentEnd(s);
      assert i < j;
      assert AllSpace(s[..i]) && AllSpace(s[j..]);
      s[i..j]
  }

  /** What `strip()` keeps is a slice of the text between a blank head and a
      blank tail. */
  lemma StripIsSlice(s: string)
    ensures exists i, j :: 0 <= i <= j <= |s| && Strip(s) == s[i..j] && AllSpace(s[..i]) && AllSpace(s[j..])
  {
    var i := LeadingSpaces(s);
    if i == |s| {
      assert Strip(s) == s[i..i] && AllSpace(s[..i]) && AllSpace(s[i..]);
    } else {
      var j := ContentEnd(s);
      assert Strip(s) == s[i..j] && AllSpace(s[..i]) && AllSpace(s[j..]);
    }
  }

  /** Stripping undoes blank padding: whatever blanks surround a text that
      neither starts nor ends with a blank, `strip()` returns the text. */
  lemma StripPadded(pre: string, text: string, post: string)
    requires AllSpace(pre) && AllSpace(post)
    requires text != "" ==> !IsSpace(text[0]) && !IsSpace(text[|text| - 1])
    ensures Strip(pre + text + post) == text
  {
    var s := pre + text + post;
    if text == "" {
      assert s == pre + post;
      assert AllSpace(s) by {
        forall k | 0 <= k < |s| ensures IsSpace(s[k]) {
          if k < |pre| { assert s[k] == pre[k]; } else { assert s[k] == post[k - |pre|]; }
        }
      }
    } else {
      var i := LeadingSpaces(s);
      var j := ContentEnd(s);
      assert forall k :: 0 <= k < |pre| ==> s[k] == pre[k];
      assert forall k :: |pre| + |text| <= k < |s| ==> s[k] == post[k - |pre| - |text|];
      assert s[|pre|] == text[0];
      assert s[|pre| + |text| - 1] == text[|text| - 1];
      assert i == |pre|;
      assert j == |pre| + |text|;
      assert s[i..j] == text;
    }
  }

  /** Stripping twice is the same as stripping once. */
  lemma StripIdempotent(s: string)
    ensures Strip(Strip(s)) == Strip(s)
  {
    StripPadded("", Strip(s), "");
    assert "" + Strip(s) + "" == Strip(s);
  }

  function LowerChar(c: char): char
  {
    if 'A' <= c <= 'Z' then (c as int + 32) as char else c
  }

  /** Python's `s.lower()` on ASCII letters; every other character is kept. */
  function Lower(s: string): (r: string)
    ensures |r| == |s|
    ensures forall k :: 0 <= k < |s| ==> r[k] == LowerChar(s[k])
  {
    if s == "" then "" else [LowerChar(s[0])] + Lower(s[1..])
  }

  /** Python's `s.rfind(c)`: the last index holding `c`, or -1. */
  function RFind(s: string, c: char): (r: int)
    ensures -1 <= r < |s|
    ensures r >= 0 ==> s[r] == c
    ensures forall k :: r < k < |s| ==> s[k] != c
  {
    if |s| == 0 then -1
    else if s[|s| - 1] == c then |s| - 1
    else RFind(s[..|s| - 1], c)
  }

  /** The second half of `posixpath.splitext(p)`: the suffix starting at the
      last dot of the final path component, provided that component has a
      character other than a dot before it; otherwise the empty string. */
  function Extension(p: string): (ext: string)
    ensures ext == "" || ext[0] == '.'
  {
    var sep := RFind(p, '/');
    var dot := RFind(p, '.');
    if dot > sep && NonDotBetween(p, sep, dot) then p[dot..] else ""
  }

  /** What `splitext` can return as an extension: a suffix of the path that
      is empty or a dot followed by neither dots nor slashes; a path without
      a dot has none. */
  lemma ExtensionShape(p: string)
    ensures var ext := Extension(p);
      && |ext| <= |p| && ext == p[|p| - |ext|..]
      && (ext != "" ==> ext[0] == '.')
      && (forall k :: 0 < k < |ext| ==> ext[k] != '.' && ext[k] != '/')
      && ('.' !in p ==> ext == "")
  {
    var sep := RFind(p, '/');
    var dot := RFind(p, '.');
    if dot > sep && NonDotBetween(p, sep, dot) {
      var ext := p[dot..];
      assert forall k :: 0 < k < |ext| ==> ext[k] == p[dot + k];
    }
  }

  /** Some character strictly between positions `lo` and `hi` is not a dot. */
  predicate NonDotBetween(p: string, lo: int, hi: int)
  {
    exists k :: lo < k < hi && 0 <= k < |p| && p[k] != '.'
  }

  /** Appending text without `c` does not move the last `c`. */
  lemma RFindAppendWithout(s: string, t: string, c: char)
    requires c !in t
    ensures RFind(s + t, c) == RFind(s, c)
  {
    var r := RFind(s + t, c);
    var r0 := RFind(s, c);
    assert forall k :: |s| <= k < |s + t| ==> (s + t)[k] == t[k - |s|];
    assert forall k :: 0 <= k < |s| ==> (s + t)[k] == s[k];
  }

  /** Appending text that starts with `c` and has no other `c` puts the last
      `c` at the join. */
  lemma RFindAppendStartingWith(s: string, t: string, c: char)
    requires t != [] && t[0] == c && c !in t[1..]
    ensures RFind(s + t, c) == |s|
  {
    assert forall k :: |s| < k < |s + t| ==> (s + t)[k] == t[1..][k - |s| - 1];
    assert (s + t)[|s|] == c;
  }

  lemma NonDotBetweenAppend(s: string, t: string, lo: int)
    requires NonDotBetween(s, lo, |s|)
    ensures NonDotBetween(s + t, lo, |s|)
  {
    var k :| lo < k < |s| && 0 <= k < |s| && s[k] != '.';
    assert (s + t)[k] == s[k];
  }

  /** A file name split into stem and extension gives that extension back,
      when the stem's last component has some character other than a dot
      and the extension is a dot followed by neither dots nor slashes. */
  lemma ExtensionOfStemAndSuffix(stem: string, suffix: string)
    requires suffix != "" && suffix[0] == '.'
    requires '.' !in suffix[1..] && '/' !in suffix
    requires NonDotBetween(stem, RFind(stem, '/'), |stem|)
    ensures Extension(stem + suffix) == suffix
  {
    RFindAppendWithout(stem, suffix, '/');
    RFindAppendStartingWith(stem, suffix, '.');
    NonDotBetweenAppend(stem, suffix, RFind(stem, '/'));
    assert (stem + suffix)[|stem|..] == suffix;
  }

  /** When the last component of the stem is nothing but dots (or empty),
      the dot that starts the suffix is a leading dot of a hidden file name
      and `splitext` reports no extension: `.pdf` and `scans/.pdf` have
      none. */
  lemma ExtensionOfDotStem(stem: string, suffix: string)
    requires suffix != "" && suffix[0] == '.'
    requires '.' !in suffix[1..] && '/' !in suffix
    requires !NonDotBetween(stem, RFind(stem, '/'), |stem|)
    ensures Extension(stem + suffix) == ""
  {
    var p := stem + suffix;
    var sep := RFind(stem, '/');
    RFindAppendWithout(stem, suffix, '/');
    RFindAppendStartingWith(stem, suffix, '.');
    forall k | sep < k < |stem| && 0 <= k < |p|
      ensures p[k] == '.'
    {
      assert p[k] == stem[k];
    }
    assert !NonDotBetween(p, sep, |stem|);
  }

  /** `posixpath.join(a, b)`: an absolute `b` replaces `a`; otherwise a
      slash is inserted unless `a` is empty or already ends with one. */
  function Join(a: string, b: string): (r: string)
    ensures |b| > 0 && b[0] == '/' ==> r == b
    ensures |b| <= |r| <= |a| + |b| + 1
  {
    if |b| > 0 && b[0] == '/' then b
    else if a == "" || a[|a| - 1] == '/' then a + b
    else a + "/" + b
  }

  /** Joining a relative `b` keeps `a` in front and puts exactly one slash
      between them, adding it only when `a` does not already end in one. */
  lemma JoinRelative(a: string, b: string)
    requires !(|b| > 0 && b[0] == '/')
    ensures var r := Join(a, b);
      && |a| + |b| <= |r| <= |a| + |b| + 1
      && r[..|a|] == a && r[|r| - |b|..] == b
      && (|r| > |a| + |b| <==> a != "" && a[|a| - 1] != '/')
      && (|r| > |a| + |b| ==> r[|a|] == '/')
  {
  }

  function DigitChar(d: nat): char
    requires d < 10
  {
    ('0' as int + d) as char
  }

  /** Python's `str(n)` for a non-negative integer. */
  function Decimal(n: nat): (s: string)
    ensures |s| >= 1
    ensures forall k :: 0 <= k < |s| ==> '0' <= s[k] <= '9'
    ensures |s| > 1 ==> s[0] != '0'
  {
    if n < 10 then [DigitChar(n)] else Decimal(n / 10) + [DigitChar(n % 10)]
  }

  /** The number a string of decimal digits denotes. */
  function DecimalValue(s: string): nat
    requires forall k :: 0 <= k < |s| ==> '0' <= s[k] <= '9'
  {
    if s == [] then 0
    else DecimalValue(s[..|s| - 1]) * 10 + (s[|s| - 1] as int - '0' as int)
  }

  /** Reading back the rendered digits gives the number, so distinct status
      codes never render alike. */
  lemma {:induction false} DecimalRoundTrip(n: nat)
    ensures DecimalValue(Decimal(n)) == n
  {
    if n >= 10 {
      DecimalRoundTrip(n / 10);
      var s := Decimal(n / 10);
      assert (s + [DigitChar(n % 10)])[..|s|] == s;
    }
  }

  predicate IsDigit(c: char)
  {
    '0' <= c <= '9'
  }

  /** Length of the run of decimal digits that `s` starts with. */
  function DigitRun(s: string): (n: nat)
    ensures n <= |s|
    ensures forall k :: 0 <= k < n ==> IsDigit(s[k])
    ensures n < |s| ==> !IsDigit(s[n])
  {
    if |s| > 0 && IsDigit(s[0]) then 1 + DigitRun(s[1..]) else 0
  }

  /** The digits of `str(n)` followed by text that does not start with a
      digit: the digit run is exactly `str(n)`. */
  lemma DigitRunOfDecimal(n: nat, rest: string)
    requires rest == "" || !IsDigit(rest[0])
    ensures DigitRun(Decimal(n) + rest) == |Decimal(n)|
    ensures (Decimal(n) + rest)[..|Decimal(n)|] == Decimal(n)
  {
    var d := Decimal(n);
    var s := d + rest;
    assert forall k :: 0 <= k < |d| ==> s[k] == d[k];
    assert |d| < |s| ==> !IsDigit(s[|d|]) by {
      if |d| < |s| { assert s[|d|] == rest[0]; }
    }
  }
}
