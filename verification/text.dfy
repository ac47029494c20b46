/** The small slice of Python's `str` behaviour the bot relies on:
    `isspace`, `split(sep)`, `split()[-1]`, `strip()` and `str(n)` for a
    natural number. Strings are sequences of Unicode code points, exactly
    as Python's `str` is. */
module Text {
  import opened Wrappers

  /** Python's `str.isspace()` on a single code point. Note that the
      zero-width non-joiner U+200C, common in Persian text, is not
      whitespace. */
  predicate IsSpace(c: char) {
    || c == ' '
    || ('\t' <= c <= '\r')
    || ('\U{1c}' <= c <= '\U{1f}')
    || c == '\U{85}'
    || c == '\U{a0}'
    || c == '\U{1680}'
    || ('\U{2000}' <= c <= '\U{200a}')
    || c == '\U{2028}'
    || c == '\U{2029}'
    || c == '\U{202f}'
    || c == '\U{205f}'
    || c == '\U{3000}'
  }

  predicate AllSpace(s: string) {
    forall i :: 0 <= i < |s| ==> IsSpace(s[i])
  }

  predicate NoSpace(s: string) {
    forall i :: 0 <= i < |s| ==> !IsSpace(s[i])
  }

  // ---------------------------------------------------------------------
  // split(sep) and its inverse, sep.join(parts)
  // ---------------------------------------------------------------------

  /** `sep.join(parts)` for a one-character separator. */
  function Join(parts: seq<string>, sep: char): string
    requires |parts| > 0
  {
    if |parts| == 1 then parts[0] else parts[0] + [sep] + Join(parts[1..], sep)
  }

  /** `s.split(sep)` for a one-character separator: the pieces between
      occurrences of `sep`, always at least one (possibly empty) piece. */
  function Split(s: string, sep: char): (parts: seq<string>)
    ensures |parts| > 0
    ensures forall i :: 0 <= i < |parts| ==> sep !in parts[i]
    decreases |s|
  {
    if |s| == 0 then [""]
    else
      var rest := Split(s[1..], sep);
      if s[0] == sep then [""] + rest
      else [[s[0]] + rest[0]] + rest[1..]
  }

  /** Round trip: joining the pieces of a split with the separator gives
      back the original text. */
  lemma {:induction false} JoinSplit(s: string, sep: char)
    ensures Join(Split(s, sep), sep) == s
    decreases |s|
  {
    if |s| > 0 {
      var rest := Split(s[1..], sep);
      JoinSplit(s[1..], sep);
      if s[0] == sep {
        assert ([""] + rest)[1..] == rest;
      } else {
        var parts := [[s[0]] + rest[0]] + rest[1..];
        assert parts[1..] == rest[1..];
        assert s == [s[0]] + s[1..];
      }
    }
  }

  /** A piece without the separator is not split any further. */
  lemma {:induction false} SplitNoSep(p: string, sep: char)
    requires sep !in p
    ensures Split(p, sep) == [p]
    decreases |p|
  {
    if |p| > 0 {
      assert sep !in p[1..] by {
        forall i | 0 <= i < |p[1..]| ensures p[1..][i] != sep {
          assert p[1..][i] == p[i + 1];
        }
      }
      SplitNoSep(p[1..], sep);
      assert [p[0]] + p[1..] == p;
    }
  }

  /** Splitting `p + sep + rest` peels off exactly the piece `p`. */
  lemma {:induction false} SplitCons(p: string, sep: char, rest: string)
    requires sep !in p
    ensures Split(p + [sep] + rest, sep) == [p] + Split(rest, sep)
    decreases |p|
  {
    var s := p + [sep] + rest;
    if |p| == 0 {
      assert s[0] == sep && s[1..] == rest;
    } else {
      assert s[0] == p[0];
      assert s[1..] == p[1..] + [sep] + rest;
      assert sep !in p[1..] by {
        forall i | 0 <= i < |p[1..]| ensures p[1..][i] != sep {
          assert p[1..][i] == p[i + 1];
        }
      }
      SplitCons(p[1..], sep, rest);
      assert [p[0]] + p[1..] == p;
    }
  }

  /** Round trip: joining pieces that do not contain the separator and
      splitting again gives back the same pieces. */
  lemma {:induction false} SplitJoin(parts: seq<string>, sep: char)
    requires |parts| > 0
    requires forall i :: 0 <= i < |parts| ==> sep !in parts[i]
    ensures Split(Join(parts, sep), sep) == parts
    decreases |parts|
  {
    if |parts| == 1 {
      SplitNoSep(parts[0], sep);
    } else {
      SplitCons(parts[0], sep, Join(parts[1..], sep));
      SplitJoin(parts[1..], sep);
      assert [parts[0]] + parts[1..] == parts;
    }
  }

  // ---------------------------------------------------------------------
  // strip() and split()[-1]
  // ---------------------------------------------------------------------

  /** The index of the first non-whitespace character at or after `i`,
      or `|s|` when there is none. */
  function SkipSpaces(s: string, i: nat): (k: nat)
    requires i <= |s|
    ensures i <= k <= |s|
    ensures forall j :: i <= j < k ==> IsSpace(s[j])
    ensures k < |s| ==> !IsSpace(s[k])
    decreases |s| - i
  {
    if i < |s| && IsSpace(s[i]) then SkipSpaces(s, i + 1) else i
  }

  /** The smallest `k <= i` such that `s[k..i]` is all whitespace: where
      the whitespace that ends at `i` begins. */
  function SkipSpacesBack(s: string, i: nat): (k: nat)
    requires i <= |s|
    ensures k <= i
    ensures forall j :: k <= j < i ==> IsSpace(s[j])
    ensures k > 0 ==> !IsSpace(s[k - 1])
    decreases i
  {
    if i > 0 && IsSpace(s[i - 1]) then SkipSpacesBack(s, i - 1) else i
  }

  /** The smallest `k <= i` such that `s[k..i]` has no whitespace: where
      the word that ends at `i` begins. */
  function WordStart(s: string, i: nat): (k: nat)
    requires i <= |s|
    ensures k <= i
    ensures forall j :: k <= j < i ==> !IsSpace(s[j])
    ensures k > 0 ==> IsSpace(s[k - 1])
    decreases i
  {
    if i > 0 && !IsSpace(s[i - 1]) then WordStart(s, i - 1) else i
  }

  /** `s.strip()`: the text between the leading and trailing whitespace. */
  function Strip(s: string): (r: string)
    ensures |r| <= |s|
    ensures |r| > 0 ==> !IsSpace(r[0]) && !IsSpace(r[|r| - 1])
    ensures r == "" <==> AllSpace(s)
    ensures |s| > 0 && !IsSpace(s[0]) && !IsSpace(s[|s| - 1]) ==> r == s
    ensures var b := SkipSpaces(s, 0);
      r == "" || (b + |r| <= |s| && r == s[b..b + |r|] && AllSpace(s[..b]) && AllSpace(s[b + |r|..]))
  {
    var b := SkipSpaces(s, 0);
    var e := SkipSpacesBack(s, |s|);
    if e <= b then "" else s[b..e]
  }

  /** Stripping only removes characters: whatever `s` lacks, so does
      `s.strip()`. */
  lemma StripOmits(s: string, c: char)
    requires c !in s
    ensures c !in Strip(s)
  {
    var b := SkipSpaces(s, 0);
    var e := SkipSpacesBack(s, |s|);
    if b < e {
      var r := s[b..e];
      forall k | 0 <= k < |r| ensures r[k] != c {
        assert r[k] == s[b + k];
      }
    }
  }

  /** Whitespace around a word with non-space ends is exactly what
      `strip()` removes. */
  lemma StripPadded(pre: string, core: string, post: string)
    requires AllSpace(pre) && AllSpace(post)
    requires |core| > 0 && !IsSpace(core[0]) && !IsSpace(core[|core| - 1])
    ensures Strip(pre + core + post) == core
  {
    var s := pre + core + post;
    var r := Strip(s);
    assert s[|pre|] == core[0];
    assert s[|pre| + |core| - 1] == core[|core| - 1];
    assert !AllSpace(s) by { assert !IsSpace(s[|pre|]); }
    var b := SkipSpaces(s, 0);
    assert b == |pre|;
    assert r == s[|pre|..|pre| + |core|];
    assert s[|pre|..|pre| + |core|] == core;
  }

  /** Stripping twice strips nothing more. */
  lemma StripIdempotent(s: string)
    ensures Strip(Strip(s)) == Strip(s)
  {
  }

  /** `s.split()[-1]`: the last whitespace-separated word, or `None` where
      Python raises `IndexError` because `s` has no word at all. The word
      ends where the trailing whitespace begins and starts just after a
      whitespace character or at the start of `s`. */
  function LastWord(s: string): (w: Option<string>)
    ensures w.None? <==> AllSpace(s)
    ensures w.Some? ==>
      var e := SkipSpacesBack(s, |s|);
      && 0 < |w.value| <= e
      && NoSpace(w.value)
      && s[e - |w.value|..e] == w.value
      && (|w.value| < e ==> IsSpace(s[e - |w.value| - 1]))
  {
    var e := SkipSpacesBack(s, |s|);
    if e == 0 then None
    else
      var b := WordStart(s, e);
      assert !AllSpace(s) by { assert !IsSpace(s[e - 1]); }
      Some(s[b..e])
  }

  /** A text that ends in a non-space character has a last word: the
      whole run of non-space characters at its end. */
  lemma LastWordOfTrimmed(s: string)
    requires |s| > 0 && !IsSpace(s[|s| - 1])
    ensures LastWord(s).Some?
    ensures var w := LastWord(s).value;
      && 0 < |w| <= |s| && NoSpace(w)
      && w == s[|s| - |w|..]
      && (|w| < |s| ==> IsSpace(s[|s| - |w| - 1]))
  {
    assert SkipSpacesBack(s, |s|) == |s|;
  }

  /** The last word of a text that ends with a space and a word is that
      word. */
  lemma LastWordAfterSpace(prefix: string, word: string)
    requires |word| > 0 && NoSpace(word)
    ensures LastWord(prefix + " " + word) == Some(word)
  {
    var s := prefix + " " + word;
    assert s[|s| - 1] == word[|word| - 1];
    LastWordOfTrimmed(s);
    var w := LastWord(s).value;
    assert s[|s| - |word|..] == word;
    assert s[|s| - |word| - 1] == ' ';
  }

  // ---------------------------------------------------------------------
  // str(n) for a natural number
  // ---------------------------------------------------------------------

  predicate IsDigit(c: char) {
    '0' <= c <= '9'
  }

  function DigitChar(d: nat): (c: char)
    requires d < 10
    ensures IsDigit(c)
  {
    (('0' as int) + d) as char
  }

  /** `str(n)`: the decimal digits of `n`, without leading zeros. */
  function NatToString(n: nat): (s: string)
    ensures |s| > 0
    ensures forall i :: 0 <= i < |s| ==> IsDigit(s[i])
    ensures |s| > 1 ==> s[0] != '0'
    decreases n
  {
    if n < 10 then [DigitChar(n)] else NatToString(n / 10) + [DigitChar(n % 10)]
  }

  function DigitOf(c: char): (d: nat)
    requires IsDigit(c)
    ensures d < 10
  {
    c as int - '0' as int
  }

  /** The number a string of decimal digits denotes (Python's `int(s)` on a
      digit string). */
  function DigitsValue(s: string): nat
    requires forall i :: 0 <= i < |s| ==> IsDigit(s[i])
    decreases |s|
  {
    if |s| == 0 then 0
    else DigitsValue(s[..|s| - 1]) * 10 + DigitOf(s[|s| - 1])
  }

  /** Round trip: reading back the digits `str(n)` writes gives `n`. */
  lemma {:induction false} NatToStringRoundTrip(n: nat)
    ensures DigitsValue(NatToString(n)) == n
    decreases n
  {
    if n >= 10 {
      var s := NatToString(n);
      NatToStringRoundTrip(n / 10);
      assert s[..|s| - 1] == NatToString(n / 10);
    }
  }

  /** Different numbers are written differently. */
  lemma NatToStringInjective(m: nat, n: nat)
    ensures NatToString(m) == NatToString(n) ==> m == n
  {
    NatToStringRoundTrip(m);
    NatToStringRoundTrip(n);
  }
}
