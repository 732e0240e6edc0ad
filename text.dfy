/** String operations the bot relies on from its host language: prefix tests,
    replacing the first occurrence of a pattern, splitting on a separator,
    printing a count in decimal and parsing a decimal prefix back. */
module Text {

  datatype Option<T> = None | Some(value: T)

  predicate StartsWith(s: string, prefix: string)
  {
    |prefix| <= |s| && s[..|prefix|] == prefix
  }

  /** `pat` occurs in `s` at position `i`. */
  predicate OccursAt(s: string, pat: string, i: nat)
  {
    i <= |s| && StartsWith(s[i..], pat)
  }

  /** String replace with a string pattern: the first match, scanning from
      the front, is replaced. The replacement is inserted verbatim (`$`
      patterns are not expanded). */
  function ReplaceFirst(s: string, pat: string, rep: string): string
    decreases |s|
  {
    if StartsWith(s, pat) then rep + s[|pat|..]
    else if s == [] then s
    else [s[0]] + ReplaceFirst(s[1..], pat, rep)
  }

  /** An occurrence in `s` after its first character is one in `s[1..]`. */
  lemma OccursShifted(s: string, pat: string, i: nat)
    requires 1 <= i <= |s|
    ensures OccursAt(s, pat, i) <==> OccursAt(s[1..], pat, i - 1)
  {
    assert s[i..] == s[1..][i - 1..];
  }

  /** A string in which the pattern does not occur comes back unchanged. */
  lemma {:induction false} ReplaceFirstWithoutOccurrence(s: string, pat: string, rep: string)
    requires forall i: nat :: i <= |s| ==> !OccursAt(s, pat, i)
    ensures ReplaceFirst(s, pat, rep) == s
    decreases |s|
  {
    assert s[0..] == s;
    assert !OccursAt(s, pat, 0);
    if s != [] {
      forall i: nat | i <= |s| - 1
        ensures !OccursAt(s[1..], pat, i)
      {
        OccursShifted(s, pat, i + 1);
      }
      ReplaceFirstWithoutOccurrence(s[1..], pat, rep);
      assert [s[0]] + s[1..] == s;
    }
  }

  /** Without a match at the front, the scan moves on by one character. */
  lemma ReplaceFirstSkip(s: string, pat: string, rep: string)
    requires s != [] && !StartsWith(s, pat)
    ensures ReplaceFirst(s, pat, rep) == [s[0]] + ReplaceFirst(s[1..], pat, rep)
  {
  }

  /** `pat` occurs nowhere in `s` before position `i`. */
  ghost predicate NoOccurrenceBefore(s: string, pat: string, i: nat)
  {
    forall j: nat :: j < i ==> !OccursAt(s, pat, j)
  }

  /** No occurrence before `i` in `s` means none before `i - 1` in `s[1..]`. */
  lemma NoEarlierOccurrence(s: string, pat: string, i: nat)
    requires 1 <= i <= |s|
    requires NoOccurrenceBefore(s, pat, i)
    ensures NoOccurrenceBefore(s[1..], pat, i - 1)
  {
    forall j: nat | j < i - 1
      ensures !OccursAt(s[1..], pat, j)
    {
      OccursShifted(s, pat, j + 1);
    }
  }

  /** Only the leftmost occurrence is replaced; everything around it is kept. */
  lemma {:induction false} ReplaceFirstAtFirstOccurrence(s: string, pat: string, rep: string, i: nat)
    requires OccursAt(s, pat, i) && NoOccurrenceBefore(s, pat, i)
    ensures ReplaceFirst(s, pat, rep) == s[..i] + rep + s[i + |pat|..]
    decreases i
  {
    assert s[0..] == s;
    if i == 0 {
      assert StartsWith(s, pat) && s[..0] == [];
    } else {
      assert !OccursAt(s, pat, 0);
      ReplaceFirstSkip(s, pat, rep);
      NoEarlierOccurrence(s, pat, i);
      OccursShifted(s, pat, i);
      ReplaceFirstAtFirstOccurrence(s[1..], pat, rep, i - 1);
      Recombine(s, rep, i, |pat|);
    }
  }

  /** Putting the first character back in front of a replacement made in
      `s[1..]` gives the same replacement made in `s`. */
  lemma Recombine(s: string, rep: string, i: nat, n: nat)
    requires 1 <= i && i + n <= |s|
    ensures [s[0]] + (s[1..][..i - 1] + rep + s[1..][i - 1 + n..]) == s[..i] + rep + s[i + n..]
  {
    var t := s[1..];
    assert t[i - 1 + n..] == s[i + n..];
    assert [s[0]] + t[..i - 1] == s[..i];
  }

  /** Splitting on a one-character separator: the fields between separators,
      in order, empty fields included, so there is always at least one. */
  function Split(s: string, sep: char): (fields: seq<string>)
    ensures |fields| >= 1
    ensures forall k :: 0 <= k < |fields| ==> sep !in fields[k]
    decreases |s|
  {
    if s == [] then [""]
    else
      var rest := Split(s[1..], sep);
      if s[0] == sep then [""] + rest
      else [[s[0]] + rest[0]] + rest[1..]
  }

  /** The inverse of Split: the fields glued back with the separator. */
  function Join(fields: seq<string>, sep: char): string
    requires |fields| >= 1
    decreases |fields|
  {
    if |fields| == 1 then fields[0] else fields[0] + [sep] + Join(fields[1..], sep)
  }

  lemma {:induction false} JoinSplit(s: string, sep: char)
    ensures Join(Split(s, sep), sep) == s
    decreases |s|
  {
    if s != [] {
      var rest := Split(s[1..], sep);
      JoinSplit(s[1..], sep);
      if s[0] != sep {
        var f := Split(s, sep);
        assert f[1..] == rest[1..];
        if |rest| == 1 {
          assert rest == [rest[0]];
        } else {
          assert Join(rest, sep) == rest[0] + [sep] + Join(rest[1..], sep);
          assert Join(f, sep) == [s[0]] + rest[0] + [sep] + Join(rest[1..], sep);
        }
      }
    }
  }

  /** A field free of the separator stays whole. */
  lemma {:induction false} SplitWithoutSeparator(s: string, sep: char)
    requires sep !in s
    ensures Split(s, sep) == [s]
    decreases |s|
  {
    if s != [] {
      assert s[0] != sep;
      assert sep !in s[1..];
      SplitWithoutSeparator(s[1..], sep);
      assert [s[0]] + s[1..] == s;
    }
  }

  /** A leading field free of the separator becomes the first field. */
  lemma {:induction false} SplitAtFirstSeparator(a: string, sep: char, b: string)
    requires sep !in a
    ensures Split(a + [sep] + b, sep) == [a] + Split(b, sep)
    decreases |a|
  {
    var s := a + [sep] + b;
    if a == [] {
      assert s[1..] == b;
    } else {
      assert s[1..] == a[1..] + [sep] + b;
      assert a[0] != sep && sep !in a[1..];
      SplitAtFirstSeparator(a[1..], sep, b);
      assert [a[0]] + a[1..] == a;
    }
  }

  predicate IsDigit(c: char)
  {
    '0' <= c <= '9'
  }

  predicate AllDigits(s: string)
  {
    forall k :: 0 <= k < |s| ==> IsDigit(s[k])
  }

  function DigitValue(c: char): (d: nat)
    requires IsDigit(c)
    ensures d < 10
  {
    c as int - '0' as int
  }

  function DigitChar(d: nat): (c: char)
    requires d < 10
    ensures IsDigit(c) && DigitValue(c) == d
  {
    ('0' as int + d) as char
  }

  /** A count written in decimal, without leading zeros. */
  function DecimalString(n: nat): (s: string)
    ensures |s| >= 1 && AllDigits(s)
    ensures |s| > 1 ==> s[0] != '0'
    decreases n
  {
    if n < 10 then [DigitChar(n)] else DecimalString(n / 10) + [DigitChar(n % 10)]
  }

  /** The value of a string of decimal digits. */
  function DigitsValue(s: string): nat
    requires AllDigits(s)
    decreases |s|
  {
    if s == [] then 0 else DigitsValue(s[..|s| - 1]) * 10 + DigitValue(s[|s| - 1])
  }

  /** The longest prefix of `s` made of decimal digits. */
  function DigitPrefix(s: string): (p: string)
    ensures StartsWith(s, p) && AllDigits(p)
    ensures |p| < |s| ==> !IsDigit(s[|p|])
    decreases |s|
  {
    if s == [] || !IsDigit(s[0]) then [] else [s[0]] + DigitPrefix(s[1..])
  }

  /** Integer parsing in base ten: the digits at the front are read and the
      rest ignored; with no digit in front there is no number. */
  function ParseInt(s: string): (r: Option<nat>)
    ensures r.None? <==> (s == [] || !IsDigit(s[0]))
  {
    var p := DigitPrefix(s);
    if p == [] then None else Some(DigitsValue(p))
  }

  lemma {:induction false} DecimalStringValue(n: nat)
    ensures DigitsValue(DecimalString(n)) == n
    decreases n
  {
    if n >= 10 {
      var hi := DecimalString(n / 10);
      var s := hi + [DigitChar(n % 10)];
      assert s[..|s| - 1] == hi;
      DecimalStringValue(n / 10);
    }
  }

  /** Printing a count and parsing it back gives the count. */
  lemma DecimalRoundTrip(n: nat)
    ensures ParseInt(DecimalString(n)) == Some(n)
  {
    var s := DecimalString(n);
    assert DigitPrefix(s) == s;
    DecimalStringValue(n);
  }
}
