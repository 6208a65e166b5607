// String primitives of the Python runtime that the bot relies on:
// `str.split` with a one-character separator, `str.join`, `str.endswith`,
// `str.isdigit` (ASCII digits only), `int(s)` on a digit string and `str(n)`
// on an integer.

module Strings {

  /** The pieces of `s` between occurrences of `c`: Python's `s.split(c)`. */
  function Split(s: string, c: char): (parts: seq<string>)
    ensures |parts| >= 1
    decreases |s|
  {
    if |s| == 0 then [""]
    else if s[0] == c then [""] + Split(s[1..], c)
    else
      var rest := Split(s[1..], c);
      [[s[0]] + rest[0]] + rest[1..]
  }

  /** The longest prefix of `s` that does not contain `c`. */
  function Before(s: string, c: char): (r: string)
    ensures c !in r
    ensures |r| <= |s| && r == s[..|r|]
    ensures |r| == |s| || s[|r|] == c
  {
    if |s| == 0 then []
    else if s[0] == c then []
    else [s[0]] + Before(s[1..], c)
  }

  /** The longest suffix of `s` that does not contain `c`. */
  function AfterLast(s: string, c: char): (r: string)
    ensures c !in r
    ensures |r| <= |s| && r == s[|s| - |r|..]
    ensures |r| == |s| || s[|s| - |r| - 1] == c
  {
    if |s| == 0 then []
    else if c in s[1..] then
      var r := AfterLast(s[1..], c);
      assert r != s[1..];
      assert s[1..][|s| - 1 - |r|..] == s[|s| - |r|..];
      r
    else if s[0] == c then s[1..]
    else s
  }

  lemma {:induction false} SplitWithoutSeparator(s: string, c: char)
    requires c !in s
    ensures Split(s, c) == [s]
    decreases |s|
  {
    if |s| > 0 {
      SplitWithoutSeparator(s[1..], c);
      assert [s[0]] + s[1..] == s;
    }
  }

  lemma {:induction false} SplitSingleIffNoSeparator(s: string, c: char)
    ensures |Split(s, c)| == 1 <==> c !in s
    decreases |s|
  {
    if |s| > 0 {
      SplitSingleIffNoSeparator(s[1..], c);
      assert c in s <==> s[0] == c || c in s[1..];
    }
  }

  /** The first piece of `s.split(c)` is everything before the first `c`. */
  lemma {:induction false} SplitFirst(s: string, c: char)
    ensures Split(s, c)[0] == Before(s, c)
    decreases |s|
  {
    if |s| > 0 && s[0] != c {
      SplitFirst(s[1..], c);
    }
  }

  /** The last piece of `s.split(c)` is everything after the last `c`. */
  lemma {:induction false} SplitLast(s: string, c: char)
    ensures var parts := Split(s, c); parts[|parts| - 1] == AfterLast(s, c)
    decreases |s|
  {
    if |s| > 0 {
      SplitLast(s[1..], c);
      if c in s[1..] {
        SplitLastOfTail(s, c);
      } else {
        SplitLastWithoutSeparator(s, c);
      }
    }
  }

  /** When the tail still has a `c`, the last piece is the tail's last piece. */
  lemma SplitLastOfTail(s: string, c: char)
    requires |s| > 0 && c in s[1..]
    requires var rest := Split(s[1..], c); rest[|rest| - 1] == AfterLast(s[1..], c)
    ensures var parts := Split(s, c); parts[|parts| - 1] == AfterLast(s, c)
  {
    SplitSingleIffNoSeparator(s[1..], c);
    assert AfterLast(s, c) == AfterLast(s[1..], c);
  }

  /** When the tail has no `c`, the last piece is the tail or the whole string. */
  lemma SplitLastWithoutSeparator(s: string, c: char)
    requires |s| > 0 && c !in s[1..]
    ensures var parts := Split(s, c); parts[|parts| - 1] == AfterLast(s, c)
  {
    var tail := s[1..];
    SplitWithoutSeparator(tail, c);
    if s[0] != c {
      assert [s[0]] + tail == s;
      assert Split(s, c) == [s];
    }
  }

  /** Appending text that has no `c` only extends the part after the last `c`. */
  lemma {:induction false} AfterLastAppend(s: string, t: string, c: char)
    requires c !in t
    ensures AfterLast(s + t, c) == AfterLast(s, c) + t
    decreases |s|
  {
    if |s| == 0 {
      assert s + t == t;
    } else {
      assert (s + t)[1..] == s[1..] + t;
      assert c in s[1..] + t <==> c in s[1..] by {
        assert forall x :: x in s[1..] + t <==> x in s[1..] || x in t;
      }
      AfterLastAppend(s[1..], t, c);
    }
  }

  /** Nothing follows a trailing separator. */
  lemma {:induction false} AfterLastOfTrailingSeparator(s: string, c: char)
    ensures AfterLast(s + [c], c) == []
    decreases |s|
  {
    if |s| > 0 {
      assert (s + [c])[1..] == s[1..] + [c];
      assert c in s[1..] + [c];
      AfterLastOfTrailingSeparator(s[1..], c);
    }
  }

  /** Text after an occurrence of `c` does not change what comes before the first `c`. */
  lemma {:induction false} BeforeAppend(s: string, t: string, c: char)
    ensures c in s ==> Before(s + t, c) == Before(s, c)
    ensures c !in s ==> Before(s + t, c) == s + Before(t, c)
    decreases |s|
  {
    if |s| == 0 {
      assert s + t == t;
    } else {
      assert (s + t)[1..] == s[1..] + t;
      BeforeAppend(s[1..], t, c);
      if s[0] != c {
        assert c in s <==> c in s[1..];
        assert [s[0]] + (s[1..] + Before(t, c)) == s + Before(t, c);
      }
    }
  }

  /** Python's `sep.join(parts)`. */
  function Join(sep: string, parts: seq<string>): string
    decreases |parts|
  {
    if |parts| == 0 then ""
    else if |parts| == 1 then parts[0]
    else parts[0] + sep + Join(sep, parts[1..])
  }

  /** Python's `s.endswith(suffix)`. */
  predicate EndsWith(s: string, suffix: string) {
    |suffix| <= |s| && s[|s| - |suffix|..] == suffix
  }

  /** Python's `s.startswith(prefix)`. */
  predicate StartsWith(s: string, prefix: string) {
    |prefix| <= |s| && s[..|prefix|] == prefix
  }

  predicate IsDigit(ch: char) {
    '0' <= ch <= '9'
  }

  /** Python's `s.isdigit()`, restricted to the ASCII digits. */
  predicate IsDigits(s: string) {
    |s| > 0 && forall i :: 0 <= i < |s| ==> IsDigit(s[i])
  }

  /** Python's `int(s)` for a string of decimal digits. */
  function DigitsValue(s: string): nat
    requires forall i :: 0 <= i < |s| ==> IsDigit(s[i])
    decreases |s|
  {
    if |s| == 0 then 0
    else DigitsValue(s[..|s| - 1]) * 10 + DigitVal(s[|s| - 1])
  }

  function DigitVal(ch: char): nat
    requires IsDigit(ch)
  {
    ch as int - '0' as int
  }

  function DigitChar(d: nat): (ch: char)
    requires d < 10
    ensures IsDigit(ch) && DigitVal(ch) == d
  {
    ('0' as int + d) as char
  }

  /** Python's `str(n)` for a non-negative integer. */
  function NatToString(n: nat): string
    decreases n
  {
    if n < 10 then [DigitChar(n)]
    else NatToString(n / 10) + [DigitChar(n % 10)]
  }

  /** Python's `str(n)` for an integer. */
  function IntToString(n: int): string {
    if n < 0 then "-" + NatToString(-n) else NatToString(n)
  }

  /** `int(str(n)) == n` for every non-negative `n`. */
  lemma {:induction false} NatToStringDigits(n: nat)
    ensures IsDigits(NatToString(n))
    ensures DigitsValue(NatToString(n)) == n
    decreases n
  {
    if n >= 10 {
      NatToStringDigits(n / 10);
      var a := NatToString(n / 10);
      var s := a + [DigitChar(n % 10)];
      assert s[..|s| - 1] == a;
      assert DigitsValue(s) == DigitsValue(a) * 10 + n % 10;
    }
  }

  /** `str(n).isdigit()` holds exactly for the non-negative integers. */
  lemma IntToStringDigits(n: int)
    ensures IsDigits(IntToString(n)) <==> n >= 0
    ensures n >= 0 ==> DigitsValue(IntToString(n)) == n
  {
    if n >= 0 {
      NatToStringDigits(n);
    } else {
      assert IntToString(n)[0] == '-';
    }
  }
}
