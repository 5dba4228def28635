/**
 * The java.lang.String and java.lang.Integer operations the handlers rely on:
 * `replace`, `split(",")`, `Integer.parseInt` and, as its inverse, `Integer.toString`.
 */
module JavaText {
  import opened Wrappers

  // ---------------------------------------------------------------------------
  // String.replace(CharSequence, CharSequence)
  // ---------------------------------------------------------------------------

  /** True when `target` occurs in `s` starting at index `i`. */
  predicate OccursAt(s: string, target: string, i: int) {
    0 <= i && i + |target| <= |s| && s[i..i + |target|] == target
  }

  predicate Contains(s: string, target: string) {
    exists i :: 0 <= i <= |s| && OccursAt(s, target, i)
  }

  /**
   * `s.replace(target, replacement)`: scanning left to right, every
   * non-overlapping occurrence of `target` is replaced; an empty target puts
   * the replacement before every character and once more at the end.
   */
  function Replace(s: string, target: string, replacement: string): string
    decreases |s|
  {
    if |target| == 0 then
      if |s| == 0 then replacement else replacement + [s[0]] + Replace(s[1..], target, replacement)
    else if |s| < |target| then s
    else if s[..|target|] == target then replacement + Replace(s[|target|..], target, replacement)
    else [s[0]] + Replace(s[1..], target, replacement)
  }

  /** A string in which the target does not occur is returned unchanged. */
  lemma {:induction false} ReplaceWithoutOccurrence(s: string, target: string, replacement: string)
    requires |target| > 0 && !Contains(s, target)
    ensures Replace(s, target, replacement) == s
  {
    if |s| >= |target| {
      assert !OccursAt(s, target, 0);
      assert s[..|target|] != target;
      forall i | OccursAt(s[1..], target, i) ensures false {
        assert s[1..][i..i + |target|] == s[i + 1..i + 1 + |target|];
        assert OccursAt(s, target, i + 1);
      }
      ReplaceWithoutOccurrence(s[1..], target, replacement);
    }
  }

  /**
   * The first occurrence of the target is replaced, and the scan carries on
   * right after it: everything before it is kept as it is.
   */
  lemma {:induction false} ReplaceFirstOccurrence(a: string, target: string, b: string, replacement: string)
    requires |target| > 0
    requires forall i :: 0 <= i < |a| ==> !OccursAt(a + target + b, target, i)
    ensures Replace(a + target + b, target, replacement) == a + replacement + Replace(b, target, replacement)
    decreases |a|
  {
    var s := a + target + b;
    if |a| == 0 {
      assert s == target + b;
      assert s[..|target|] == target && s[|target|..] == b;
    } else {
      var s' := a[1..] + target + b;
      assert s[1..] == s';
      assert s[..|target|] != target by {
        assert !OccursAt(s, target, 0);
      }
      assert Replace(s, target, replacement) == [s[0]] + Replace(s', target, replacement);
      forall i | 0 <= i < |a[1..]|
        ensures !OccursAt(s', target, i)
      {
        assert !OccursAt(s, target, i + 1);
        if i + |target| <= |s'| {
          assert s'[i..i + |target|] == s[i + 1..i + 1 + |target|];
        }
      }
      ReplaceFirstOccurrence(a[1..], target, b, replacement);
      assert [a[0]] + a[1..] == a;
    }
  }

  /** Every occurrence goes, for instance the one token of a greeting. */
  lemma ReplaceExample()
    ensures Replace("Hi %name%!", "%name%", "Acme") == "Hi Acme!"
  {
    var s := "Hi %name%!";
    forall i | 0 <= i < 3 ensures !OccursAt(s, "%name%", i) {
      assert s[i] != '%';
      assert s[i..i + 6][0] == s[i];
    }
    assert s == "Hi " + "%name%" + "!";
    ReplaceFirstOccurrence("Hi ", "%name%", "!", "Acme");
  }

  /** Every character of the result comes from the input or from the replacement. */
  lemma {:induction false} ReplaceCharacters(s: string, target: string, replacement: string, c: char)
    requires c in Replace(s, target, replacement)
    ensures c in s || c in replacement
  {
    var r := Replace(s, target, replacement);
    if |target| == 0 {
      if |s| > 0 && c !in replacement && c != s[0] {
        ReplaceCharacters(s[1..], target, replacement, c);
      }
    } else if |s| >= |target| {
      if s[..|target|] == target {
        if c !in replacement {
          ReplaceCharacters(s[|target|..], target, replacement, c);
        }
      } else if c != s[0] {
        ReplaceCharacters(s[1..], target, replacement, c);
      }
    }
  }

  // ---------------------------------------------------------------------------
  // String.split(",")
  // ---------------------------------------------------------------------------

  /** Number of occurrences of `c` in `s`. */
  function Count(s: string, c: char): nat {
    if |s| == 0 then 0 else (if s[0] == c then 1 else 0) + Count(s[1..], c)
  }

  /**
   * Every piece of `s` between separators, empty pieces included: one more
   * piece than there are separators, and no piece contains the separator.
   */
  function SplitAll(s: string, sep: char): (pieces: seq<string>)
    ensures |pieces| == Count(s, sep) + 1
    ensures forall i :: 0 <= i < |pieces| ==> sep !in pieces[i]
    decreases |s|
  {
    if |s| == 0 then [""]
    else
      var rest := SplitAll(s[1..], sep);
      if s[0] == sep then [""] + rest
      else [[s[0]] + rest[0]] + rest[1..]
  }

  /** The pieces put back together with the separator between them. */
  function Join(pieces: seq<string>, sep: char): string {
    if |pieces| == 0 then ""
    else if |pieces| == 1 then pieces[0]
    else pieces[0] + [sep] + Join(pieces[1..], sep)
  }

  /** Splitting loses nothing: joining the pieces gives back the input. */
  lemma {:induction false} JoinSplitAll(s: string, sep: char)
    ensures Join(SplitAll(s, sep), sep) == s
  {
    if |s| > 0 {
      var rest := SplitAll(s[1..], sep);
      JoinSplitAll(s[1..], sep);
      if s[0] == sep {
        assert s == [sep] + s[1..];
      } else if |rest| == 1 {
        assert s == [s[0]] + s[1..];
      } else {
        assert Join(rest, sep) == rest[0] + [sep] + Join(rest[1..], sep);
        assert s == [s[0]] + s[1..];
      }
    }
  }

  /** Splitting inverts joining pieces that do not contain the separator. */
  lemma {:induction false} SplitAllJoin(pieces: seq<string>, sep: char)
    requires |pieces| >= 1
    requires forall i :: 0 <= i < |pieces| ==> sep !in pieces[i]
    ensures SplitAll(Join(pieces, sep), sep) == pieces
  {
    if |pieces| == 1 {
      SplitAllWithoutSeparator(pieces[0], sep);
    } else {
      SplitAllJoin(pieces[1..], sep);
      SplitAllFrontPiece(pieces[0], Join(pieces[1..], sep), sep);
      assert pieces == [pieces[0]] + pieces[1..];
    }
  }

  lemma {:induction false} SplitAllWithoutSeparator(s: string, sep: char)
    requires sep !in s
    ensures SplitAll(s, sep) == [s]
  {
    if |s| > 0 {
      SplitAllWithoutSeparator(s[1..], sep);
      assert s == [s[0]] + s[1..];
    }
  }

  lemma {:induction false} SplitAllFrontPiece(a: string, b: string, sep: char)
    requires sep !in a
    ensures SplitAll(a + [sep] + b, sep) == [a] + SplitAll(b, sep)
  {
    if |a| == 0 {
      assert (a + [sep] + b)[1..] == b;
    } else {
      assert (a + [sep] + b)[1..] == a[1..] + [sep] + b;
      SplitAllFrontPiece(a[1..], b, sep);
      assert [a[0]] + a[1..] == a;
    }
  }

  /** Drops the empty pieces at the end, as String.split with limit 0 does. */
  function StripTrailingEmpty(pieces: seq<string>): (r: seq<string>)
    ensures r <= pieces
    ensures forall i :: |r| <= i < |pieces| ==> pieces[i] == ""
    ensures |r| == 0 || r[|r| - 1] != ""
  {
    if |pieces| == 0 then []
    else if pieces[|pieces| - 1] == "" then StripTrailingEmpty(pieces[..|pieces| - 1])
    else pieces
  }

  /**
   * `s.split(sep)` for a one-character literal separator: the whole string
   * when the separator does not occur, otherwise every piece between
   * separators with the trailing empty pieces removed.
   */
  function Split(s: string, sep: char): (r: seq<string>)
    ensures sep !in s ==> r == [s]
    ensures sep in s ==> r <= SplitAll(s, sep) && (|r| == 0 || r[|r| - 1] != "")
    ensures sep in s ==> forall i :: |r| <= i < |SplitAll(s, sep)| ==> SplitAll(s, sep)[i] == ""
    ensures forall i :: 0 <= i < |r| ==> sep !in r[i]
  {
    if sep !in s then [s] else StripTrailingEmpty(SplitAll(s, sep))
  }

  // ---------------------------------------------------------------------------
  // Integer.parseInt and Integer.toString
  // ---------------------------------------------------------------------------

  const MinInt: int := -0x8000_0000
  const MaxInt: int := 0x7fff_ffff

  predicate IsDigit(c: char) {
    '0' <= c <= '9'
  }

  predicate AllDigits(s: string) {
    forall i :: 0 <= i < |s| ==> IsDigit(s[i])
  }

  /** The decimal value of a string of digits. */
  function DigitsValue(digits: string): nat
    requires AllDigits(digits)
  {
    if |digits| == 0 then 0
    else DigitsValue(digits[..|digits| - 1]) * 10 + (digits[|digits| - 1] as int - '0' as int)
  }

  /**
   * `Integer.parseInt(s)`: an optional sign, then one or more decimal digits,
   * and a value inside the 32-bit range; anything else is a
   * NumberFormatException, here `None`.
   */
  function ParseInt(s: string): (r: Option<int>)
    ensures r.Some? ==> MinInt <= r.value <= MaxInt
    ensures r.Some? ==> |s| > 0
  {
    if |s| == 0 then None
    else
      var digits := if s[0] == '-' || s[0] == '+' then s[1..] else s;
      if |digits| == 0 || !AllDigits(digits) then None
      else
        var magnitude: int := DigitsValue(digits);
        var v := if s[0] == '-' then -magnitude else magnitude;
        if MinInt <= v <= MaxInt then Some(v) else None
  }

  /**
   * Which texts parse: a character that is neither a digit nor a sign at the
   * front, a lone sign, or nothing at all is refused.
   */
  lemma ParseIntRejects(s: string, k: int)
    requires 0 <= k < |s| && !IsDigit(s[k])
    requires !(k == 0 && (s[0] == '-' || s[0] == '+') && |s| > 1)
    ensures ParseInt(s) == None
  {
    if s[0] == '-' || s[0] == '+' {
      if |s| > 1 {
        assert s[1..][k - 1] == s[k];
      }
    }
  }

  /**
   * The value of the texts that parse: the digits' decimal value, leading
   * zeros included, as long as it is inside the 32-bit range.
   */
  lemma ParseIntDigits(digits: string)
    requires |digits| > 0 && AllDigits(digits)
    ensures ParseInt(digits) == if DigitsValue(digits) <= MaxInt then Some(DigitsValue(digits)) else None
  {
    assert IsDigit(digits[0]);
  }

  /** A leading '+' changes nothing. */
  lemma ParseIntPlus(digits: string)
    requires |digits| > 0 && AllDigits(digits)
    ensures ParseInt("+" + digits) == ParseInt(digits)
  {
    var plus := "+" + digits;
    assert plus[0] == '+' && plus[1..] == digits;
    ParseIntDigits(digits);
  }

  /** A leading '-' negates the value, down to the smallest 32-bit integer. */
  lemma ParseIntMinus(digits: string)
    requires |digits| > 0 && AllDigits(digits)
    ensures ParseInt("-" + digits) == if DigitsValue(digits) <= -MinInt then Some(-(DigitsValue(digits) as int)) else None
  {
    var minus := "-" + digits;
    assert minus[0] == '-' && minus[1..] == digits;
  }

  lemma ParseIntExamples()
    ensures ParseInt("+5") == Some(5)
    ensures ParseInt("007") == Some(7)
    ensures ParseInt("12a") == None
    ensures ParseInt("-") == None
  {
    ParseIntPlus("5");
    ParseIntDigits("5");
    assert "+5" == "+" + "5";
    ParseIntDigits("007");
    ParseIntRejects("12a", 2);
  }

  function DigitChar(d: nat): char
    requires d < 10
  {
    ('0' as int + d) as char
  }

  /** The decimal digits of a natural number, without leading zeros. */
  function NatToString(n: nat): (s: string)
    ensures |s| > 0 && AllDigits(s)
  {
    if n < 10 then [DigitChar(n)] else NatToString(n / 10) + [DigitChar(n % 10)]
  }

  /** `Integer.toString(n)`. */
  function IntToString(n: int): string {
    if n < 0 then "-" + NatToString(-n) else NatToString(n)
  }

  lemma {:induction false} DigitsOfNat(n: nat)
    ensures DigitsValue(NatToString(n)) == n
  {
    var s := NatToString(n);
    if n >= 10 {
      DigitsOfNat(n / 10);
      assert s[..|s| - 1] == NatToString(n / 10);
    }
  }

  /** Parsing inverts printing on the whole 32-bit range. */
  lemma ParseIntToString(n: int)
    requires MinInt <= n <= MaxInt
    ensures ParseInt(IntToString(n)) == Some(n)
  {
    var s := IntToString(n);
    if n < 0 {
      DigitsOfNat(-n);
      assert s[1..] == NatToString(-n);
    } else {
      DigitsOfNat(n);
      assert s[0] != '-' && s[0] != '+';
    }
  }
}
