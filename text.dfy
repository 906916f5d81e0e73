/**
 * The string operations the parser relies on: Python's `in` on strings,
 * `str.split` with a one-character separator, the numeric cleanup
 * `re.sub('[^0-9.]', '', s.split('\x00')[0])` and `float()` applied to
 * its result.
 */
module Text {
  import opened Wrappers

  const NUL: char := '\0'

  // ---------------------------------------------------------------------
  // Substring containment (Python's `p in s` for strings)
  // ---------------------------------------------------------------------

  /** `p` occurs in `s` starting at index `i`. */
  ghost predicate OccursAt(s: string, p: string, i: int) {
    0 <= i && i + |p| <= |s| && s[i..i + |p|] == p
  }

  /** Python's `p in s`. */
  predicate Contains(s: string, p: string)
    decreases |s|
  {
    |p| <= |s| && (s[..|p|] == p || Contains(s[1..], p))
  }

  lemma {:induction false} ContainsIff(s: string, p: string)
    ensures Contains(s, p) <==> exists i :: OccursAt(s, p, i)
    decreases |s|
  {
    if |p| <= |s| {
      if s[..|p|] == p {
        assert OccursAt(s, p, 0);
      } else {
        ContainsIff(s[1..], p);
        forall i | OccursAt(s, p, i) && i > 0
          ensures OccursAt(s[1..], p, i - 1)
        {
          assert s[1..][i - 1..i - 1 + |p|] == s[i..i + |p|];
        }
        forall i | OccursAt(s[1..], p, i)
          ensures OccursAt(s, p, i + 1)
        {
          assert s[1..][i..i + |p|] == s[i + 1..i + 1 + |p|];
        }
      }
    }
  }

  /** A string that is too short cannot contain the pattern. */
  lemma ShorterNeverContains(s: string, p: string)
    requires |s| < |p|
    ensures !Contains(s, p)
  {
  }

  /** Containment is transitive: text holding `p` holds everything `p` holds. */
  lemma ContainsTransitive(s: string, p: string, q: string)
    requires Contains(s, p) && Contains(p, q)
    ensures Contains(s, q)
  {
    ContainsIff(s, p);
    ContainsIff(p, q);
    var i :| OccursAt(s, p, i);
    var j :| OccursAt(p, q, j);
    forall k | 0 <= k < |q|
      ensures s[i + j..i + j + |q|][k] == q[k]
    {
      assert q[k] == p[j + k] == s[i..i + |p|][j + k];
    }
    assert s[i + j..i + j + |q|] == q;
    assert OccursAt(s, q, i + j);
    ContainsIff(s, q);
  }

  /** Text without the first character of `p` cannot contain `p`. */
  lemma {:induction false} MissingFirstChar(s: string, p: string)
    requires |p| > 0 && forall i :: 0 <= i < |s| ==> s[i] != p[0]
    ensures !Contains(s, p)
    decreases |s|
  {
    if |p| <= |s| {
      assert s[..|p|][0] != p[0];
      MissingFirstChar(s[1..], p);
    }
  }

  /** Of two different texts of the same length, neither contains the other. */
  lemma SameLengthDistinct(s: string, p: string)
    requires |s| == |p| && s != p
    ensures !Contains(s, p)
  {
    assert s[..|p|] == s;
    ShorterNeverContains(s[1..], p);
  }

  /** Every string contains itself and the empty string. */
  lemma ContainsSelf(s: string)
    ensures Contains(s, s) && Contains(s, "")
  {
  }

  // ---------------------------------------------------------------------
  // str.split with a one-character separator, and its inverse str.join
  // ---------------------------------------------------------------------

  /** Python's `s.split(sep)`. */
  function Split(s: string, sep: char): (parts: seq<string>)
    ensures |parts| >= 1
    decreases |s|
  {
    if s == [] then [[]]
    else
      var rest := Split(s[1..], sep);
      if s[0] == sep then [[]] + rest
      else [[s[0]] + rest[0]] + rest[1..]
  }

  /** Python's `sep.join(parts)`. */
  function Join(parts: seq<string>, sep: char): string
    requires |parts| >= 1
    decreases |parts|
  {
    if |parts| == 1 then parts[0] else parts[0] + [sep] + Join(parts[1..], sep)
  }

  /** No part of a split holds the separator. */
  lemma {:induction false} SplitPartsFree(s: string, sep: char)
    ensures forall i :: 0 <= i < |Split(s, sep)| ==> sep !in Split(s, sep)[i]
    decreases |s|
  {
    if s != [] {
      SplitPartsFree(s[1..], sep);
    }
  }

  /** Joining the parts of a split gives back the original string. */
  lemma {:induction false} JoinSplit(s: string, sep: char)
    ensures Join(Split(s, sep), sep) == s
    decreases |s|
  {
    if s != [] {
      JoinSplit(s[1..], sep);
      var rest := Split(s[1..], sep);
      if s[0] != sep {
        if |rest| > 1 {
          assert ([[s[0]] + rest[0]] + rest[1..])[1..] == rest[1..];
        }
      }
    }
  }

  /** A string without the separator splits into itself alone. */
  lemma {:induction false} SplitWithoutSeparator(s: string, sep: char)
    requires sep !in s
    ensures Split(s, sep) == [s]
    decreases |s|
  {
    if s != [] {
      SplitWithoutSeparator(s[1..], sep);
      assert [s[0]] + s[1..] == s;
    }
  }

  /** Splitting `x + [sep] + y`, where `x` holds no separator, splits off `x`. */
  lemma {:induction false} SplitAtSeparator(x: string, y: string, sep: char)
    requires sep !in x
    ensures Split(x + [sep] + y, sep) == [x] + Split(y, sep)
    decreases |x|
  {
    if x != [] {
      assert (x + [sep] + y)[1..] == x[1..] + [sep] + y;
      SplitAtSeparator(x[1..], y, sep);
      assert [x[0]] + x[1..] == x;
    } else {
      assert (x + [sep] + y)[1..] == y;
    }
  }

  /** Splitting a join of separator-free parts gives back the parts. */
  lemma {:induction false} SplitJoin(parts: seq<string>, sep: char)
    requires |parts| >= 1
    requires forall i :: 0 <= i < |parts| ==> sep !in parts[i]
    ensures Split(Join(parts, sep), sep) == parts
    decreases |parts|
  {
    if |parts| == 1 {
      SplitWithoutSeparator(parts[0], sep);
    } else {
      SplitJoin(parts[1..], sep);
      SplitAtSeparator(parts[0], Join(parts[1..], sep), sep);
    }
  }

  /**
   * `s.split(sep)[0]`: the text before the first separator. It is a
   * prefix of `s` free of `sep`, and it is either all of `s` or is
   * followed in `s` by the separator.
   */
  function FirstField(s: string, sep: char): string
  {
    Split(s, sep)[0]
  }

  lemma FirstFieldIsPrefix(s: string, sep: char)
    ensures var r := FirstField(s, sep);
      |r| <= |s| && r == s[..|r|] && sep !in r && (|r| == |s| || s[|r|] == sep)
  {
    JoinSplit(s, sep);
    SplitPartsFree(s, sep);
  }

  // ---------------------------------------------------------------------
  // Numeric cleanup: re.sub('[^0-9.]', '', s.split('\x00')[0])
  // ---------------------------------------------------------------------

  predicate IsDigit(c: char) { '0' <= c <= '9' }

  /** The characters the regular expression `[0-9.]` keeps. */
  predicate IsNumericChar(c: char) { IsDigit(c) || c == '.' }

  predicate AllNumeric(s: string) { forall i :: 0 <= i < |s| ==> IsNumericChar(s[i]) }

  /** `re.sub('[^0-9.]', '', s)`: drop every character outside `[0-9.]`. */
  function KeepNumeric(s: string): string
    decreases |s|
  {
    if s == [] then []
    else (if IsNumericChar(s[0]) then [s[0]] else []) + KeepNumeric(s[1..])
  }

  /** The cleanup keeps only characters in `[0-9.]`. */
  lemma {:induction false} KeepNumericIsNumeric(s: string)
    ensures AllNumeric(KeepNumeric(s)) && |KeepNumeric(s)| <= |s|
    decreases |s|
  {
    if s != [] {
      KeepNumericIsNumeric(s[1..]);
    }
  }

  /** `a` can be obtained from `b` by deleting characters. */
  predicate IsSubsequence(a: string, b: string)
    decreases |b|
  {
    if a == [] then true
    else if b == [] then false
    else if a[0] == b[0] then IsSubsequence(a[1..], b[1..])
    else IsSubsequence(a, b[1..])
  }

  lemma {:induction false} KeepNumericIsSubsequence(s: string)
    ensures IsSubsequence(KeepNumeric(s), s)
    decreases |s|
  {
    if s != [] {
      KeepNumericIsSubsequence(s[1..]);
      if IsNumericChar(s[0]) {
        assert KeepNumeric(s)[1..] == KeepNumeric(s[1..]);
      } else {
        var r := KeepNumeric(s);
        assert r == KeepNumeric(s[1..]);
        KeepNumericIsNumeric(s[1..]);
        if r != [] {
          assert r[0] != s[0];
        }
      }
    }
  }

  /** Every occurrence of a kept character survives; no other character does. */
  lemma {:induction false} KeepNumericCounts(s: string, c: char)
    ensures multiset(KeepNumeric(s))[c] == if IsNumericChar(c) then multiset(s)[c] else 0
    decreases |s|
  {
    if s != [] {
      KeepNumericCounts(s[1..], c);
      assert s == [s[0]] + s[1..];
      assert multiset(s) == multiset([s[0]]) + multiset(s[1..]);
    }
  }

  /** The cleanup leaves numeric-only text alone. */
  lemma {:induction false} KeepNumericOfNumeric(s: string)
    requires AllNumeric(s)
    ensures KeepNumeric(s) == s
    decreases |s|
  {
    if s != [] {
      KeepNumericOfNumeric(s[1..]);
    }
  }

  /** The whole cleanup applied to a DICOM text field. */
  function Clean(s: string): string
  {
    KeepNumeric(FirstField(s, NUL))
  }

  /** Cleaned text holds only digits and dots, so no NUL. */
  lemma CleanIsNumeric(s: string)
    ensures AllNumeric(Clean(s)) && NUL !in Clean(s)
  {
    KeepNumericIsNumeric(FirstField(s, NUL));
    var c := Clean(s);
    assert forall i :: 0 <= i < |c| ==> c[i] != NUL;
  }

  /** The cleaned text is drawn, in order, from the text before the first NUL. */
  lemma CleanIsSubsequence(s: string)
    ensures IsSubsequence(Clean(s), FirstField(s, NUL))
  {
    KeepNumericIsSubsequence(FirstField(s, NUL));
  }

  /** Cleaning twice gives the same text as cleaning once. */
  lemma CleanIdempotent(s: string)
    ensures Clean(Clean(s)) == Clean(s)
  {
    var c := Clean(s);
    CleanIsNumeric(s);
    SplitWithoutSeparator(c, NUL);
    KeepNumericOfNumeric(c);
  }

  // ---------------------------------------------------------------------
  // float() applied to cleaned text
  // ---------------------------------------------------------------------

  function DigitValue(c: char): (d: nat)
    requires IsDigit(c)
    ensures d < 10
  {
    (c as int) - ('0' as int)
  }

  predicate AllDigits(s: string) { forall i :: 0 <= i < |s| ==> IsDigit(s[i]) }

  /** The natural number a string of decimal digits denotes. */
  function DigitsValue(s: string): nat
    requires AllDigits(s)
    decreases |s|
  {
    if s == [] then 0 else DigitsValue(s[..|s| - 1]) * 10 + DigitValue(s[|s| - 1])
  }

  /** `10` to the power `n`: the denominator of `n` digits after a decimal point. */
  function Pow10(n: nat): (p: nat)
    ensures p > 0
  {
    if n == 0 then 1 else 10 * Pow10(n - 1)
  }

  function CountChar(s: string, c: char): nat
  {
    multiset(s)[c]
  }

  predicate HasDigit(s: string) { exists i :: 0 <= i < |s| && IsDigit(s[i]) }

  /** A string split at `sep` has one more part than it has separators. */
  lemma {:induction false} SplitCount(s: string, sep: char)
    ensures |Split(s, sep)| == CountChar(s, sep) + 1
    decreases |s|
  {
    if s != [] {
      SplitCount(s[1..], sep);
      assert s == [s[0]] + s[1..];
      assert multiset(s) == multiset([s[0]]) + multiset(s[1..]);
    }
  }

  /** The parts of numeric text split at its dots are strings of digits. */
  lemma SplitNumericAtDots(s: string)
    requires AllNumeric(s)
    ensures forall i :: 0 <= i < |Split(s, '.')| ==> AllDigits(Split(s, '.')[i])
  {
    var parts := Split(s, '.');
    SplitPartsFree(s, '.');
    forall i | 0 <= i < |parts| ensures AllDigits(parts[i]) {
      forall j | 0 <= j < |parts[i]| ensures IsDigit(parts[i][j]) {
        PartCharsComeFromText(s, '.', i, j);
      }
    }
  }

  /** Every character of a part of a split occurs in the split text. */
  lemma {:induction false} PartCharsComeFromText(s: string, sep: char, i: nat, j: nat)
    requires i < |Split(s, sep)| && j < |Split(s, sep)[i]|
    ensures Split(s, sep)[i][j] in s
    decreases |s|
  {
    var rest := Split(s[1..], sep);
    if s[0] == sep {
      PartCharsComeFromText(s[1..], sep, i - 1, j);
    } else if i == 0 && j == 0 {
    } else if i == 0 {
      PartCharsComeFromText(s[1..], sep, 0, j - 1);
    } else {
      PartCharsComeFromText(s[1..], sep, i, j);
    }
  }

  lemma DigitsHaveDigit(s: string)
    requires AllDigits(s)
    ensures HasDigit(s) <==> s != []
  {
    if s != [] {
      assert IsDigit(s[0]);
    }
  }

  /** A digit of `a + ['.'] + b` is a digit of `a` or of `b`. */
  lemma HasDigitAroundDot(a: string, b: string)
    ensures HasDigit(a + ['.'] + b) <==> HasDigit(a) || HasDigit(b)
  {
    var s := a + ['.'] + b;
    if HasDigit(s) {
      var i :| 0 <= i < |s| && IsDigit(s[i]);
      if i < |a| { assert a[i] == s[i]; }
      else { assert b[i - |a| - 1] == s[i]; }
    }
    if HasDigit(a) {
      var i :| 0 <= i < |a| && IsDigit(a[i]);
      assert s[i] == a[i];
    }
    if HasDigit(b) {
      var i :| 0 <= i < |b| && IsDigit(b[i]);
      assert s[|a| + 1 + i] == b[i];
    }
  }

  /**
   * `float(s)` for a string over `[0-9.]`, read as a split at the dot:
   * the text before the dot is the whole part and the text after it the
   * fraction; more than one dot, or no digit at all, makes `float()`
   * raise (`None`). The value is the exact decimal (no binary rounding in
   * this model). This is the reference reading; `ParseDecimal` below
   * computes the same thing in one pass.
   */
  function DecimalBySplit(s: string): Option<real>
    requires AllNumeric(s)
  {
    var parts := Split(s, '.');
    var whole := parts[0];
    var fraction := if |parts| == 2 then parts[1] else [];
    if |parts| > 2 || (whole == [] && fraction == []) then None
    else
      SplitNumericAtDots(s);
      Some(DigitsValue(whole) as real + DigitsValue(fraction) as real / Pow10(|fraction|) as real)
  }

  /**
   * What a left-to-right reading of numeric text has seen so far: the
   * whole part, the digits after the first dot as a number and their
   * count, the dots, and whether any digit occurred.
   */
  datatype DecimalScan = DecimalScan(whole: nat, fraction: nat, fractionDigits: nat, dots: nat, sawDigit: bool)

  const ScanStart: DecimalScan := DecimalScan(0, 0, 0, 0, false)

  /** One character of the reading: digits before the first dot build the whole part, digits after it the fraction. */
  function ScanChar(st: DecimalScan, c: char): DecimalScan
  {
    if IsDigit(c) then
      if st.dots == 0 then st.(whole := st.whole * 10 + DigitValue(c), sawDigit := true)
      else if st.dots == 1 then
        st.(fraction := st.fraction * 10 + DigitValue(c), fractionDigits := st.fractionDigits + 1, sawDigit := true)
      else st.(sawDigit := true)
    else if c == '.' then st.(dots := st.dots + 1)
    else st
  }

  function ScanDecimal(s: string, st: DecimalScan): DecimalScan
    decreases |s|
  {
    if s == [] then st else ScanDecimal(s[1..], ScanChar(st, s[0]))
  }

  /**
   * Python's `float(s)` for a string over `[0-9.]`: it fails when there
   * is no digit or more than one dot; otherwise its value is never
   * negative, since the cleanup leaves no sign.
   */
  function ParseDecimal(s: string): (r: Option<real>)
    requires AllNumeric(s)
    ensures r.Some? ==> r.value >= 0.0
  {
    var st := ScanDecimal(s, ScanStart);
    if st.dots > 1 || !st.sawDigit then None
    else Some(st.whole as real + st.fraction as real / Pow10(st.fractionDigits) as real)
  }

  lemma {:induction false} ScanConcat(a: string, b: string, st: DecimalScan)
    ensures ScanDecimal(a + b, st) == ScanDecimal(b, ScanDecimal(a, st))
    decreases |a|
  {
    if a != [] {
      assert (a + b)[1..] == a[1..] + b;
      ScanConcat(a[1..], b, ScanChar(st, a[0]));
    } else {
      assert a + b == b;
    }
  }

  /** The reading counts the dots and notices any digit. */
  lemma {:induction false} ScanCounts(s: string, st: DecimalScan)
    ensures ScanDecimal(s, st).dots == st.dots + CountChar(s, '.')
    ensures ScanDecimal(s, st).sawDigit == (st.sawDigit || HasDigit(s))
    decreases |s|
  {
    if s != [] {
      ScanCounts(s[1..], ScanChar(st, s[0]));
      assert s == [s[0]] + s[1..];
      assert multiset(s) == multiset([s[0]]) + multiset(s[1..]);
      if HasDigit(s[1..]) {
        var i :| 0 <= i < |s[1..]| && IsDigit(s[1..][i]);
        assert IsDigit(s[i + 1]);
      }
      if HasDigit(s) && !IsDigit(s[0]) {
        var i :| 0 <= i < |s| && IsDigit(s[i]);
        assert i > 0 && IsDigit(s[1..][i - 1]);
      }
    }
  }

  /** Before any dot, digits build the whole part and leave the fraction untouched. */
  lemma {:induction false} ScanWhole(w: string)
    requires AllDigits(w)
    ensures ScanDecimal(w, ScanStart) == ScanStart.(whole := DigitsValue(w), sawDigit := w != [])
    decreases |w|
  {
    if w != [] {
      var init := w[..|w| - 1];
      ScanWhole(init);
      assert init + [w[|w| - 1]] == w;
      ScanConcat(init, [w[|w| - 1]], ScanStart);
    }
  }

  /** After the first dot, digits build the fraction and count its digits. */
  lemma {:induction false} ScanFraction(f: string, st: DecimalScan)
    requires AllDigits(f)
    requires st.dots == 1 && st.fraction == 0 && st.fractionDigits == 0
    ensures ScanDecimal(f, st) == st.(fraction := DigitsValue(f), fractionDigits := |f|, sawDigit := st.sawDigit || f != [])
    decreases |f|
  {
    if f != [] {
      var init := f[..|f| - 1];
      ScanFraction(init, st);
      assert init + [f[|f| - 1]] == f;
      ScanConcat(init, [f[|f| - 1]], st);
    }
  }

  /** Digits, one dot, digits: the whole part and the fraction are read apart. */
  lemma ScanWholeDotFraction(w: string, f: string)
    requires AllDigits(w) && AllDigits(f)
    ensures ScanDecimal(w + ['.'] + f, ScanStart) == DecimalScan(DigitsValue(w), DigitsValue(f), |f|, 1, w != [] || f != [])
  {
    ScanConcat(w + ['.'], f, ScanStart);
    ScanConcat(w, ['.'], ScanStart);
    ScanWhole(w);
    var afterDot := ScanDecimal(w + ['.'], ScanStart);
    assert afterDot.dots == 1 && afterDot.fraction == 0 && afterDot.fractionDigits == 0;
    ScanFraction(f, afterDot);
  }

  /** The one-pass reading and the split-at-the-dot reading agree on every numeric text. */
  lemma ParseDecimalBySplit(s: string)
    requires AllNumeric(s)
    ensures ParseDecimal(s) == DecimalBySplit(s)
  {
    var parts := Split(s, '.');
    SplitCount(s, '.');
    SplitNumericAtDots(s);
    JoinSplit(s, '.');
    ScanCounts(s, ScanStart);
    if |parts| == 1 {
      assert s == parts[0];
      ScanWhole(s);
      DigitsHaveDigit(s);
    } else if |parts| == 2 {
      var w, f := parts[0], parts[1];
      assert parts[1..] == [f];
      assert s == w + ['.'] + f;
      ScanWholeDotFraction(w, f);
      HasDigitAroundDot(w, f);
      DigitsHaveDigit(w);
      DigitsHaveDigit(f);
    }
  }

  /** `float()` fails exactly on text with no digit or with more than one dot. */
  lemma ParseDecimalDefined(s: string)
    requires AllNumeric(s)
    ensures ParseDecimal(s).Some? <==> HasDigit(s) && CountChar(s, '.') <= 1
  {
    ScanCounts(s, ScanStart);
  }

  /** The decimal digits of a natural number, as `str(n)` writes them. */
  function NatDigits(n: nat): (s: string)
    ensures AllDigits(s) && |s| >= 1
    decreases n
  {
    if n < 10 then [('0' as int + n) as char]
    else NatDigits(n / 10) + [('0' as int + n % 10) as char]
  }

  lemma {:induction false} NatDigitsValue(n: nat)
    ensures DigitsValue(NatDigits(n)) == n
    decreases n
  {
    if n >= 10 {
      NatDigitsValue(n / 10);
      var s := NatDigits(n);
      assert s[..|s| - 1] == NatDigits(n / 10);
    }
  }

  /**
   * `float(str(n)) == n` for every natural number `n`, and the digits
   * pass the cleanup unchanged, so an integer attribute reads as itself.
   */
  lemma ParseNatDigits(n: nat)
    ensures AllNumeric(NatDigits(n))
    ensures ParseDecimal(NatDigits(n)) == Some(n as real)
    ensures ParseField(NatDigits(n)) == Some(n as real)
  {
    var s := NatDigits(n);
    assert forall i :: 0 <= i < |s| ==> s[i] != '.';
    assert multiset(s)['.'] == 0;
    ScanWhole(s);
    ScanCounts(s, ScanStart);
    DigitsHaveDigit(s);
    NatDigitsValue(n);
    assert forall i :: 0 <= i < |s| ==> s[i] != NUL;
    SplitWithoutSeparator(s, NUL);
    KeepNumericOfNumeric(s);
  }

  /**
   * The cleanup followed by `float()`: `None` where Python raises
   * ValueError. The cleanup drops any sign, so a value is never negative.
   */
  function ParseField(s: string): (r: Option<real>)
    ensures r.Some? ==> r.value >= 0.0
  {
    CleanIsNumeric(s);
    ParseDecimal(Clean(s))
  }
}
