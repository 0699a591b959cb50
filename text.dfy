/**
 * The JavaScript string operations the dashboard relies on, on `seq<char>`:
 * rendering a number in base 10 or 16 (`String(n)`, `n.toString(16)`),
 * `padStart`, `substring`, `split` on one character, `parseInt` and the
 * default `Array.prototype.sort` order on strings.
 */
module Text {
  import opened Wrappers

  /** The digit characters `Number.prototype.toString` uses: `0`-`9`, then lower-case `a`-`f`. */
  function DigitChar(d: nat): (c: char)
    requires d < 16
  {
    if d < 10 then ('0' as int + d) as char else ('a' as int + d - 10) as char
  }

  /** The value of an ASCII letter or digit as `parseInt` reads it; 36 for any other character. */
  function DigitValue(c: char): (v: nat)
    ensures v <= 36
  {
    if '0' <= c <= '9' then (c - '0') as nat
    else if 'a' <= c <= 'z' then (c - 'a') as nat + 10
    else if 'A' <= c <= 'Z' then (c - 'A') as nat + 10
    else 36
  }

  predicate IsDigit(c: char, radix: nat) {
    DigitValue(c) < radix
  }

  /** `n.toString(base)` for a non-negative integer. */
  function Digits(n: nat, base: nat): (s: string)
    requires 2 <= base <= 16
    ensures |s| >= 1
    decreases n
  {
    if n < base then [DigitChar(n)] else Digits(n / base, base) + [DigitChar(n % base)]
  }

  /** `String(n)`, `${n}` for a non-negative integer. */
  function Decimal(n: nat): (s: string)
    ensures |s| >= 1
  {
    Digits(n, 10)
  }

  /** `String(i)` for any integer. */
  function IntText(i: int): string {
    if i < 0 then "-" + Decimal(-i) else Decimal(i)
  }

  /** The number a string of digits spells in the given radix, most significant digit first. */
  function Value(ds: string, radix: nat): nat {
    if ds == [] then 0 else Value(ds[..|ds| - 1], radix) * radix + DigitValue(ds[|ds| - 1])
  }

  /** The length of the longest prefix of `s` made of digits of the radix. */
  function DigitRun(s: string, radix: nat): (n: nat)
    ensures n <= |s|
    ensures forall i :: 0 <= i < n ==> IsDigit(s[i], radix)
    ensures n < |s| ==> !IsDigit(s[n], radix)
  {
    if s == [] || !IsDigit(s[0], radix) then 0 else 1 + DigitRun(s[1..], radix)
  }

  /**
   * `parseInt(s, radix)`: an optional sign, for radix 16 an optional `0x`/`0X`,
   * then the longest run of digits; `None` stands for `NaN` (no digit at all).
   */
  function ParseInt(s: string, radix: nat): (r: Option<int>)
    requires 2 <= radix <= 36
  {
    var negative := |s| > 0 && s[0] == '-';
    var unsigned := if |s| > 0 && (s[0] == '-' || s[0] == '+') then s[1..] else s;
    var body := if radix == 16 && |unsigned| >= 2 && unsigned[0] == '0' && (unsigned[1] == 'x' || unsigned[1] == 'X')
                then unsigned[2..] else unsigned;
    var n := DigitRun(body, radix);
    if n == 0 then None
    else
      var magnitude: int := Value(body[..n], radix);
      Some(if negative then -magnitude else magnitude)
  }

  /** `s.padStart(width, c)` with a one-character pad string. */
  function PadStart(s: string, width: nat, c: char): string {
    if |s| < width then seq(width - |s|, _ => c) + s else s
  }

  /** `padStart` reaches the width, ends with the string, and fills the front with the pad character. */
  lemma PadStartSpec(s: string, width: nat, c: char)
    ensures var r := PadStart(s, width, c);
      && |r| == (if |s| < width then width else |s|)
      && r[|r| - |s|..] == s
      && forall i :: 0 <= i < |r| - |s| ==> r[i] == c
  {
  }

  /** `s.substring(a, b)`: both ends clamped to the string, then swapped if reversed. */
  function Substring(s: string, a: nat, b: nat): (r: string)
    ensures a <= b <= |s| ==> r == s[a..b]
  {
    var from := if a < |s| then a else |s|;
    var to := if b < |s| then b else |s|;
    if from <= to then s[from..to] else s[to..from]
  }

  /** `s.split(sep)` for a one-character separator: always at least one part. */
  function Split(s: string, sep: char): (parts: seq<string>)
    ensures |parts| >= 1
  {
    if s == [] then [""]
    else
      var rest := Split(s[1..], sep);
      if s[0] == sep then [""] + rest else [[s[0]] + rest[0]] + rest[1..]
  }

  /**
   * The order of the default `sort()` on strings: a proper prefix comes first,
   * otherwise the first differing character decides.
   */
  predicate LexLess(a: string, b: string) {
    if a == [] then b != []
    else if b == [] then false
    else if a[0] != b[0] then a[0] < b[0]
    else LexLess(a[1..], b[1..])
  }

  predicate LexLessEq(a: string, b: string) {
    a == b || LexLess(a, b)
  }

  // ---------------------------------------------------------------------------
  // Number rendering and parsing
  // ---------------------------------------------------------------------------

  lemma DigitCharValue(d: nat)
    requires d < 16
    ensures DigitValue(DigitChar(d)) == d
  {
  }

  /** Every character of `n.toString(base)` is a digit of that base, and none is `-`. */
  lemma {:induction false} DigitsAreDigits(n: nat, base: nat)
    requires 2 <= base <= 16
    ensures forall i :: 0 <= i < |Digits(n, base)| ==> IsDigit(Digits(n, base)[i], base)
    decreases n
  {
    if n < base {
      DigitCharValue(n);
    } else {
      DigitsAreDigits(n / base, base);
      DigitCharValue(n % base);
    }
  }

  /** Appending a digit shifts the value by one place. */
  lemma ValueAppendDigit(p: string, d: nat, radix: nat)
    requires d < 16
    ensures Value(p + [DigitChar(d)], radix) == Value(p, radix) * radix + d
  {
    var s := p + [DigitChar(d)];
    assert s[..|s| - 1] == p;
    DigitCharValue(d);
  }

  lemma DivFacts(n: nat, base: nat)
    requires 2 <= base <= 16 && n >= base
    ensures n / base < n && n == (n / base) * base + n % base && n % base < base
  {
  }

  /** Reading `n.toString(base)` back as digits gives `n`. */
  lemma {:induction false} ValueOfDigits(n: nat, base: nat)
    requires 2 <= base <= 16
    ensures Value(Digits(n, base), base) == n
    decreases n
  {
    if n < base {
      ValueAppendDigit([], n, base);
      assert [] + [DigitChar(n)] == Digits(n, base);
    } else {
      var q, r := n / base, n % base;
      DivFacts(n, base);
      var p := Digits(q, base);
      assert Digits(n, base) == p + [DigitChar(r)];
      ValueOfDigits(q, base);
      ValueAppendDigit(p, r, base);
    }
  }

  /** Leading zeros do not change the value of a digit string. */
  lemma {:induction false} ValueLeadingZero(s: string, radix: nat)
    ensures Value("0" + s, radix) == Value(s, radix)
    decreases |s|
  {
    if s != [] {
      var t := "0" + s;
      assert t[..|t| - 1] == "0" + s[..|s| - 1];
      ValueLeadingZero(s[..|s| - 1], radix);
    } else {
      assert ("0" + s)[..0] == [];
    }
  }

  /** `parseInt` reads a string made only of digits of the radix as the number those digits spell. */
  lemma ParseIntAllDigits(s: string, radix: nat)
    requires 2 <= radix <= 16 && |s| >= 1
    requires forall i :: 0 <= i < |s| ==> IsDigit(s[i], radix)
    ensures ParseInt(s, radix) == Some(Value(s, radix))
  {
    assert !IsDigit('-', radix) && !IsDigit('+', radix) && !IsDigit('x', radix) && !IsDigit('X', radix);
    assert s[0] != '-' && s[0] != '+';
    assert |s| >= 2 ==> s[1] != 'x' && s[1] != 'X';
    DigitRunAll(s, radix);
    assert s[..|s|] == s;
  }

  /** `parseInt(n.toString(base), base)` recovers `n`. */
  lemma ParseIntOfDigits(n: nat, base: nat)
    requires 2 <= base <= 16
    ensures ParseInt(Digits(n, base), base) == Some(n)
  {
    DigitsAreDigits(n, base);
    ValueOfDigits(n, base);
    ParseIntAllDigits(Digits(n, base), base);
  }

  lemma {:induction false} DigitRunAll(s: string, radix: nat)
    requires forall i :: 0 <= i < |s| ==> IsDigit(s[i], radix)
    ensures DigitRun(s, radix) == |s|
    decreases |s|
  {
    if s != [] {
      DigitRunAll(s[1..], radix);
    }
  }

  /** Decimal renderings are distinct for distinct numbers. */
  lemma DecimalInjective(m: nat, n: nat)
    ensures Decimal(m) == Decimal(n) <==> m == n
  {
    ValueOfDigits(m, 10);
    ValueOfDigits(n, 10);
  }

  lemma NoDashInDecimal(n: nat)
    ensures '-' !in Decimal(n)
  {
    DigitsAreDigits(n, 10);
    assert !IsDigit('-', 10);
  }

  // ---------------------------------------------------------------------------
  // split
  // ---------------------------------------------------------------------------

  /** A string without the separator splits into itself alone. */
  lemma {:induction false} SplitNoSeparator(a: string, sep: char)
    requires sep !in a
    ensures Split(a, sep) == [a]
    decreases |a|
  {
    if a != [] {
      SplitNoSeparator(a[1..], sep);
      assert [a[0]] + a[1..] == a;
    }
  }

  /** Splitting at the first separator yields the text before it, then the parts of the rest. */
  lemma {:induction false} SplitFirst(a: string, sep: char, b: string)
    requires sep !in a
    ensures Split(a + [sep] + b, sep) == [a] + Split(b, sep)
    decreases |a|
  {
    var s := a + [sep] + b;
    if a == [] {
      assert s[1..] == b;
    } else {
      assert s[1..] == a[1..] + [sep] + b;
      SplitFirst(a[1..], sep, b);
      assert [a[0]] + a[1..] == a;
    }
  }

  // ---------------------------------------------------------------------------
  // The string order of sort()
  // ---------------------------------------------------------------------------

  lemma {:induction false} LexIrreflexive(a: string)
    ensures !LexLess(a, a)
    decreases |a|
  {
    if a != [] {
      LexIrreflexive(a[1..]);
    }
  }

  lemma {:induction false} LexAsymmetric(a: string, b: string)
    ensures !(LexLess(a, b) && LexLess(b, a))
    decreases |a|
  {
    if a != [] && b != [] && a[0] == b[0] {
      LexAsymmetric(a[1..], b[1..]);
    }
  }

  lemma {:induction false} LexTransitive(a: string, b: string, c: string)
    requires LexLess(a, b) && LexLess(b, c)
    ensures LexLess(a, c)
    decreases |a|
  {
    if a != [] && a[0] == b[0] && b[0] == c[0] {
      LexTransitive(a[1..], b[1..], c[1..]);
    }
  }

  /** Any two distinct strings are ordered one way or the other. */
  lemma {:induction false} LexTotal(a: string, b: string)
    ensures a == b || LexLess(a, b) || LexLess(b, a)
    decreases |a|
  {
    if a != [] && b != [] && a[0] == b[0] {
      LexTotal(a[1..], b[1..]);
      if a[1..] == b[1..] {
        assert a == [a[0]] + a[1..] && b == [b[0]] + b[1..];
      }
    }
  }

  /** Behind prefixes of equal length, the prefixes decide unless they are equal. */
  lemma {:induction false} LexConcat(a: string, b: string, s: string, t: string)
    requires |a| == |b|
    ensures LexLess(a + s, b + t) <==> LexLess(a, b) || (a == b && LexLess(s, t))
    decreases |a|
  {
    if a != [] {
      assert (a + s)[1..] == a[1..] + s && (b + t)[1..] == b[1..] + t;
      LexConcat(a[1..], b[1..], s, t);
      if a[0] == b[0] && a[1..] == b[1..] {
        assert a == [a[0]] + a[1..] && b == [b[0]] + b[1..];
      }
    } else {
      assert a + s == s && b + t == t;
    }
  }

  /** Decimal digit characters are in the order of their values. */
  lemma DigitCharOrder(d: nat, e: nat)
    requires d < 10 && e < 10
    ensures DigitChar(d) < DigitChar(e) <==> d < e
  {
    DigitCharValue(d);
    DigitCharValue(e);
    assert '0' <= DigitChar(d) <= '9' && '0' <= DigitChar(e) <= '9';
  }

  lemma SingleDigit(n: nat)
    requires |Decimal(n)| == 1
    ensures n < 10
  {
  }

  /**
   * Decimal renderings of the same length sort as the numbers do, so
   * `sort()` orders numbers with the same digit count numerically.
   */
  lemma {:induction false} DecimalOrder(m: nat, n: nat)
    requires |Decimal(m)| == |Decimal(n)|
    ensures LexLess(Decimal(m), Decimal(n)) <==> m < n
    decreases m
  {
    if m < 10 {
      assert |Decimal(n)| == 1;
      SingleDigit(n);
      DigitCharOrder(m, n);
    } else {
      if n < 10 {
        SingleDigit(m);
      }
      DivFacts(m, 10);
      DivFacts(n, 10);
      var p, q := Decimal(m / 10), Decimal(n / 10);
      assert Decimal(m) == p + [DigitChar(m % 10)];
      assert Decimal(n) == q + [DigitChar(n % 10)];
      DecimalOrder(m / 10, n / 10);
      DecimalInjective(m / 10, n / 10);
      LexConcat(p, q, [DigitChar(m % 10)], [DigitChar(n % 10)]);
      DigitCharOrder(m % 10, n % 10);
    }
  }
}
