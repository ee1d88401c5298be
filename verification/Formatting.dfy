/**
  The formatting verbs that compaction groups and hashes are made of, and why equal
  strings mean equal numbers.
 */
module Formatting {

  const DIGITS := "0123456789ABCDEF"

  /** Digits of n in the given base, most significant first. */
  function Digits(n: nat, base: nat): (s: string)
    requires base == 10 || base == 16
  {
    if n < base then [DIGITS[n]] else Digits(n / base, base) + [DIGITS[n % base]]
  }

  function DigitValue(c: char): nat {
    if '0' <= c <= '9' then (c as int) - ('0' as int)
    else if 'A' <= c <= 'F' then (c as int) - ('A' as int) + 10
    else 0
  }

  function Value(s: string, base: nat): nat {
    if s == "" then 0 else Value(s[..|s| - 1], base) * base + DigitValue(s[|s| - 1])
  }

  function Zeros(n: nat): string {
    seq(n, _ => '0')
  }

  lemma DigitRoundTrip(n: nat)
    requires n < 16
    ensures DigitValue(DIGITS[n]) == n && DIGITS[n] != '-'
  {
  }

  lemma DivideDigit(n: nat, base: nat)
    requires base == 10 || base == 16
    ensures (n / base) * base + n % base == n && 0 <= n % base < base && (n < base ==> n % base == n)
  {
  }

  lemma AppendDigit(front: string, c: char, base: nat)
    ensures Value(front + [c], base) == Value(front, base) * base + DigitValue(c)
  {
    assert (front + [c])[..|front|] == front;
  }

  lemma {:induction false} DigitsRoundTrip(n: nat, base: nat)
    requires base == 10 || base == 16
    ensures Value(Digits(n, base), base) == n && Digits(n, base) != "" && '-' !in Digits(n, base)
  {
    hide Value, DigitValue;
    DivideDigit(n, base);
    DigitRoundTrip(n % base);
    if n < base {
      assert "" + [DIGITS[n]] == [DIGITS[n]];
      AppendDigit("", DIGITS[n], base);
      assert Value("", base) == 0 by { NoDigits(base); }
    } else {
      var front := Digits(n / base, base);
      DigitsRoundTrip(n / base, base);
      AppendDigit(front, DIGITS[n % base], base);
    }
  }

  lemma NoDigits(base: nat)
    ensures Value("", base) == 0
  {
  }

  lemma {:induction false} LeadingZeros(k: nat, s: string, base: nat)
    ensures Value(Zeros(k) + s, base) == Value(s, base)
  {
    if s == "" {
      assert Zeros(k) + s == Zeros(k);
      if k > 0 {
        assert Zeros(k)[..k - 1] == Zeros(k - 1) + "";
        LeadingZeros(k - 1, "", base);
      }
    } else {
      assert (Zeros(k) + s)[..k + |s| - 1] == Zeros(k) + s[..|s| - 1];
      LeadingZeros(k, s[..|s| - 1], base);
    }
  }

  /** %v of an unsigned integer. */
  function Dec(n: nat): string {
    Digits(n, 10)
  }

  /** %v of a signed integer. */
  function DecInt(n: int): string {
    if n < 0 then "-" + Digits(-n, 10) else Digits(n, 10)
  }

  /** %016X: sign, then upper-case hexadecimal padded with zeros to 16 characters in all. */
  function Hex16(n: int): string {
    var digits := Digits(if n < 0 then -n else n, 16);
    var width := if n < 0 then 15 else 16;
    (if n < 0 then "-" else "") + Zeros(if |digits| < width then width - |digits| else 0) + digits
  }

  /** The signed value of a %016X string. */
  function Hex16Value(s: string): int {
    if s != "" && s[0] == '-' then 0 - (Value(s[1..], 16) as int) else Value(s, 16)
  }

  lemma Hex16RoundTrip(n: int)
    ensures Hex16Value(Hex16(n)) == n
  {
    hide Value, Digits;
    var m := if n < 0 then -n else n;
    var digits := Digits(m, 16);
    var width := if n < 0 then 15 else 16;
    var k: nat := if |digits| < width then width - |digits| else 0;
    DigitsRoundTrip(m, 16);
    LeadingZeros(k, digits, 16);
    var body := Zeros(k) + digits;
    assert k > 0 ==> body[0] == '0';
    assert k == 0 ==> body == digits && body[0] in digits;
    if n < 0 {
      assert Hex16(n) == "-" + body;
      assert ("-" + body)[1..] == body;
    } else {
      assert Hex16(n) == body;
    }
  }

  /** %v of integers tells them apart. */
  lemma DecIntInjective(a: int, b: int)
    requires DecInt(a) == DecInt(b)
    ensures a == b
  {
    hide Digits, Value;
    DigitsRoundTrip(if a < 0 then -a else a, 10);
    DigitsRoundTrip(if b < 0 then -b else b, 10);
    var da, db := Digits(if a < 0 then -a else a, 10), Digits(if b < 0 then -b else b, 10);
    assert a < 0 ==> DecInt(a)[0] == '-' && DecInt(a)[1..] == da;
    assert b < 0 ==> DecInt(b)[0] == '-' && DecInt(b)[1..] == db;
    assert da[0] in da && db[0] in db;
  }

  /** The first dash separates. */
  lemma SplitAtDash(a: string, b: string, c: string, d: string)
    requires '-' !in a && '-' !in c && a + "-" + b == c + "-" + d
    ensures a == c && b == d
  {
    var s := a + "-" + b;
    assert s[|a|] == '-' && s == c + "-" + d;
    assert s[|c|] == '-';
    assert |a| == |c|;
    assert a == s[..|a|] && c == s[..|c|];
    assert b == s[|a| + 1..] && d == s[|c| + 1..];
  }

  /** Byte-wise string order. */
  predicate Less(a: string, b: string) {
    b != "" && (a == "" || a[0] < b[0] || (a[0] == b[0] && Less(a[1..], b[1..])))
  }

  lemma {:induction false} LessAsymmetric(a: string, b: string)
    ensures Less(a, b) ==> !Less(b, a)
  {
    if a != "" && b != "" {
      LessAsymmetric(a[1..], b[1..]);
    }
  }

  lemma {:induction false} LessTotal(a: string, b: string)
    ensures a == b || Less(a, b) || Less(b, a)
  {
    if a != "" && b != "" {
      LessTotal(a[1..], b[1..]);
      assert a == [a[0]] + a[1..] && b == [b[0]] + b[1..];
    }
  }

  lemma {:induction false} LessTransitive(a: string, b: string, c: string)
    requires Less(a, b) && Less(b, c)
    ensures Less(a, c)
  {
    if a != "" && a[0] == b[0] == c[0] {
      LessTransitive(a[1..], b[1..], c[1..]);
    }
  }

  // ---------- Numbers in string order ----------

  predicate Proper(s: string) {
    forall i :: 0 <= i < |s| ==> '0' <= s[i] <= '9' || 'A' <= s[i] <= 'F'
  }

  lemma {:induction false} LessExtends(s: string, t: string, x: string, y: string)
    requires |s| == |t| && Less(s, t)
    ensures Less(s + x, t + y)
  {
    assert (s + x)[0] == s[0] && (t + y)[0] == t[0];
    if s[0] == t[0] {
      LessExtends(s[1..], t[1..], x, y);
      assert (s + x)[1..] == s[1..] + x && (t + y)[1..] == t[1..] + y;
    }
  }

  lemma {:induction false} LessCommon(p: string, s: string, t: string)
    ensures Less(p + s, p + t) <==> Less(s, t)
  {
    if p == "" {
      assert p + s == s && p + t == t;
    } else {
      assert (p + s)[1..] == p[1..] + s && (p + t)[1..] == p[1..] + t;
      LessCommon(p[1..], s, t);
    }
  }

  lemma DigitOrder(c: char, d: char)
    requires Proper([c]) && Proper([d])
    ensures DigitValue(c) < 16 && (DigitValue(c) == DigitValue(d) <==> c == d) && (DigitValue(c) < DigitValue(d) <==> c < d)
  {
    assert [c][0] == c && [d][0] == d;
  }

  lemma {:induction false} EqualValue(s: string, t: string)
    requires |s| == |t| && Proper(s) && Proper(t) && Value(s, 16) == Value(t, 16)
    ensures s == t
  {
    hide Value, DigitValue;
    if s != "" {
      var n := |s| - 1;
      DigitOrder(s[n], t[n]);
      assert s == s[..n] + [s[n]] && t == t[..n] + [t[n]];
      AppendDigit(s[..n], s[n], 16);
      AppendDigit(t[..n], t[n], 16);
      SplitDigit(Value(s[..n], 16), DigitValue(s[n]), Value(t[..n], 16), DigitValue(t[n]));
      DigitOrder(t[n], s[n]);
      EqualValue(s[..n], t[..n]);
    }
  }

  lemma SplitDigit(x: nat, c: nat, y: nat, d: nat)
    requires c < 16
    ensures d < 16 && x * 16 + c == y * 16 + d ==> x == y && c == d
    ensures d < 16 && x * 16 + c < y * 16 + d ==> x < y || (x == y && c < d)
  {
  }

  lemma ValueLast(f: string, c: char, g: string, d: char)
    requires |f| == |g| && Proper(f) && Proper(g) && Proper([c]) && Proper([d]) && Value(f + [c], 16) < Value(g + [d], 16)
    ensures Value(f, 16) < Value(g, 16) || (f == g && c < d)
  {
    hide Value, DigitValue;
    DigitOrder(c, d);
    DigitOrder(d, c);
    AppendDigit(f, c, 16);
    AppendDigit(g, d, 16);
    SplitDigit(Value(f, 16), DigitValue(c), Value(g, 16), DigitValue(d));
    if Value(f, 16) == Value(g, 16) {
      EqualValue(f, g);
    }
  }

  lemma ProperParts(s: string)
    requires s != "" && Proper(s)
    ensures Proper(s[..|s| - 1]) && Proper([s[|s| - 1]]) && s == s[..|s| - 1] + [s[|s| - 1]]
  {
  }

  /** Digit strings of one length compare as their values do. */
  lemma {:induction false} LessValue(s: string, t: string)
    requires |s| == |t| && Proper(s) && Proper(t) && Value(s, 16) < Value(t, 16)
    ensures Less(s, t)
  {
    hide Value, Less, Proper;
    assert |t| == 0 ==> t == "";
    if s != "" {
      var f, c, g, d := s[..|s| - 1], s[|s| - 1], t[..|t| - 1], t[|t| - 1];
      ProperParts(s);
      ProperParts(t);
      ValueLast(f, c, g, d);
      if Value(f, 16) < Value(g, 16) {
        LessValue(f, g);
        LessExtends(f, g, [c], [d]);
      } else {
        LessDigit(c, d);
        LessCommon(f, [c], [d]);
      }
    }
  }

  lemma LessDigit(c: char, d: char)
    requires c < d
    ensures Less([c], [d])
  {
  }

  function Pow16(k: nat): (p: nat)
    ensures p > 0
  {
    if k == 0 then 1 else 16 * Pow16(k - 1)
  }

  lemma {:induction false} DigitsShort(n: nat, k: nat)
    requires 0 < k && n < Pow16(k)
    ensures 0 < |Digits(n, 16)| <= k && Proper(Digits(n, 16))
  {
    ProperDigit(n % 16);
    if n >= 16 {
      assert Pow16(1) == 16 * Pow16(0);
      assert Pow16(k) == 16 * Pow16(k - 1);
      DigitsShort(n / 16, k - 1);
    } else {
      ProperDigit(n);
    }
  }

  lemma ProperDigit(n: nat)
    requires n < 16
    ensures Proper([DIGITS[n]])
  {
  }

  /** Numbers that fit 16 hexadecimal digits sort as strings like numbers do. */
  lemma Hex16Less(a: int, b: int)
    requires 0 <= a < b < Pow16(16)
    ensures |Hex16(a)| == |Hex16(b)| == 16 && Less(Hex16(a), Hex16(b))
  {
    hide Value, Digits, Pow16, Less;
    Hex16Padded(a);
    Hex16Padded(b);
    LessValue(Hex16(a), Hex16(b));
  }

  lemma Hex16Padded(n: int)
    requires 0 <= n < Pow16(16)
    ensures |Hex16(n)| == 16 && Proper(Hex16(n)) && Value(Hex16(n), 16) == n
  {
    hide Value, Digits, Pow16;
    DigitsShort(n, 16);
    DigitsRoundTrip(n, 16);
    var digits := Digits(n, 16);
    LeadingZeros(16 - |digits|, digits, 16);
    assert Hex16(n) == Zeros(16 - |digits|) + digits;
  }
}
