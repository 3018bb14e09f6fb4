/**
 The string operations the workout records use: the decimal numeral JavaScript writes
 for a non-negative integer (`n + ''`, `${n}`), `slice(-k)` for k >= 1, and upper-casing the first
 letter of a word.
 */
module Text {

  predicate IsDigit(c: char) {
    '0' <= c <= '9'
  }

  predicate AllDigits(s: string) {
    forall i :: 0 <= i < |s| ==> IsDigit(s[i])
  }

  function DigitChar(d: nat): (c: char)
    requires d < 10
    ensures IsDigit(c) && c as int == '0' as int + d
  {
    ('0' as int + d) as char
  }

  function DigitValue(c: char): (d: nat)
    requires IsDigit(c)
    ensures d < 10 && DigitChar(d) == c
  {
    c as int - '0' as int
  }

  function Pow10(k: nat): (p: nat)
    ensures p >= 1
  {
    if k == 0 then 1 else 10 * Pow10(k - 1)
  }

  /** The numeral JavaScript writes for a non-negative integer: no sign, no leading zero. */
  function DecimalString(n: nat): (s: string)
    ensures |s| > 0 && AllDigits(s)
    ensures |s| > 1 ==> s[0] != '0'
    ensures n < 10 <==> |s| == 1
  {
    if n < 10 then [DigitChar(n)] else DecimalString(n / 10) + [DigitChar(n % 10)]
  }

  /** Reads a string of decimal digits back as the number it denotes. */
  function ParseDecimal(s: string): (n: nat)
    requires AllDigits(s)
    ensures n < Pow10(|s|)
  {
    if |s| == 0 then 0 else 10 * ParseDecimal(s[..|s| - 1]) + DigitValue(s[|s| - 1])
  }

  predicate IsSuffix(r: string, s: string) {
    |r| <= |s| && r == s[|s| - |r|..]
  }

  /**
   `s.slice(-k)` for k >= 1: the characters from index max(|s| - k, 0) to the end. At k = 0
   this is the empty string, whereas `slice(-0)` is the whole string; the records only use k = 10.
   */
  function TakeLast(s: string, k: nat): (r: string)
    ensures |r| == if |s| < k then |s| else k
    ensures IsSuffix(r, s)
  {
    s[if |s| < k then 0 else |s| - k..]
  }

  /** ASCII upper-casing, which is what `toUpperCase` does on the letters the workout types use. */
  function ToUpper(c: char): (u: char)
    ensures 'a' <= c <= 'z' ==> 'A' <= u <= 'Z' && u as int + 32 == c as int
    ensures !('a' <= c <= 'z') ==> u == c
  {
    if 'a' <= c <= 'z' then (c as int - 32) as char else c
  }

  /** `s[0].toUpperCase() + s.slice(1)`; indexing the first character needs a non-empty word. */
  function Capitalize(s: string): (r: string)
    requires |s| > 0
    ensures |r| == |s| && r[1..] == s[1..]
    ensures r[0] == ToUpper(s[0])
    ensures !('a' <= r[0] <= 'z')
  {
    [ToUpper(s[0])] + s[1..]
  }

  lemma {:induction false} ParseDecimalString(n: nat)
    ensures ParseDecimal(DecimalString(n)) == n
    decreases n
  {
    if n >= 10 {
      var s := DecimalString(n);
      assert s[..|s| - 1] == DecimalString(n / 10);
      ParseDecimalString(n / 10);
    }
  }

  /** Distinct numbers have distinct numerals. */
  lemma DecimalStringInjective(a: nat, b: nat)
    ensures DecimalString(a) == DecimalString(b) ==> a == b
  {
    ParseDecimalString(a);
    ParseDecimalString(b);
  }

  lemma ModUnique(n: int, m: int, a: int, c: int)
    requires m > 0 && n == m * a + c && 0 <= c < m
    ensures n % m == c && n / m == a
  {
    var q, r := n / m, n % m;
    assert m * (q - a) == c - r;
    if q > a {
      MulAtLeast(m, q - a);
    } else if q < a {
      MulAtLeast(m, a - q);
    }
  }

  lemma MulAtLeast(m: int, x: int)
    requires m > 0 && x >= 1
    ensures m * x >= m
  {
    assert m * x == m * (x - 1) + m;
  }

  lemma ModSplit(n: nat, p: nat)
    requires p > 0
    ensures 10 * ((n / 10) % p) + n % 10 == n % (10 * p)
  {
    var q, r := n / 10, n % 10;
    var a, b := q / p, q % p;
    assert n == (10 * p) * a + (10 * b + r);
    ModUnique(n, 10 * p, a, 10 * b + r);
  }

  lemma {:induction false} Pow10Monotone(i: nat, j: nat)
    requires i <= j
    ensures Pow10(i) <= Pow10(j)
    decreases j
  {
    if i < j {
      Pow10Monotone(i, j - 1);
    }
  }

  /**
   The last k characters of a number's numeral denote the number modulo 10^k (leading
   zeros of the kept part included).
   */
  lemma {:induction false} ParseLastDigits(n: nat, k: nat)
    ensures AllDigits(TakeLast(DecimalString(n), k))
    ensures ParseDecimal(TakeLast(DecimalString(n), k)) == n % Pow10(k)
    decreases n
  {
    var s := DecimalString(n);
    if |s| <= k {
      assert TakeLast(s, k) == s;
      ParseDecimalString(n);
      Pow10Monotone(|s|, k);
      ModUnique(n, Pow10(k), 0, n);
    } else if k == 0 {
      assert TakeLast(s, k) == [];
      ModUnique(n, 1, n, 0);
    } else {
      var t, t' := TakeLast(s, k), TakeLast(DecimalString(n / 10), k - 1);
      TakeLastStep(n, k);
      assert t[..|t| - 1] == t';
      ParseLastDigits(n / 10, k - 1);
      assert ParseDecimal(t) == 10 * ParseDecimal(t') + n % 10;
      ModSplit(n, Pow10(k - 1));
    }
  }

  /** Keeping one more digit of a numeral adds the next digit of the number in front. */
  lemma TakeLastStep(n: nat, k: nat)
    requires 0 < k < |DecimalString(n)|
    ensures TakeLast(DecimalString(n), k) == TakeLast(DecimalString(n / 10), k - 1) + [DigitChar(n % 10)]
  {
    var s, s', d := DecimalString(n), DecimalString(n / 10), DigitChar(n % 10);
    assert s == s' + [d];
    var i := |s| - k;
    assert TakeLast(s, k) == s[i..] && TakeLast(s', k - 1) == s'[i..];
    assert s[i..] == s'[i..] + [d];
  }
}
