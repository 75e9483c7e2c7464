/** Strings as the filename code reads them: last dots, decimal digits, alphabetical order. */
module Text {
  import opened Base

  const U64_MAX: nat := 0xffff_ffff_ffff_ffff
  const U128_MAX: nat := 0xffff_ffff_ffff_ffff_ffff_ffff_ffff_ffff

  /** Nothing is left of the string when it is trimmed. */
  predicate Blank(s: string) {
    forall k :: 0 <= k < |s| ==> s[k] == ' ' || s[k] == '\t' || s[k] == '\n' || s[k] == '\r'
  }

  const PASSWORD_SUFFIX: string := ".password"

  /** The name of the password file beside a stored file. */
  function SidecarName(name: string): string {
    name + PASSWORD_SUFFIX
  }

  /** The index of the last dot. */
  function LastDot(s: string): (r: Option<nat>)
    ensures r.Some? ==> r.value < |s| && s[r.value] == '.' && '.' !in s[r.value + 1..]
    ensures r.None? ==> '.' !in s
  {
    if s == "" then None
    else
      var n := |s| - 1;
      if s[n] == '.' then Some(n)
      else
        var r := LastDot(s[..n]);
        assert s == s[..n] + [s[n]];
        assert r.Some? ==> s[r.value + 1..] == s[..n][r.value + 1..] + [s[n]];
        r
  }

  lemma {:induction false} LastDotIs(prefix: string, suffix: string)
    requires '.' !in suffix
    ensures LastDot(prefix + "." + suffix) == Some(|prefix|)
  {
    var s := prefix + "." + suffix;
    if suffix == "" {
      assert s[|s| - 1] == '.';
    } else {
      var n := |suffix| - 1;
      LastDotIs(prefix, suffix[..n]);
      assert s[..|s| - 1] == prefix + "." + suffix[..n] && s[|s| - 1] == suffix[n];
    }
  }

  predicate IsDigit(c: char) {
    '0' <= c <= '9'
  }

  predicate AllDigits(s: string) {
    forall k :: 0 <= k < |s| ==> IsDigit(s[k])
  }

  function Digit(d: nat): (c: char)
    requires d < 10
    ensures IsDigit(c) && c as int - '0' as int == d
  {
    (d + '0' as int) as char
  }

  /** How an integer is printed. */
  function Decimal(n: nat): (s: string)
    ensures s != "" && AllDigits(s)
  {
    if n < 10 then [Digit(n)] else Decimal(n / 10) + [Digit(n % 10)]
  }

  /** The number that a string of digits denotes. */
  function Value(s: string): nat
    requires AllDigits(s)
  {
    if s == "" then 0 else 10 * Value(s[..|s|-1]) + (s[|s|-1] as int - '0' as int)
  }

  function Pow10(n: nat): (r: nat)
    ensures r > 0
  {
    if n == 0 then 1 else 10 * Pow10(n - 1)
  }

  /** Printing and reading back. */
  lemma {:induction false} ValueOfDecimal(n: nat)
    ensures Value(Decimal(n)) == n
  {
    if n < 10 {
      assert Decimal(n)[..0] == "";
    } else {
      ValueOfDecimal(n / 10);
      assert Decimal(n)[..|Decimal(n)| - 1] == Decimal(n / 10);
    }
  }

  lemma {:induction false} DecimalLength(n: nat, k: nat)
    ensures |Decimal(n)| > k + 1 <==> n >= Pow10(k + 1)
  {
    if k == 0 {
      assert Pow10(1) == 10 * Pow10(0) == 10;
    } else if n >= 10 {
      DecimalLength(n / 10, k - 1);
      assert Pow10(k + 1) == 10 * Pow10(k);
    } else {
      assert Pow10(k + 1) == 10 * Pow10(k);
    }
  }

  lemma Scale(d: int, p: int, q: int)
    requires q == 10 * p
    ensures 10 * (d * p) == d * q
  {
  }

  /** Reading from the front: the first digit weighs the most. */
  lemma {:induction false} ValueFront(s: string)
    requires s != "" && AllDigits(s)
    ensures Value(s) == (s[0] as int - '0' as int) * Pow10(|s| - 1) + Value(s[1..])
    ensures Value(s) < Pow10(|s|)
  {
    var n := |s| - 1;
    if n == 0 {
      assert s[..0] == "" && s[1..] == "" && Pow10(0) == 1 && Pow10(1) == 10 * Pow10(0);
    } else {
      ValueFront(s[..n]);
      assert s[..n][1..] == s[1..][..n-1] && s[1..][n-1] == s[n];
      var d := s[0] as int - '0' as int;
      assert Pow10(n) == 10 * Pow10(n - 1);
      Scale(d, Pow10(n - 1), Pow10(n));
      assert Pow10(n + 1) == 10 * Pow10(n);
    }
  }

  /** Alphabetical order. */
  predicate Before(a: string, b: string) {
    b != "" && (a == "" || a[0] < b[0] || (a[0] == b[0] && Before(a[1..], b[1..])))
  }

  lemma {:induction false} BeforeIsTotal(a: string, b: string)
    ensures Before(a, b) || a == b || Before(b, a)
  {
    if a != "" && b != "" && a[0] == b[0] {
      BeforeIsTotal(a[1..], b[1..]);
      assert a == [a[0]] + a[1..] && b == [b[0]] + b[1..];
    }
  }

  lemma {:induction false} BeforeIsTransitive(a: string, b: string, c: string)
    requires Before(a, b) && Before(b, c)
    ensures Before(a, c)
  {
    if a != "" && a[0] == b[0] == c[0] {
      BeforeIsTransitive(a[1..], b[1..], c[1..]);
    }
  }

  lemma Weight(x: int, y: int, p: int, u: int, v: int)
    requires 0 <= u < p && 0 <= v < p && x < y
    ensures x * p + u < y * p + v
  {
    var k := y - x;
    Distribute(x, k, p);
    AtLeastOnce(k, p);
  }

  lemma Distribute(x: int, k: int, p: int)
    ensures (x + k) * p == x * p + k * p
  {
  }

  lemma {:induction false} AtLeastOnce(k: int, p: int)
    requires k >= 1 && p >= 0
    ensures k * p >= p
    decreases k
  {
    if k > 1 {
      AtLeastOnce(k - 1, p);
      Distribute(k - 1, 1, p);
    }
  }

  /** On digit strings of one length, alphabetical order is numerical order. */
  lemma {:induction false} DigitOrder(a: string, b: string)
    requires AllDigits(a) && AllDigits(b) && |a| == |b|
    ensures Before(a, b) <==> Value(a) < Value(b)
  {
    if a != "" {
      ValueFront(a);
      ValueFront(b);
      DigitOrder(a[1..], b[1..]);
      var x, y, p := a[0] as int - '0' as int, b[0] as int - '0' as int, Pow10(|a| - 1);
      var u, v := Value(a[1..]), Value(b[1..]);
      ValueBound(a[1..]);
      ValueBound(b[1..]);
      if x < y {
        Weight(x, y, p, u, v);
      } else if y < x {
        Weight(y, x, p, v, u);
      }
    }
  }

  lemma ValueBound(s: string)
    requires AllDigits(s)
    ensures Value(s) < Pow10(|s|)
  {
    if s != "" {
      ValueFront(s);
    }
  }

  lemma {:induction false} BeforeAfterPrefix(p: string, a: string, b: string)
    ensures Before(p + a, p + b) <==> Before(a, b)
  {
    if p == "" {
      assert p + a == a && p + b == b;
    } else {
      BeforeAfterPrefix(p[1..], a, b);
      assert (p + a)[1..] == p[1..] + a && (p + b)[1..] == p[1..] + b;
    }
  }
}
