/**
 * The pieces of the C string library the store and the dispatcher rely on:
 * bounded copies and concatenations (`strncpy`, `strncat`, the truncation of
 * `snprintf` and of `write` with an explicit length) and the decimal
 * conversion of `%zu`. A C string is modelled by its characters before the
 * terminating NUL.
 */
module CStrings {

  /** The first n elements of s, or all of s when it is shorter: what a bounded copy keeps. */
  function Take<T>(s: seq<T>, n: int): (r: seq<T>)
    ensures |r| == if n <= 0 then 0 else if n < |s| then n else |s|
    ensures r == s[..|r|]
  {
    if n <= 0 then [] else if n < |s| then s[..n] else s
  }

  /** `strncat(dest, src, n)`: at most n characters of src are appended. */
  function StrNCat(dest: string, src: string, n: int): string {
    dest + Take(src, n)
  }

  /** A string no longer than the bound is copied whole. */
  lemma TakeAll<T>(s: seq<T>, n: int)
    requires |s| <= n
    ensures Take(s, n) == s
  {
  }

  /**
   * Appending with `strncat(out, src, cap - strlen(out))` to a buffer that holds
   * the first cap characters of a keeps the first cap characters of a + src:
   * the buffer never overflows and truncation happens once, at the end.
   */
  lemma StrNCatBounded(a: string, src: string, cap: nat)
    ensures var out := Take(a, cap);
      |out| <= cap && StrNCat(out, src, cap - |out|) == Take(a + src, cap)
  {
    var out := Take(a, cap);
    if |a| < cap {
      assert out == a;
      assert Take(a + src, cap) == a + Take(src, cap - |a|);
    } else {
      assert Take(src, cap - |out|) == [];
      assert Take(a + src, cap) == (a + src)[..cap] == a[..cap];
    }
  }

  /**
   * A line that fits the `snprintf` buffer (at most width characters) and is
   * then appended with the bounded `strncat` extends the first cap characters
   * of a to the first cap characters of a + line.
   */
  lemma BoundedAppend(a: string, line: string, width: nat, cap: nat)
    requires |line| <= width
    ensures var out := Take(a, cap);
      StrNCat(out, Take(line, width), cap - |out|) == Take(a + line, cap)
  {
    TakeAll(line, width);
    StrNCatBounded(a, line, cap);
  }

  // ---------------------------------------------------------------------------
  // `%zu`: decimal digits of an unsigned value
  // ---------------------------------------------------------------------------

  /** The ASCII digit for d. */
  function Digit(d: nat): (c: char)
    requires d < 10
    ensures '0' <= c <= '9'
  {
    ('0' as int + d) as char
  }

  predicate AllDigits(s: string) {
    forall k | 0 <= k < |s| :: '0' <= s[k] <= '9'
  }

  /** The decimal digits `printf` writes for n, without leading zeros. */
  function Decimal(n: nat): (s: string)
    decreases n
  {
    if n < 10 then [Digit(n)] else Decimal(n / 10) + [Digit(n % 10)]
  }

  /** The value of a string of decimal digits, most significant first. */
  function DecimalValue(s: string): nat
    requires AllDigits(s)
  {
    if s == [] then 0
    else DecimalValue(s[..|s| - 1]) * 10 + (s[|s| - 1] as int - '0' as int)
  }

  function Pow10(k: nat): (p: nat)
    ensures p >= 1
  {
    if k == 0 then 1 else 10 * Pow10(k - 1)
  }

  /** Reading back the digits of n gives n; there is a leading zero only for 0. */
  lemma {:induction false} DecimalRoundTrip(n: nat)
    ensures var s := Decimal(n);
      && |s| >= 1 && AllDigits(s) && DecimalValue(s) == n
      && (s[0] == '0' <==> n == 0)
    decreases n
  {
    if n >= 10 {
      DecimalRoundTrip(n / 10);
      var s := Decimal(n);
      assert s[..|s| - 1] == Decimal(n / 10);
      assert s[0] == Decimal(n / 10)[0];
    }
  }

  /** Powers of ten multiply by adding exponents. */
  lemma {:induction false} Pow10Sum(a: nat, b: nat)
    ensures Pow10(a + b) == Pow10(a) * Pow10(b)
    decreases a
  {
    if a > 0 {
      Pow10Sum(a - 1, b);
    }
  }

  /** A value below 10^k has at most k digits. */
  lemma {:induction false} DecimalLength(n: nat, k: nat)
    requires 1 <= k && n < Pow10(k)
    ensures |Decimal(n)| <= k
    decreases k
  {
    if n >= 10 {
      assert k >= 2;
      DecimalLength(n / 10, k - 1);
    }
  }

  /** A 64-bit `size_t` prints in at most 20 digits. */
  lemma DecimalOf64Bits(n: nat)
    requires n < 0x1_0000_0000_0000_0000
    ensures |Decimal(n)| <= 20
  {
    Pow10Sum(5, 5);
    Pow10Sum(10, 10);
    DecimalLength(n, 20);
  }
}
