/** Small text utilities the flight-status model shares: an Option type,
    splitting a string at the first occurrence of a separator character,
    and zero-padded decimal numbers as Go's time formatting writes them. */
module Text {

  datatype Option<T> = None | Some(value: T)

  /** Splits `s` around the first occurrence of `sep`; None when `sep` does not occur. */
  function SplitAtFirst(s: string, sep: char): (r: Option<(string, string)>)
    ensures r.None? <==> sep !in s
    ensures r.Some? ==> s == r.value.0 + [sep] + r.value.1 && sep !in r.value.0
    decreases |s|
  {
    if s == [] then None
    else if s[0] == sep then Some(([], s[1..]))
    else
      match SplitAtFirst(s[1..], sep)
      case None => None
      case Some((before, after)) => Some(([s[0]] + before, after))
  }

  /** Joining two parts around a separator that the first part lacks is undone by SplitAtFirst. */
  lemma {:induction false} SplitAtFirstJoin(a: string, sep: char, b: string)
    requires sep !in a
    ensures SplitAtFirst(a + [sep] + b, sep) == Some((a, b))
  {
    if a != [] {
      var s := a + [sep] + b;
      assert s[0] == a[0] != sep;
      assert s[1..] == a[1..] + [sep] + b;
      SplitAtFirstJoin(a[1..], sep, b);
      assert [a[0]] + a[1..] == a;
    }
  }

  predicate IsDigit(c: char) {
    '0' <= c <= '9'
  }

  predicate AllDigits(s: string) {
    forall i :: 0 <= i < |s| ==> IsDigit(s[i])
  }

  function DigitChar(d: nat): (c: char)
    requires d < 10
    ensures IsDigit(c) && c as int - '0' as int == d
  {
    ('0' as int + d) as char
  }

  /** The shortest decimal representation of `n`. */
  function Decimal(n: nat): (s: string)
    ensures |s| >= 1 && AllDigits(s)
    decreases n
  {
    if n < 10 then [DigitChar(n)] else Decimal(n / 10) + [DigitChar(n % 10)]
  }

  function Pow10(k: nat): (p: nat)
    ensures p >= 1
  {
    if k == 0 then 1 else 10 * Pow10(k - 1)
  }

  /** A number below 10^k has at most k decimal digits (k >= 1). */
  lemma {:induction false} DecimalLength(n: nat, k: nat)
    ensures 1 <= k && n < Pow10(k) ==> |Decimal(n)| <= k
    decreases n
  {
    if 2 <= k && n < Pow10(k) && n >= 10 {
      assert n / 10 < Pow10(k - 1);
      DecimalLength(n / 10, k - 1);
    }
  }

  function Zeros(k: nat): (s: string)
    ensures |s| == k && forall i :: 0 <= i < k ==> s[i] == '0'
  {
    if k == 0 then [] else Zeros(k - 1) + ['0']
  }

  /** The decimal representation of `n`, left-padded with zeros to at least
      `width` characters (Go's appendInt(b, n, width) used by time.Format). */
  function PadDigits(n: nat, width: nat): (s: string)
    ensures AllDigits(s) && |s| >= width && |s| >= 1
    ensures 1 <= width && n < Pow10(width) ==> |s| == width
  {
    DecimalLength(n, width);
    var digits := Decimal(n);
    (if |digits| < width then Zeros(width - |digits|) else []) + digits
  }

  /** The number a string of decimal digits denotes. */
  function DigitsValue(s: string): nat
    requires AllDigits(s)
    decreases |s|
  {
    if s == [] then 0
    else DigitsValue(s[..|s| - 1]) * 10 + (s[|s| - 1] as int - '0' as int)
  }

  /** Reads a non-empty string of decimal digits. */
  function ParseNumber(s: string): (r: Option<nat>)
    ensures r.Some? <==> s != [] && AllDigits(s)
  {
    if s != [] && AllDigits(s) then Some(DigitsValue(s)) else None
  }

  lemma {:induction false} DecimalValue(n: nat)
    ensures DigitsValue(Decimal(n)) == n
    decreases n
  {
    if n >= 10 {
      DecimalValue(n / 10);
      var s := Decimal(n);
      assert s[..|s| - 1] == Decimal(n / 10);
    }
  }

  lemma {:induction false} LeadingZerosValue(k: nat, s: string)
    requires AllDigits(s)
    ensures AllDigits(Zeros(k) + s) && DigitsValue(Zeros(k) + s) == DigitsValue(s)
    decreases |s|, k
  {
    var t := Zeros(k) + s;
    if s == [] {
      assert t == Zeros(k);
      if k > 0 {
        assert t[..|t| - 1] == Zeros(k - 1);
        LeadingZerosValue(k - 1, s);
        assert Zeros(k - 1) + s == Zeros(k - 1);
        assert DigitsValue(t) == DigitsValue(Zeros(k - 1)) * 10 + 0;
      }
    } else {
      var init := s[..|s| - 1];
      assert t[..|t| - 1] == Zeros(k) + init;
      assert t[|t| - 1] == s[|s| - 1];
      LeadingZerosValue(k, init);
      assert DigitsValue(t) == DigitsValue(Zeros(k) + init) * 10 + (s[|s| - 1] as int - '0' as int);
    }
  }

  /** Zero padding never changes the number read back. */
  lemma PadDigitsRoundTrip(n: nat, width: nat)
    ensures ParseNumber(PadDigits(n, width)) == Some(n)
  {
    var digits := Decimal(n);
    var k: nat := if |digits| < width then width - |digits| else 0;
    assert PadDigits(n, width) == Zeros(k) + digits;
    DecimalValue(n);
    LeadingZerosValue(k, digits);
  }
}
