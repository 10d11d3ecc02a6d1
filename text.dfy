/** The string operations the engine relies on: `str.isdigit`, `int`, `str(n)`,
    zero padding, `lower`, `title`, `replace('_', ' ')` and `in` over ASCII, and
    `strip` over every character Python counts as whitespace. */
module Text {

  predicate IsDigit(c: char) {
    '0' <= c <= '9'
  }

  /** `s.isdigit()`: non-empty and made of digits. */
  predicate IsDigits(s: string) {
    |s| > 0 && AllDigits(s)
  }

  predicate AllDigits(s: string) {
    forall i :: 0 <= i < |s| ==> IsDigit(s[i])
  }

  function DigitValue(c: char): nat
    requires IsDigit(c)
  {
    c as int - '0' as int
  }

  function DigitChar(d: nat): (c: char)
    requires d < 10
    ensures IsDigit(c) && DigitValue(c) == d
  {
    ('0' as int + d) as char
  }

  /** `int(s)` for a string of digits. */
  function DigitsValue(s: string): nat
    requires AllDigits(s)
  {
    if s == [] then 0 else 10 * DigitsValue(s[..|s| - 1]) + DigitValue(s[|s| - 1])
  }

  /** `str(n)` for a natural number. */
  function Decimal(n: nat): (r: string)
    ensures IsDigits(r)
    ensures |r| == 1 || r[0] != '0'
  {
    if n < 10 then [DigitChar(n)] else Decimal(n / 10) + [DigitChar(n % 10)]
  }

  /** Reading back what `str(n)` printed gives `n`. */
  lemma {:induction false} DecimalRoundTrip(n: nat)
    ensures DigitsValue(Decimal(n)) == n
  {
    if n >= 10 {
      var s := Decimal(n);
      assert s[..|s| - 1] == Decimal(n / 10);
      DecimalRoundTrip(n / 10);
    }
  }

  lemma DecimalInjective(m: nat, n: nat)
    ensures Decimal(m) == Decimal(n) ==> m == n
  {
    DecimalRoundTrip(m);
    DecimalRoundTrip(n);
  }

  /** A number between 10^(k-1) and 10^k prints with k digits. */
  lemma {:induction false} DecimalLength(n: nat, k: nat)
    requires k >= 1 && Power10(k - 1) <= n < Power10(k)
    ensures |Decimal(n)| == k
  {
    if n >= 10 {
      assert k >= 2;
      DecimalLength(n / 10, k - 1);
    }
  }

  function Power10(k: nat): (p: nat)
    ensures p >= 1
  {
    if k == 0 then 1 else 10 * Power10(k - 1)
  }

  /** Every Unix time of the years 2001 to 2286 prints as ten digits. */
  lemma TenDigitTimestamp(t: nat)
    requires 1_000_000_000 <= t < 10_000_000_000
    ensures |Decimal(t)| == 10
  {
    assert Power10(9) == 1_000_000_000;
    assert Power10(10) == 10_000_000_000;
    DecimalLength(t, 10);
  }

  /** `f"{n:04d}"`: the decimal digits, padded with zeros to at least four. */
  function Pad4(n: nat): string {
    var d := Decimal(n);
    if |d| >= 4 then d else Zeros(4 - |d|) + d
  }

  /** A padded number is at least four digits, is the plain decimal when that is
      already four long, and reads back as the number. */
  lemma Pad4Digits(n: nat)
    ensures var r := Pad4(n);
            |r| >= 4 && IsDigits(r) && (|Decimal(n)| >= 4 ==> r == Decimal(n)) && DigitsValue(r) == n
  {
    var d := Decimal(n);
    DecimalRoundTrip(n);
    if |d| < 4 {
      LeadingZeros(Zeros(4 - |d|), d);
    }
  }

  function Zeros(k: nat): (z: string)
    ensures |z| == k && forall i :: 0 <= i < k ==> z[i] == '0'
  {
    seq(k, i => '0')
  }

  lemma {:induction false} LeadingZeros(z: string, d: string)
    requires forall i :: 0 <= i < |z| ==> z[i] == '0'
    requires AllDigits(d)
    ensures AllDigits(z + d) && DigitsValue(z + d) == DigitsValue(d)
  {
    if d == [] {
      assert z + d == z;
      AllZeros(z);
    } else {
      assert (z + d)[..|z + d| - 1] == z + d[..|d| - 1];
      LeadingZeros(z, d[..|d| - 1]);
    }
  }

  lemma {:induction false} AllZeros(z: string)
    requires forall i :: 0 <= i < |z| ==> z[i] == '0'
    ensures AllDigits(z) && DigitsValue(z) == 0
  {
    if z != [] {
      AllZeros(z[..|z| - 1]);
    }
  }

  predicate IsUpper(c: char) { 'A' <= c <= 'Z' }
  predicate IsLower(c: char) { 'a' <= c <= 'z' }
  predicate IsLetter(c: char) { IsUpper(c) || IsLower(c) }

  function LowerChar(c: char): char {
    if IsUpper(c) then (c as int + 32) as char else c
  }

  function UpperChar(c: char): char {
    if IsLower(c) then (c as int - 32) as char else c
  }

  /** `s.lower()` */
  function Lower(s: string): string {
    seq(|s|, i requires 0 <= i < |s| => LowerChar(s[i]))
  }

  /** `s.replace('_', ' ')` */
  function Underscores(s: string): string {
    seq(|s|, i requires 0 <= i < |s| => if s[i] == '_' then ' ' else s[i])
  }

  /** `s.title()`: a letter is upper-cased when it follows a non-letter, lower-cased otherwise. */
  function Title(s: string): (r: string)
    ensures |r| == |s|
  {
    TitleAfter(s, false)
  }

  function TitleAfter(s: string, afterLetter: bool): (r: string)
    ensures |r| == |s|
  {
    if s == [] then []
    else
      var c := s[0];
      [if !IsLetter(c) then c else if afterLetter then LowerChar(c) else UpperChar(c)]
      + TitleAfter(s[1..], IsLetter(c))
  }

  /** `str.isspace` of one character: the ASCII controls tab through carriage
      return and the file, group, record and unit separators, the space, and the
      Unicode separators and spaces Python treats as whitespace. */
  predicate IsSpace(c: char) {
    ('\t' <= c <= '\r') || ('\U{001C}' <= c <= ' ') || c == '\U{0085}' || c == '\U{00A0}' || c == '\U{1680}'
    || ('\U{2000}' <= c <= '\U{200A}') || c == '\U{2028}' || c == '\U{2029}' || c == '\U{202F}'
    || c == '\U{205F}' || c == '\U{3000}'
  }

  function StripLeft(s: string): string {
    if s != [] && IsSpace(s[0]) then StripLeft(s[1..]) else s
  }

  function StripRight(s: string): string {
    if s != [] && IsSpace(s[|s| - 1]) then StripRight(s[..|s| - 1]) else s
  }

  /** `lstrip` drops the leading whitespace and nothing else. */
  lemma {:induction false} StripLeftDrops(s: string)
    ensures var r := StripLeft(s);
            |r| <= |s| && r == s[|s| - |r|..] && (r == [] || !IsSpace(r[0]))
            && forall i :: 0 <= i < |s| - |r| ==> IsSpace(s[i])
  {
    if s != [] && IsSpace(s[0]) {
      var t := s[1..];
      StripLeftDrops(t);
      var r := StripLeft(t);
      assert StripLeft(s) == r;
      assert t[|t| - |r|..] == s[|s| - |r|..];
      forall i | 0 <= i < |s| - |r|
        ensures IsSpace(s[i])
      {
        if i > 0 { assert s[i] == t[i - 1]; }
      }
    }
  }

  /** `rstrip` drops the trailing whitespace and nothing else. */
  lemma {:induction false} StripRightDrops(s: string)
    ensures var r := StripRight(s);
            |r| <= |s| && r == s[..|r|] && (r == [] || !IsSpace(r[|r| - 1]))
            && forall i :: |r| <= i < |s| ==> IsSpace(s[i])
  {
    if s != [] && IsSpace(s[|s| - 1]) {
      var t := s[..|s| - 1];
      StripRightDrops(t);
      var r := StripRight(t);
      assert StripRight(s) == r;
      assert t[..|r|] == s[..|r|];
      forall i | |r| <= i < |s|
        ensures IsSpace(s[i])
      {
        if i < |t| { assert s[i] == t[i]; }
      }
    }
  }

  /** `s.strip()` */
  function Strip(s: string): (r: string)
  {
    StripRight(StripLeft(s))
  }

  /** A stripped string is blank exactly when the original held only whitespace,
      and otherwise it starts and ends with a non-space. */
  lemma StripBlank(s: string)
    ensures Strip(s) == "" <==> forall i :: 0 <= i < |s| ==> IsSpace(s[i])
    ensures Strip(s) != "" ==> !IsSpace(Strip(s)[0]) && !IsSpace(Strip(s)[|Strip(s)| - 1])
  {
    var l := StripLeft(s);
    var r := StripRight(l);
    StripLeftDrops(s);
    StripRightDrops(l);
    if r == "" {
      assert l == [];
    } else {
      assert r[0] == l[0] == s[|s| - |l|];
    }
  }

  /** `needle in hay` */
  predicate Contains(hay: string, needle: string) {
    exists i :: 0 <= i <= |hay| - |needle| && needle <= hay[i..]
  }

  lemma ContainsEmpty(hay: string)
    ensures Contains(hay, "")
  {
    assert "" <= hay[0..];
  }

  /** `string.ascii_uppercase + string.digits` */
  const UpperDigits := "ABCDEFGHIJKLMNOPQRSTUVWXYZ0123456789"

  predicate DrawnFrom(s: string, alphabet: string) {
    forall i :: 0 <= i < |s| ==> s[i] in alphabet
  }

  /** Every decimal digit is one of the characters a code is drawn from. */
  lemma DigitsDrawn(s: string)
    requires AllDigits(s)
    ensures DrawnFrom(s, UpperDigits)
  {
    forall i | 0 <= i < |s| ensures s[i] in UpperDigits {
      assert UpperDigits[26 + (s[i] as int - '0' as int)] == s[i];
    }
  }

  lemma DrawnAppend(a: string, b: string, alphabet: string)
    requires DrawnFrom(a, alphabet) && DrawnFrom(b, alphabet)
    ensures DrawnFrom(a + b, alphabet)
  {
    forall i | 0 <= i < |a + b| ensures (a + b)[i] in alphabet {
      if i >= |a| {
        assert (a + b)[i] == b[i - |a|];
      }
    }
  }
}
