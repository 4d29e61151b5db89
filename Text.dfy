/**
 * The .NET string primitives the load tracker relies on: white space,
 * `Trim`, `string.IsNullOrWhiteSpace`, ordinal case-insensitive equality,
 * `int.TryParse` with `NumberStyles.Integer` and `bool.TryParse`.
 * A Dafny `char` is a Unicode scalar value, whereas a .NET `char` is a
 * UTF-16 code unit: a character outside the Basic Multilingual Plane is one
 * character here and two in .NET.
 */
module Text {
  import opened Wrappers

  /** `char.IsWhiteSpace`: the characters .NET treats as white space. */
  predicate IsWhiteSpace(c: char) {
    || '\t' <= c <= '\r'
    || c == ' '
    || c == '\U{0085}' || c == '\U{00A0}' || c == '\U{1680}'
    || '\U{2000}' <= c <= '\U{200A}'
    || c == '\U{2028}' || c == '\U{2029}' || c == '\U{202F}' || c == '\U{205F}'
    || c == '\U{3000}'
  }

  /** Every character of `s` satisfies `p`. */
  predicate All(s: string, p: char -> bool) {
    forall i :: 0 <= i < |s| ==> p(s[i])
  }

  /** `string.IsNullOrWhiteSpace(s)`. */
  predicate IsNullOrWhiteSpace(s: Option<string>) {
    s.None? || All(s.value, IsWhiteSpace)
  }

  /** The number of leading characters of `s` that satisfy `p`. */
  function LeadingCount(s: string, p: char -> bool): (n: nat)
    ensures n <= |s|
    ensures forall i :: 0 <= i < n ==> p(s[i])
    ensures n < |s| ==> !p(s[n])
  {
    LeadingFrom(s, p, 0)
  }

  /** The end of the run of characters satisfying `p` that starts at `i`. */
  function LeadingFrom(s: string, p: char -> bool, i: nat): (n: nat)
    requires i <= |s|
    ensures i <= n <= |s|
    ensures forall j :: i <= j < n ==> p(s[j])
    ensures n < |s| ==> !p(s[n])
    decreases |s| - i
  {
    if i == |s| || !p(s[i]) then i else LeadingFrom(s, p, i + 1)
  }

  /** The number of trailing characters of `s` that satisfy `p`. */
  function TrailingCount(s: string, p: char -> bool): (n: nat)
    ensures n <= |s|
    ensures forall i :: |s| - n <= i < |s| ==> p(s[i])
    ensures n < |s| ==> !p(s[|s| - n - 1])
  {
    TrailingFrom(s, p, 0)
  }

  /** The length of the run of characters satisfying `p` that ends `k` characters before the end. */
  function TrailingFrom(s: string, p: char -> bool, k: nat): (n: nat)
    requires k <= |s|
    ensures k <= n <= |s|
    ensures forall i :: |s| - n <= i < |s| - k ==> p(s[i])
    ensures n < |s| ==> !p(s[|s| - n - 1])
    decreases |s| - k
  {
    if k == |s| || !p(s[|s| - k - 1]) then k else TrailingFrom(s, p, k + 1)
  }

  /**
   * Drops the characters satisfying `p` from both ends: what remains is
   * the middle of `s`, empty exactly when every character satisfies `p`,
   * and otherwise starting and ending with a character that does not.
   */
  function TrimWhere(s: string, p: char -> bool): (r: string)
    ensures |r| <= |s|
    ensures r == [] <==> All(s, p)
    ensures r != [] ==> !p(r[0]) && !p(r[|r| - 1])
  {
    var a := LeadingCount(s, p);
    if a == |s| then []
    else
      var b := TrailingCount(s, p);
      assert !p(s[a]);
      assert b <= |s| - a - 1;
      s[a..|s| - b]
  }

  /** A string that starts and ends outside `p` is left as it is. */
  lemma TrimWhereFixed(s: string, p: char -> bool)
    requires s == [] || (!p(s[0]) && !p(s[|s| - 1]))
    ensures TrimWhere(s, p) == s
  {
    if s != [] {
      assert LeadingCount(s, p) == 0;
      assert TrailingCount(s, p) == 0;
      assert s[0..|s|] == s;
    }
  }

  /** Trimming twice is trimming once. */
  lemma TrimWhereIdempotent(s: string, p: char -> bool)
    ensures TrimWhere(TrimWhere(s, p), p) == TrimWhere(s, p)
  {
    var r := TrimWhere(s, p);
    assert r == [] || (!p(r[0]) && !p(r[|r| - 1]));
    TrimWhereFixed(r, p);
  }

  /** The leading count is the one position where the run of `p` stops. */
  lemma LeadingCountIs(s: string, p: char -> bool, k: nat)
    requires k <= |s| && (forall i :: 0 <= i < k ==> p(s[i])) && (k < |s| ==> !p(s[k]))
    ensures LeadingCount(s, p) == k
  {
  }

  /** The trailing count is the one position where the run of `p` stops. */
  lemma TrailingCountIs(s: string, p: char -> bool, k: nat)
    requires k <= |s| && (forall i :: |s| - k <= i < |s| ==> p(s[i])) && (k < |s| ==> !p(s[|s| - k - 1]))
    ensures TrailingCount(s, p) == k
  {
  }

  /** `w1 + y + w2` consists of `w1`, then `y`, then `w2`. */
  lemma PaddedIndex(w1: string, y: string, w2: string, i: int)
    requires 0 <= i < |w1| + |y| + |w2|
    ensures var s := w1 + y + w2;
      && (i < |w1| ==> s[i] == w1[i])
      && (|w1| <= i < |w1| + |y| ==> s[i] == y[i - |w1|])
      && (|w1| + |y| <= i ==> s[i] == w2[i - |w1| - |y|])
  {
  }

  /** Leading padding adds its length to the leading count of text that is not all padding. */
  lemma LeadingCountPadded(w1: string, y: string, w2: string, p: char -> bool)
    requires All(w1, p) && !All(y, p)
    ensures LeadingCount(w1 + y + w2, p) == |w1| + LeadingCount(y, p)
  {
    var s := w1 + y + w2;
    var a := LeadingCount(y, p);
    forall i | 0 <= i < |w1| + a
      ensures p(s[i])
    {
      PaddedIndex(w1, y, w2, i);
    }
    PaddedIndex(w1, y, w2, |w1| + a);
    LeadingCountIs(s, p, |w1| + a);
  }

  /** Trailing padding adds its length to the trailing count of text that is not all padding. */
  lemma TrailingCountPadded(w1: string, y: string, w2: string, p: char -> bool)
    requires All(w2, p) && !All(y, p)
    ensures TrailingCount(w1 + y + w2, p) == |w2| + TrailingCount(y, p)
  {
    var s := w1 + y + w2;
    var b := TrailingCount(y, p);
    forall i | |s| - (|w2| + b) <= i < |s|
      ensures p(s[i])
    {
      PaddedIndex(w1, y, w2, i);
    }
    PaddedIndex(w1, y, w2, |s| - (|w2| + b) - 1);
    TrailingCountIs(s, p, |w2| + b);
  }

  /** Text made only of `p` stays so when padded with `p`. */
  lemma AllPadded(w1: string, y: string, w2: string, p: char -> bool)
    requires All(w1, p) && All(y, p) && All(w2, p)
    ensures All(w1 + y + w2, p)
  {
    var s := w1 + y + w2;
    forall i | 0 <= i < |s|
      ensures p(s[i])
    {
      PaddedIndex(w1, y, w2, i);
    }
  }

  /** Padding made of characters satisfying `p` on either side is trimmed away. */
  lemma TrimWherePadded(w1: string, y: string, w2: string, p: char -> bool)
    requires All(w1, p) && All(w2, p)
    ensures TrimWhere(w1 + y + w2, p) == TrimWhere(y, p)
  {
    if All(y, p) {
      AllPadded(w1, y, w2, p);
    } else {
      TrimWherePaddedMiddle(w1, y, w2, p);
    }
  }

  lemma TrimWherePaddedMiddle(w1: string, y: string, w2: string, p: char -> bool)
    requires All(w1, p) && All(w2, p) && !All(y, p)
    ensures TrimWhere(w1 + y + w2, p) == TrimWhere(y, p)
  {
    var s := w1 + y + w2;
    var a, b := LeadingCount(y, p), TrailingCount(y, p);
    NotAllStopsEarly(y, p);
    TrimWhereIs(y, p);
    LeadingCountPadded(w1, y, w2, p);
    TrailingCountPadded(w1, y, w2, p);
    PaddedSlice(w1, y, w2, a, |y| - b);
    TrimWhereShift(s, y, p, |w1|, |w2|);
  }

  /**
   * When `s` is `y` with `l` characters before it and `r` after, and the
   * runs of `p` at the ends of `s` are those of `y` extended by them,
   * trimming `s` gives the trimmed `y`.
   */
  lemma TrimWhereShift(s: string, y: string, p: char -> bool, l: nat, r: nat)
    requires |s| == l + |y| + r
    requires LeadingCount(y, p) < |y| - TrailingCount(y, p)
    requires LeadingCount(s, p) == l + LeadingCount(y, p)
    requires TrailingCount(s, p) == r + TrailingCount(y, p)
    requires s[l + LeadingCount(y, p)..l + (|y| - TrailingCount(y, p))] == y[LeadingCount(y, p)..|y| - TrailingCount(y, p)]
    ensures TrimWhere(s, p) == TrimWhere(y, p)
  {
    TrimWhereIs(y, p);
    TrimWhereIs(s, p);
  }

  /** In text that is not all `p`, the leading run of `p` stops before the end. */
  lemma NotAllStopsEarly(s: string, p: char -> bool)
    requires !All(s, p)
    ensures LeadingCount(s, p) < |s|
  {
  }

  /** Trimming text that is not all `p` keeps what lies between the two runs of `p`. */
  lemma TrimWhereIs(s: string, p: char -> bool)
    requires LeadingCount(s, p) < |s|
    ensures LeadingCount(s, p) < |s| - TrailingCount(s, p)
    ensures TrimWhere(s, p) == s[LeadingCount(s, p)..|s| - TrailingCount(s, p)]
  {
    LeadingBeforeTrailing(s, p);
    TrimWhereBetween(s, p, LeadingCount(s, p), TrailingCount(s, p));
  }

  lemma TrimWhereBetween(s: string, p: char -> bool, a: nat, b: nat)
    requires a == LeadingCount(s, p) && b == TrailingCount(s, p) && a < |s| - b
    ensures TrimWhere(s, p) == s[a..|s| - b]
  {
  }

  /** The leading run, when it stops before the end, stops before the trailing run too. */
  lemma LeadingBeforeTrailing(s: string, p: char -> bool)
    requires LeadingCount(s, p) < |s|
    ensures LeadingCount(s, p) < |s| - TrailingCount(s, p)
  {
    assert !p(s[LeadingCount(s, p)]);
  }

  /** A slice of `w1 + y + w2` inside `y` is that slice of `y`. */
  lemma PaddedSlice(w1: string, y: string, w2: string, i: int, j: int)
    requires 0 <= i <= j <= |y|
    ensures (w1 + y + w2)[|w1| + i..|w1| + j] == y[i..j]
  {
    var s := w1 + y + w2;
    forall k | 0 <= k < j - i
      ensures s[|w1| + i..|w1| + j][k] == y[i..j][k]
    {
      PaddedIndex(w1, y, w2, |w1| + i + k);
    }
  }

  /** `s.Trim()`. */
  function Trim(s: string): string {
    TrimWhere(s, IsWhiteSpace)
  }

  /** Null, or non-empty text with no white space at either end. */
  predicate IsTrimmedOrNull(v: Option<string>) {
    v.None? || (v.value != [] && !IsWhiteSpace(v.value[0]) && !IsWhiteSpace(v.value[|v.value| - 1]))
  }

  /**
   * `string.IsNullOrWhiteSpace(s) ? null : s.Trim()`: blank input becomes
   * null, anything else its trimmed text, which is never empty and never
   * starts or ends with white space.
   */
  function NullIfBlank(s: Option<string>): (r: Option<string>)
    ensures r.None? <==> IsNullOrWhiteSpace(s)
    ensures r.Some? ==> r.value == Trim(s.value)
    ensures IsTrimmedOrNull(r)
  {
    if IsNullOrWhiteSpace(s) then None else Some(Trim(s.value))
  }

  /** Normalising an already normalised value changes nothing. */
  lemma NullIfBlankIdempotent(s: Option<string>)
    ensures NullIfBlank(NullIfBlank(s)) == NullIfBlank(s)
  {
    if !IsNullOrWhiteSpace(s) {
      TrimWhereIdempotent(s.value, IsWhiteSpace);
    }
  }

  // ---------------------------------------------------------------------
  // Ordinal case-insensitive comparison (StringComparison.OrdinalIgnoreCase)

  /** The upper-case form of an ASCII letter; every other character is itself. */
  function UpperAscii(c: char): char {
    if 'a' <= c <= 'z' then (c as int - 32) as char else c
  }

  /** `string.Equals(a, b, StringComparison.OrdinalIgnoreCase)` on non-null strings. */
  predicate EqualsIgnoreCase(a: string, b: string) {
    |a| == |b| && forall i :: 0 <= i < |a| ==> UpperAscii(a[i]) == UpperAscii(b[i])
  }

  /**
   * The static `string.Equals(a, b, StringComparison.OrdinalIgnoreCase)`:
   * two nulls are equal, a null never equals a string.
   */
  predicate NullableEqualsIgnoreCase(a: Option<string>, b: Option<string>) {
    match (a, b)
    case (None, None) => true
    case (Some(x), Some(y)) => EqualsIgnoreCase(x, y)
    case _ => false
  }

  // ---------------------------------------------------------------------
  // int.TryParse(s, NumberStyles.Integer, CultureInfo.InvariantCulture)

  const Int32Min: int := -0x8000_0000
  const Int32Max: int := 0x7FFF_FFFF

  predicate InInt32(n: int) {
    Int32Min <= n <= Int32Max
  }

  /** The white space `NumberStyles.AllowLeadingWhite`/`AllowTrailingWhite` skip. */
  predicate IsNumberWhite(c: char) {
    '\t' <= c <= '\r' || c == ' '
  }

  predicate IsDigit(c: char) {
    '0' <= c <= '9'
  }

  /** The value of a string of decimal digits. */
  function DigitsValue(ds: string): nat
    requires All(ds, IsDigit)
  {
    if ds == [] then 0
    else 10 * DigitsValue(ds[..|ds| - 1]) + (ds[|ds| - 1] as int - '0' as int)
  }

  predicate IsNul(c: char) {
    c == '\0'
  }

  /**
   * An optional `+` or `-`, then one or more decimal digits whose value
   * fits in 32 bits.
   */
  function ParseSignedDigits(t: string): (r: Option<int>)
    ensures r.Some? ==> InInt32(r.value) && t != []
  {
    var signed := t != [] && (t[0] == '-' || t[0] == '+');
    var digits := if signed then t[1..] else t;
    if digits == [] || !All(digits, IsDigit) then None
    else
      var magnitude: int := DigitsValue(digits);
      var v: int := if t[0] == '-' then -magnitude else magnitude;
      if InInt32(v) then Some(v) else None
  }

  /**
   * `int.TryParse(s, NumberStyles.Integer, CultureInfo.InvariantCulture, out v)`:
   * leading white space, the signed digits, trailing white space, and then
   * any run of NUL characters, which the .NET number parser skips at the end.
   */
  function ParseInteger(s: string): (r: Option<int>)
    ensures r.Some? ==> InInt32(r.value)
    ensures r.Some? ==> !All(s, IsNumberWhite)
  {
    var z := TrailingCount(s, IsNul);
    var t := TrimWhere(s[..|s| - z], IsNumberWhite);
    var r := ParseSignedDigits(t);
    assert r.Some? ==> !All(s[..|s| - z], IsNumberWhite);
    assert forall i :: 0 <= i < |s| - z ==> s[..|s| - z][i] == s[i];
    r
  }

  function DigitChar(d: nat): (c: char)
    requires d < 10
    ensures IsDigit(c) && c as int - '0' as int == d
  {
    ('0' as int + d) as char
  }

  /** `n.ToString(CultureInfo.InvariantCulture)` for a natural number. */
  function NatToDecimal(n: nat): (r: string)
    ensures r != [] && All(r, IsDigit)
  {
    if n < 10 then [DigitChar(n)] else NatToDecimal(n / 10) + [DigitChar(n % 10)]
  }

  /** `n.ToString(CultureInfo.InvariantCulture)`. */
  function IntToDecimal(n: int): string {
    if n < 0 then "-" + NatToDecimal(-n) else NatToDecimal(n)
  }

  /** Decimal text starts with a sign or a digit and ends with a digit. */
  lemma IntToDecimalEdges(n: int)
    ensures var s := IntToDecimal(n);
      s != [] && (s[0] == '-' || IsDigit(s[0])) && IsDigit(s[|s| - 1])
  {
    var d := NatToDecimal(if n < 0 then -n else n);
    assert IsDigit(d[0]) && IsDigit(d[|d| - 1]);
    if n < 0 {
      assert IntToDecimal(n)[|IntToDecimal(n)| - 1] == d[|d| - 1];
    }
  }

  lemma {:induction false} NatToDecimalValue(n: nat)
    ensures DigitsValue(NatToDecimal(n)) == n
  {
    if n >= 10 {
      NatToDecimalValue(n / 10);
      var s := NatToDecimal(n);
      assert s[..|s| - 1] == NatToDecimal(n / 10);
    }
  }

  /** The decimal text of every 32-bit integer is a signed digit string of that value. */
  lemma SignedDigitsRoundTrip(n: int)
    requires InInt32(n)
    ensures ParseSignedDigits(IntToDecimal(n)) == Some(n)
  {
    var s := IntToDecimal(n);
    var d := NatToDecimal(if n < 0 then -n else n);
    NatToDecimalValue(if n < 0 then -n else n);
    assert IsDigit(d[0]);
    if n < 0 {
      assert s[1..] == d;
    } else {
      assert s == d;
    }
  }

  /**
   * The decimal text of every 32-bit integer, with white space before or
   * after it and NUL characters at the end, parses back to that integer.
   */
  lemma ParseIntegerPadded(n: int, w1: string, w2: string, z: string)
    requires InInt32(n)
    requires All(w1, IsNumberWhite) && All(w2, IsNumberWhite) && All(z, IsNul)
    ensures ParseInteger(w1 + IntToDecimal(n) + w2 + z) == Some(n)
  {
    var d := IntToDecimal(n);
    var body := w1 + d + w2;
    var s := body + z;
    IntToDecimalEdges(n);
    if w2 == [] {
      assert body[|body| - 1] == d[|d| - 1];
    } else {
      assert body[|body| - 1] == w2[|w2| - 1];
    }
    forall i | |s| - |z| <= i < |s|
      ensures IsNul(s[i])
    {
      assert s[i] == z[i - |body|];
    }
    assert s[|body| - 1] == body[|body| - 1];
    TrailingCountIs(s, IsNul, |z|);
    assert s[..|s| - |z|] == body;
    TrimWherePadded(w1, d, w2, IsNumberWhite);
    TrimWhereFixed(d, IsNumberWhite);
    SignedDigitsRoundTrip(n);
  }

  /** Every 32-bit integer's decimal text parses back to that integer. */
  lemma ParseIntegerRoundTrip(n: int)
    requires InInt32(n)
    ensures ParseInteger(IntToDecimal(n)) == Some(n)
  {
    var d := IntToDecimal(n);
    IntToDecimalEdges(n);
    TrailingCountIs(d, IsNul, 0);
    TrimWhereFixed(d, IsNumberWhite);
    ParseIntegerWithoutNuls(d, d);
    SignedDigitsRoundTrip(n);
  }

  /** Text that does not end in NUL parses as its number-trimmed form. */
  lemma ParseIntegerWithoutNuls(s: string, t: string)
    requires TrailingCount(s, IsNul) == 0 && TrimWhere(s, IsNumberWhite) == t
    ensures ParseInteger(s) == ParseSignedDigits(t)
  {
    assert s[..|s| - TrailingCount(s, IsNul)] == s;
  }

  /** Trailing NULs are skipped. */
  lemma ParseIntegerTrailingNul()
    ensures ParseInteger("12\0") == Some(12)
  {
    var s := "12\0";
    TrailingCountIs(s, IsNul, 1);
    assert s[..|s| - 1] == "12";
    TrimWhereFixed("12", IsNumberWhite);
    assert DigitsValue("12") == 12 by {
      assert "12"[..1] == "1";
      assert "1"[..0] == "";
    }
  }

  /** NUL is not white space: nothing may follow the trailing NULs. */
  lemma ParseIntegerNulThenSpace()
    ensures ParseInteger("12\0 ") == None
  {
    var s := "12\0 ";
    TrailingCountIs(s, IsNul, 0);
    assert s[..|s| - 0] == s;
    LeadingCountIs(s, IsNumberWhite, 0);
    TrailingCountIs(s, IsNumberWhite, 1);
    assert TrimWhere(s, IsNumberWhite) == "12\0";
    assert !IsDigit("12\0"[2]);
  }

  // ---------------------------------------------------------------------
  // bool.TryParse(s, out b)

  predicate IsWhiteSpaceOrNull(c: char) {
    IsWhiteSpace(c) || c == '\0'
  }

  /**
   * `bool.TryParse(s, out b)`: after trimming white space and NUL
   * characters, "True" or "False" in any letter case; null and anything
   * else fail.
   */
  function ParseBool(s: Option<string>): (r: Option<bool>)
    ensures s.None? ==> r.None?
    ensures r == Some(true) ==> EqualsIgnoreCase(TrimWhere(s.value, IsWhiteSpaceOrNull), "true")
    ensures r == Some(false) ==> EqualsIgnoreCase(TrimWhere(s.value, IsWhiteSpaceOrNull), "false")
    ensures s.Some? && r.None? ==>
              !EqualsIgnoreCase(TrimWhere(s.value, IsWhiteSpaceOrNull), "true")
              && !EqualsIgnoreCase(TrimWhere(s.value, IsWhiteSpaceOrNull), "false")
  {
    match s
    case None => None
    case Some(v) =>
      var t := TrimWhere(v, IsWhiteSpaceOrNull);
      if EqualsIgnoreCase(t, "true") then Some(true)
      else if EqualsIgnoreCase(t, "false") then Some(false)
      else None
  }
}
