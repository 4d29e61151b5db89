/**
 * The importer's field coercions (`DbStr`, `DbDt`, `DbDbl`, `TryInt`): each
 * turns an optional CSV field into an optional typed value and never fails.
 * `DbStr` is `Text.NullIfBlank`.
 */
module Coercion {
  import opened Wrappers
  import opened Text
  import opened Schema

  /**
   * The culture-specific parsers of the .NET runtime, as partial functions
   * on already trimmed text.
   */
  datatype Parsers = Parsers(
    dateEnUs: string -> Option<DateTime>,       // DateTime.TryParse(t, en-US, AssumeLocal)
    dateInvariant: string -> Option<DateTime>,  // DateTime.TryParse(t, InvariantCulture, AssumeLocal)
    numberInvariant: string -> Option<Number>,  // double.TryParse(t, NumberStyles.Any, InvariantCulture)
    numberEnUs: string -> Option<Number>        // double.TryParse(t, NumberStyles.Any, en-US)
  )

  /**
   * The shape of `DbDt` and `DbDbl`: blank input is null; otherwise the
   * trimmed text goes to `first`, and to `fallback` only when `first`
   * fails; when both fail the value is null.
   */
  function Coerce<T>(s: Option<string>, first: string -> Option<T>, fallback: string -> Option<T>): (r: Option<T>)
    ensures IsNullOrWhiteSpace(s) ==> r.None?
    ensures r.Some? ==> r == first(Trim(s.value)) || r == fallback(Trim(s.value))
    ensures !IsNullOrWhiteSpace(s) && first(Trim(s.value)).Some? ==> r == first(Trim(s.value))
    ensures r.None? <==> IsNullOrWhiteSpace(s)
                         || (first(Trim(s.value)).None? && fallback(Trim(s.value)).None?)
  {
    if IsNullOrWhiteSpace(s) then None
    else
      var t := Trim(s.value);
      match first(t)
      case Some(v) => Some(v)
      case None => fallback(t)
  }

  /** White space around a field never changes what it coerces to. */
  lemma CoerceIgnoresPadding<T>(w1: string, y: string, w2: string,
                                first: string -> Option<T>, fallback: string -> Option<T>)
    requires All(w1, IsWhiteSpace) && All(w2, IsWhiteSpace)
    ensures Coerce(Some(w1 + y + w2), first, fallback) == Coerce(Some(y), first, fallback)
  {
    TrimWherePadded(w1, y, w2, IsWhiteSpace);
  }

  /** `DbDt`: en-US first, then the invariant culture. */
  function DbDt(s: Option<string>, p: Parsers): Option<DateTime> {
    Coerce(s, p.dateEnUs, p.dateInvariant)
  }

  /** `DbDbl`: the invariant culture first, then en-US. */
  function DbDbl(s: Option<string>, p: Parsers): Option<Number> {
    Coerce(s, p.numberInvariant, p.numberEnUs)
  }

  /**
   * `TryInt`: blank input fails; otherwise the trimmed text is parsed as a
   * 32-bit integer with an optional sign, so negative ids are accepted.
   */
  function TryInt(s: Option<string>): (r: Option<int>)
    ensures r.Some? ==> !IsNullOrWhiteSpace(s) && InInt32(r.value)
  {
    if IsNullOrWhiteSpace(s) then None else ParseInteger(Trim(s.value))
  }

  /** Decimal text is neither blank nor padded. */
  lemma DecimalIsTrimmed(n: int)
    ensures !IsNullOrWhiteSpace(Some(IntToDecimal(n)))
    ensures Trim(IntToDecimal(n)) == IntToDecimal(n)
  {
    var s := IntToDecimal(n);
    IntToDecimalEdges(n);
    assert !IsWhiteSpace(s[0]) && !IsWhiteSpace(s[|s| - 1]);
    TrimWhereFixed(s, IsWhiteSpace);
  }

  /** The decimal text of every 32-bit integer, negative ones included, is a valid id. */
  lemma TryIntRoundTrip(n: int)
    requires InInt32(n)
    ensures TryInt(Some(IntToDecimal(n))) == Some(n)
  {
    DecimalIsTrimmed(n);
    ParseIntegerRoundTrip(n);
  }
}
