/** Request bodies and query strings as the handlers receive them, and the
    decimal-numeral reading that Joi applies to numeric strings (query
    parameters always arrive as strings). */
module Json {
  import opened Base

  /** A JSON value as body-parser or Express's query parser produces it.
      Arrays and nested objects are kept opaque: no schema here accepts them. */
  datatype Value = Str(s: string) | Num(n: real) | Bool(b: bool) | Null | Composite

  /** A request body or query object. Key order is not modelled. */
  type Object = map<string, Value>

  /** The string under `key`, or "" when the key is absent or holds some
      other kind of value. */
  function TextOf(o: Object, key: string): (s: string)
    ensures key in o && o[key].Str? ==> s == o[key].s
  {
    if key in o && o[key].Str? then o[key].s else ""
  }

  /** `obj.key` for a column Prisma may leave untouched: `None` stands for
      `undefined`, i.e. the key is absent. */
  function OptTextOf(o: Object, key: string): (s: Option<string>)
    ensures s.Some? <==> key in o && o[key].Str?
    ensures s.Some? ==> s.value == o[key].s
  {
    if key in o && o[key].Str? then Some(o[key].s) else None
  }

  predicate IsDigit(c: char) { '0' <= c <= '9' }

  predicate AllDigits(s: string) {
    forall i :: 0 <= i < |s| ==> IsDigit(s[i])
  }

  function DigitValue(c: char): (d: nat)
    requires IsDigit(c)
    ensures d < 10
  {
    c as int - '0' as int
  }

  function DigitChar(d: nat): (c: char)
    requires d < 10
    ensures IsDigit(c) && DigitValue(c) == d
  {
    ('0' as int + d) as char
  }

  /** The value of a string of decimal digits, most significant first. */
  function NatOf(s: string): nat
    requires AllDigits(s)
  {
    if s == [] then 0 else NatOf(s[..|s| - 1]) * 10 + DigitValue(s[|s| - 1])
  }

  function Pow10(k: nat): (p: nat)
    ensures p >= 1
  {
    if k == 0 then 1 else 10 * Pow10(k - 1)
  }

  /** The index of the first '.', or |s| when there is none. */
  function DotIndex(s: string): (k: nat)
    ensures k <= |s|
    ensures k < |s| ==> s[k] == '.'
    ensures forall j :: 0 <= j < k ==> s[j] != '.'
  {
    if s == [] then 0
    else if s[0] == '.' then 0
    else 1 + DotIndex(s[1..])
  }

  /** An unsigned numeral `digits` or `digits.digits`. */
  function ParseUnsigned(s: string): (r: Option<real>)
    ensures r.Some? ==> r.value >= 0.0
  {
    var k := DotIndex(s);
    var whole := s[..k];
    if whole == [] || !AllDigits(whole) then None
    else if k == |s| then Some(NatOf(whole) as real)
    else
      var frac := s[k + 1..];
      if frac == [] || !AllDigits(frac) then None
      else Some(NatOf(whole) as real + NatOf(frac) as real / Pow10(|frac|) as real)
  }

  /** Joi's string-to-number conversion, restricted to plain decimal
      numerals with an optional leading minus sign. */
  function ParseDecimal(s: string): (r: Option<real>)
    ensures |s| > 0 && s[0] == '-' ==> r == (if ParseUnsigned(s[1..]).Some? then Some(-ParseUnsigned(s[1..]).value) else None)
    ensures (|s| == 0 || s[0] != '-') ==> r == ParseUnsigned(s)
  {
    if |s| > 0 && s[0] == '-' then
      match ParseUnsigned(s[1..])
      case Some(v) => Some(-v)
      case None => None
    else ParseUnsigned(s)
  }

  /** The decimal rendering of a natural number (what a client puts in
      `?page=2`). */
  function ShowNat(n: nat): (s: string)
    ensures |s| > 0 && AllDigits(s)
  {
    if n < 10 then [DigitChar(n)] else ShowNat(n / 10) + [DigitChar(n % 10)]
  }

  lemma {:induction false} ShowNatValue(n: nat)
    ensures NatOf(ShowNat(n)) == n
  {
    var s := ShowNat(n);
    if n < 10 {
      assert s[..|s| - 1] == [];
    } else {
      ShowNatValue(n / 10);
      assert s[..|s| - 1] == ShowNat(n / 10);
    }
  }

  lemma DigitsHaveNoDot(s: string)
    requires AllDigits(s)
    ensures DotIndex(s) == |s|
  {
  }

  /** Rendering a page number and reading it back as Joi does gives the
      number itself: a query `?page=<n>` is read as n. */
  lemma ParseShowNat(n: nat)
    ensures ParseDecimal(ShowNat(n)) == Some(n as real)
  {
    var s := ShowNat(n);
    DigitsHaveNoDot(s);
    assert s[..|s|] == s;
    ShowNatValue(n);
    assert IsDigit(s[0]);
  }
}
