/**
 * Width and height: each query value is parsed only when it is a non-empty
 * string; a missing value, NaN or 0 counts as absent (JavaScript falsiness),
 * and one side missing takes the other's value, as for a square.
 */
module Dimensions {
  import opened Wrappers
  import opened JsNumber

  /** `p ? parseInt(p) : null`: a missing or empty parameter is not parsed at all. */
  function ParsedParam(p: Option<string>): (n: Option<ParsedInt>)
    ensures n.None? <==> p.None? || p.value == ""
    ensures n.Some? ==> n.value == ParseInt(p.value)
  {
    if p.Some? && p.value != "" then Some(ParseInt(p.value)) else None
  }

  /** JavaScript truthiness of a `null | number` local: null, NaN and 0 are all absent. */
  predicate Present(n: Option<ParsedInt>)
    ensures Present(n) <==> n.Some? && n.value !in {NaN, Int(0)}
  {
    n.Some? && n.value.Int? && n.value.value != 0
  }

  datatype Size = Size(width: int, height: int)

  /**
   * The `if / else if` chain over `width` and `height`: None when neither is
   * present (400), otherwise both sides, with a missing one copied from the other.
   */
  function Reconcile(width: Option<ParsedInt>, height: Option<ParsedInt>): (size: Option<Size>)
    ensures size.None? <==> !Present(width) && !Present(height)
    ensures size.Some? ==> size.value.width != 0 && size.value.height != 0
    ensures Present(width) ==> size.Some? && size.value.width == width.value.value
    ensures Present(height) ==> size.Some? && size.value.height == height.value.value
    ensures Present(width) && !Present(height) ==> size.Some? && size.value.height == size.value.width
    ensures !Present(width) && Present(height) ==> size.Some? && size.value.width == size.value.height
  {
    if !Present(width) && !Present(height) then None
    else if !Present(width) then Some(Size(height.value.value, height.value.value))
    else if !Present(height) then Some(Size(width.value.value, width.value.value))
    else Some(Size(width.value.value, height.value.value))
  }

  /** A positive decimal numeral is present and read as its value, with or without trailing text. */
  lemma NumeralPresent(n: nat, rest: string)
    requires n > 0
    requires rest == [] || !IsDecimalDigit(rest[0])
    ensures Present(ParsedParam(Some(Decimal(n) + rest)))
    ensures ParsedParam(Some(Decimal(n) + rest)) == Some(Int(n))
  {
    ParseIntDecimal(n, rest);
  }

  /** Zero and text with no digit are absent, like a missing parameter. */
  lemma ZeroOrNaNAbsent(p: string)
    requires p == "0" || forall i :: 0 <= i < |p| ==> !IsDecimalDigit(p[i])
    ensures !Present(ParsedParam(Some(p)))
  {
    if p == "0" {
      assert p == Decimal(0) + "";
      ParseIntDecimal(0, "");
    } else {
      ParseIntNoDigits(p);
    }
  }
}
