/** Price, discount and ASIN extraction from scraped text (src/extractors/extractor.js). */
module Extractor {
  import opened Wrappers
  import opened Text
  import opened Sequences

  // ---------------------------------------------------------------------------
  // calculateDiscount
  // ---------------------------------------------------------------------------

  /** `parseFloat(x.toFixed(2))` for a non-negative x: round half up to two decimals. */
  function Round2(x: real): real {
    ((x * 100.0 + 0.5).Floor as real) / 100.0
  }

  lemma Round2Error(x: real)
    ensures x - 0.005 < Round2(x) <= x + 0.005
  {
  }

  lemma Round2Range(x: real, lo: int, hi: int)
    requires lo as real <= x <= hi as real
    ensures lo as real <= Round2(x) <= hi as real
  {
    var f := (x * 100.0 + 0.5).Floor;
    assert lo * 100 <= f <= hi * 100;
  }

  lemma FractionBelowOne(n: real, d: real)
    requires 0.0 < n < d
    ensures 0.0 < n / d < 1.0
  {
    var q := n / d;
    assert q * d == n;
    assert q >= 1.0 ==> q * d >= d;
  }

  /** JavaScript truthiness of a number that may be null: null and 0 are falsy. */
  predicate Truthy(x: Option<real>) { x.Some? && x.value != 0.0 }

  /** The percentage drop from `oldPrice` to `currentPrice`, or 0 when it is not a drop. */
  function CalculateDiscount(oldPrice: Option<real>, currentPrice: Option<real>): real {
    if !Truthy(oldPrice) || !Truthy(currentPrice) || oldPrice.value <= currentPrice.value then 0.0
    else Round2((oldPrice.value - currentPrice.value) / oldPrice.value * 100.0)
  }

  /** The zero fallback: a missing or zero price, or no drop, gives a discount of 0. */
  lemma DiscountZeroFallback(oldPrice: Option<real>, currentPrice: Option<real>)
    requires oldPrice.None? || currentPrice.None? || oldPrice.value == 0.0 || currentPrice.value == 0.0
             || oldPrice.value <= currentPrice.value
    ensures CalculateDiscount(oldPrice, currentPrice) == 0.0
  {
  }

  /** For positive prices with a real drop, the discount is the rounded percentage and lies in [0, 100]. */
  lemma DiscountOfDrop(oldPrice: real, currentPrice: real)
    requires 0.0 < currentPrice < oldPrice
    ensures var d := CalculateDiscount(Some(oldPrice), Some(currentPrice));
            var exact := (oldPrice - currentPrice) / oldPrice * 100.0;
            && d == Round2(exact)
            && 0.0 <= d <= 100.0
            && exact - 0.005 < d <= exact + 0.005
  {
    var exact := (oldPrice - currentPrice) / oldPrice * 100.0;
    FractionBelowOne(oldPrice - currentPrice, oldPrice);
    Round2Range(exact, 0, 100);
    Round2Error(exact);
  }

  // ---------------------------------------------------------------------------
  // extractAsin
  // ---------------------------------------------------------------------------

  const DpSegment := "/dp/"
  const GpSegment := "/gp/product/"
  const AsinLength := 10

  /** An ASIN as the extractor's pattern captures it: ten characters of `[A-Z0-9]`. */
  predicate IsAsin(s: string) {
    |s| == AsinLength && forall i :: 0 <= i < |s| ==> IsAsinChar(s[i])
  }

  /** The regular expression `segment([A-Z0-9]{10})` matches `url` at index `i`. */
  predicate MatchesAt(url: string, segment: string, i: nat) {
    && OccursAt(url, segment, i)
    && i + |segment| + AsinLength <= |url|
    && IsAsin(url[i + |segment|..i + |segment| + AsinLength])
  }

  /** The leftmost index at or after `from` where the pattern matches, as `String.prototype.match` finds it. */
  function FirstMatch(url: string, segment: string, from: nat): (r: Option<nat>)
    decreases |url| - from
    ensures r.Some? ==> from <= r.value && MatchesAt(url, segment, r.value)
    ensures r.Some? ==> forall j: nat :: from <= j < r.value ==> !MatchesAt(url, segment, j)
    ensures r.None? ==> forall j: nat :: from <= j ==> !MatchesAt(url, segment, j)
  {
    if |url| < from + |segment| + AsinLength then None
    else if MatchesAt(url, segment, from) then Some(from)
    else FirstMatch(url, segment, from + 1)
  }

  /** The capture group of the match at `i`. */
  function CaptureAt(url: string, segment: string, i: nat): string
    requires MatchesAt(url, segment, i)
  {
    url[i + |segment|..i + |segment| + AsinLength]
  }

  /** The ASIN in a product URL: a `/dp/` match first, else a `/gp/product/` match, else null. */
  function ExtractAsin(url: string): (r: Option<string>)
    ensures r.Some? ==> IsAsin(r.value)
  {
    match FirstMatch(url, DpSegment, 0)
    case Some(i) => Some(CaptureAt(url, DpSegment, i))
    case None =>
      match FirstMatch(url, GpSegment, 0)
      case Some(i) => Some(CaptureAt(url, GpSegment, i))
      case None => None
  }

  /** The extractor finds an ASIN exactly when one of the two patterns matches somewhere, and it
      returns the capture of the leftmost `/dp/` match, or, when there is none, of the leftmost
      `/gp/product/` match. */
  lemma ExtractAsinLeftmost(url: string)
    ensures ExtractAsin(url).Some? <==>
      (exists j: nat :: MatchesAt(url, DpSegment, j)) || (exists j: nat :: MatchesAt(url, GpSegment, j))
    ensures forall j: nat :: MatchesAt(url, DpSegment, j) && (forall k: nat :: k < j ==> !MatchesAt(url, DpSegment, k))
              ==> ExtractAsin(url) == Some(CaptureAt(url, DpSegment, j))
    ensures (forall j: nat :: !MatchesAt(url, DpSegment, j))
              ==> forall j: nat :: MatchesAt(url, GpSegment, j) && (forall k: nat :: k < j ==> !MatchesAt(url, GpSegment, k))
                    ==> ExtractAsin(url) == Some(CaptureAt(url, GpSegment, j))
  {
    var dp := FirstMatch(url, DpSegment, 0);
    var gp := FirstMatch(url, GpSegment, 0);
    if dp.Some? {
      assert ExtractAsin(url) == Some(CaptureAt(url, DpSegment, dp.value));
    } else if gp.Some? {
      assert ExtractAsin(url) == Some(CaptureAt(url, GpSegment, gp.value));
    } else {
      assert ExtractAsin(url) == None;
    }
  }

  // ---------------------------------------------------------------------------
  // parsePrice
  // ---------------------------------------------------------------------------

  predicate IsDigitOrComma(c: char) { IsDigit(c) || c == ',' }

  /** `priceStr.replace(/[^\d,]/g, '')`. */
  function DigitsAndCommas(s: string): (r: string)
    ensures |r| <= |s|
    ensures forall i :: 0 <= i < |r| ==> IsDigitOrComma(r[i])
  {
    Filter(s, IsDigitOrComma)
  }

  /** `s.replace(',', '.')`: only the first comma becomes a decimal point. */
  function FirstCommaToPoint(s: string): (r: string)
    ensures |r| == |s|
  {
    if s == [] then []
    else if s[0] == ',' then ['.'] + s[1..]
    else [s[0]] + FirstCommaToPoint(s[1..])
  }

  /** The longest prefix of `s` made of digits. */
  function DigitRun(s: string): (r: string)
    ensures |r| <= |s| && AllDigits(r) && r == s[..|r|]
    ensures |r| < |s| ==> !IsDigit(s[|r|])
  {
    if s != [] && IsDigit(s[0]) then [s[0]] + DigitRun(s[1..]) else []
  }

  function DigitValue(c: char): nat
    requires IsDigit(c)
  {
    c as int - '0' as int
  }

  /** The natural number written by a string of decimal digits. */
  function NumberValue(ds: string): nat
    requires AllDigits(ds)
  {
    if ds == [] then 0 else 10 * NumberValue(ds[..|ds| - 1]) + DigitValue(ds[|ds| - 1])
  }

  function Pow10(n: nat): (r: nat)
    ensures r >= 1
  {
    if n == 0 then 1 else 10 * Pow10(n - 1)
  }

  /** The value of a decimal literal with integer digits `whole` and fraction digits `frac`. */
  function DecimalValue(whole: string, frac: string): (r: real)
    requires AllDigits(whole) && AllDigits(frac)
    ensures r >= 0.0
  {
    NumberValue(whole) as real + NumberValue(frac) as real / Pow10(|frac|) as real
  }

  /** `parseFloat` on a string of digits, points and commas: it reads digits, an optional point and
      more digits, and stops at the first other character; with no digit read it gives NaN (None). */
  function ParseFloatPrefix(s: string): (r: Option<real>)
    ensures r.Some? ==> r.value >= 0.0
  {
    var whole := DigitRun(s);
    var rest := s[|whole|..];
    if rest != [] && rest[0] == '.' then
      var frac := DigitRun(rest[1..]);
      if whole == [] && frac == [] then None else Some(DecimalValue(whole, frac))
    else if whole == [] then None
    else Some(DecimalValue(whole, []))
  }

  /** The cleaned price text: digits and commas only, the first comma turned into a point. */
  function CleanPrice(s: string): string {
    FirstCommaToPoint(DigitsAndCommas(s))
  }

  /** `parsePrice`: null for a missing or empty string; otherwise the parsed number, with 0 and NaN
      both turned into null by `|| null`. */
  function ParsePrice(priceStr: Option<string>): (r: Option<real>)
    ensures priceStr.None? || priceStr.value == "" ==> r.None?
    ensures r.Some? ==> r.value > 0.0
  {
    if priceStr.None? || priceStr.value == "" then None
    else
      var v := ParseFloatPrefix(CleanPrice(priceStr.value));
      if v.None? || v.value == 0.0 then None else v
  }

  lemma {:induction false} FirstCommaToPointNoComma(s: string)
    requires forall i :: 0 <= i < |s| ==> s[i] != ','
    ensures FirstCommaToPoint(s) == s
  {
    if s != [] { FirstCommaToPointNoComma(s[1..]); }
  }

  lemma {:induction false} FirstCommaToPointAfter(a: string, b: string)
    requires forall i :: 0 <= i < |a| ==> a[i] != ','
    ensures FirstCommaToPoint(a + "," + b) == a + "." + b
  {
    if a == [] {
      assert a + "," + b == [','] + b;
    } else {
      assert (a + "," + b)[1..] == a[1..] + "," + b;
      FirstCommaToPointAfter(a[1..], b);
    }
  }

  lemma {:induction false} DigitRunStopsAt(a: string, b: string)
    requires AllDigits(a)
    requires b == [] || !IsDigit(b[0])
    ensures DigitRun(a + b) == a
  {
    if a == [] {
      assert a + b == b;
    } else {
      assert (a + b)[1..] == a[1..] + b;
      DigitRunStopsAt(a[1..], b);
    }
  }

  lemma ParseFloatDecimal(whole: string, frac: string, rest: string)
    requires AllDigits(whole) && AllDigits(frac)
    requires rest == [] || rest[0] == ','
    requires whole != [] || frac != []
    ensures ParseFloatPrefix(whole + "." + frac + rest) == Some(DecimalValue(whole, frac))
  {
    var t := whole + "." + frac + rest;
    assert t == whole + ("." + frac + rest);
    DigitRunStopsAt(whole, "." + frac + rest);
    assert t[|whole|..] == "." + frac + rest;
    assert t[|whole|..][1..] == frac + rest;
    DigitRunStopsAt(frac, rest);
  }

  lemma ParseFloatWhole(whole: string)
    requires AllDigits(whole) && whole != []
    ensures ParseFloatPrefix(whole) == Some(NumberValue(whole) as real)
  {
    DigitRunStopsAt(whole, []);
    assert whole + [] == whole;
  }

  lemma ParsePriceOfCleaned(s: string, v: real)
    requires ParseFloatPrefix(CleanPrice(s)) == Some(v) && v != 0.0
    ensures ParsePrice(Some(s)) == Some(v)
  {
    assert |CleanPrice(s)| <= |s|;
  }

  lemma CleanPriceDecimal(s: string, whole: string, frac: string, rest: string)
    requires DigitsAndCommas(s) == whole + "," + frac + rest
    requires AllDigits(whole)
    ensures CleanPrice(s) == whole + "." + frac + rest
  {
    FirstCommaToPointAfter(whole, frac + rest);
    assert whole + "," + frac + rest == whole + "," + (frac + rest);
    assert whole + "." + (frac + rest) == whole + "." + frac + rest;
  }

  /** A price written `digits,digits` (after the non-digit, non-comma characters are dropped) reads as
      the decimal number with the first comma as the decimal point; anything from a second comma on
      is ignored. */
  lemma ParsePriceDecimal(s: string, whole: string, frac: string, rest: string)
    requires DigitsAndCommas(s) == whole + "," + frac + rest
    requires AllDigits(whole) && AllDigits(frac)
    requires rest == [] || rest[0] == ','
    requires DecimalValue(whole, frac) != 0.0
    ensures ParsePrice(Some(s)) == Some(DecimalValue(whole, frac))
  {
    CleanPriceDecimal(s, whole, frac, rest);
    ParseFloatDecimal(whole, frac, rest);
    ParsePriceOfCleaned(s, DecimalValue(whole, frac));
  }

  /** A price with no comma at all reads as the whole number its digits spell: the `.` of a
      thousands separator is dropped, never read as a decimal point. */
  lemma ParsePriceWhole(s: string, whole: string)
    requires DigitsAndCommas(s) == whole && AllDigits(whole)
    requires NumberValue(whole) != 0
    ensures ParsePrice(Some(s)) == Some(NumberValue(whole) as real)
  {
    FirstCommaToPointNoComma(whole);
    ParseFloatWhole(whole);
    ParsePriceOfCleaned(s, NumberValue(whole) as real);
  }

  /** Cleaning `prefix t.hhh,cc`, where the prefix has no digit and no comma, leaves `thhh,cc`. */
  lemma GroupedDigits(prefix: string, thousands: string, hundreds: string, cents: string)
    requires forall i :: 0 <= i < |prefix| ==> !IsDigitOrComma(prefix[i])
    requires AllDigits(thousands) && AllDigits(hundreds) && AllDigits(cents)
    ensures DigitsAndCommas(prefix + thousands + "." + hundreds + "," + cents)
      == thousands + hundreds + "," + cents
  {
    FilterNone(prefix, IsDigitOrComma);
    FilterAll(thousands, IsDigitOrComma);
    FilterAll(hundreds, IsDigitOrComma);
    FilterAll(cents, IsDigitOrComma);
    assert DigitsAndCommas(".") == [] && DigitsAndCommas(",") == ",";
    var s1 := prefix + thousands;
    FilterAppend(prefix, thousands, IsDigitOrComma);
    assert [] + thousands == thousands;
    assert DigitsAndCommas(s1) == thousands;
    var s2 := s1 + ".";
    FilterAppend(s1, ".", IsDigitOrComma);
    assert thousands + [] == thousands;
    assert DigitsAndCommas(s2) == thousands;
    var s3 := s2 + hundreds;
    FilterAppend(s2, hundreds, IsDigitOrComma);
    assert DigitsAndCommas(s3) == thousands + hundreds;
    var s4 := s3 + ",";
    FilterAppend(s3, ",", IsDigitOrComma);
    assert DigitsAndCommas(s4) == thousands + hundreds + ",";
    FilterAppend(s4, cents, IsDigitOrComma);
    assert DigitsAndCommas(s4 + cents) == thousands + hundreds + "," + cents;
  }

  /** The store's price format `R$ t.hhh,cc`: the thousands point is dropped and the comma is the
      decimal point. */
  lemma ParsePriceBrazilian(thousands: string, hundreds: string, cents: string)
    requires AllDigits(thousands) && AllDigits(hundreds) && AllDigits(cents)
    requires DecimalValue(thousands + hundreds, cents) != 0.0
    ensures ParsePrice(Some("R$ " + thousands + "." + hundreds + "," + cents))
      == Some(DecimalValue(thousands + hundreds, cents))
  {
    var s := "R$ " + thousands + "." + hundreds + "," + cents;
    GroupedDigits("R$ ", thousands, hundreds, cents);
    assert DigitsAndCommas(s) == (thousands + hundreds) + "," + cents + "";
    assert AllDigits(thousands + hundreds);
    ParsePriceDecimal(s, thousands + hundreds, cents, "");
  }

  lemma BrazilianExampleValue()
    ensures DecimalValue("1234", "56") == 1234.56
  {
    assert "1234"[..3] == "123" && "123"[..2] == "12" && "12"[..1] == "1" && "1"[..0] == "";
    assert NumberValue("1234") == 1234;
    assert "56"[..1] == "5" && "5"[..0] == "";
    assert NumberValue("56") == 56;
  }

  /** The Brazilian format: "R$ 1.234,56" is 1234.56. */
  lemma ParsePriceBrazilianExample(price: string)
    requires price == "R$ 1.234,56"
    ensures ParsePrice(Some(price)) == Some(1234.56)
  {
    var thousands, hundreds, cents := "1", "234", "56";
    BrazilianExampleValue();
    assert thousands + hundreds == "1234";
    ParsePriceBrazilian(thousands, hundreds, cents);
    assert "R$ " + thousands + "." + hundreds + "," + cents == price;
  }
}
