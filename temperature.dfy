/**
 * The temperature special case of the converter: the guard that recognises the three
 * temperature symbols and the if/else ladder of affine formulas applied to the parsed value.
 * Values are exact reals, so the formulas can be compared with each other exactly.
 */
module Temperature {
  import opened Wrappers

  /** Membership of a unit symbol in {°C, °F, K}, as each half of the guard tests it. */
  predicate IsTemp(sym: string): (b: bool)
    ensures b <==> exists s: Scale :: s.Symbol() == sym
  {
    assert Celsius.Symbol() == "°C" && Fahrenheit.Symbol() == "°F" && Kelvin.Symbol() == "K";
    sym == "°C" || sym == "°F" || sym == "K"
  }

  /** The source's if/else ladder: six affine formulas, identity for everything else. */
  function TempConvert(from: string, to: string, v: real): (r: real)
    ensures IsTemp(from) && from == to ==> r == v
  {
    if from == "°C" && to == "°F" then (v * 9.0) / 5.0 + 32.0
    else if from == "°C" && to == "K" then v + 273.15
    else if from == "°F" && to == "°C" then ((v - 32.0) * 5.0) / 9.0
    else if from == "°F" && to == "K" then ((v - 32.0) * 5.0) / 9.0 + 273.15
    else if from == "K" && to == "°C" then v - 273.15
    else if from == "K" && to == "°F" then ((v - 273.15) * 9.0) / 5.0 + 32.0
    else v
  }

  /** The three temperature scales, as an independent reference for the ladder. */
  datatype Scale = Celsius | Fahrenheit | Kelvin {
    function Symbol(): string {
      match this
      case Celsius => "°C"
      case Fahrenheit => "°F"
      case Kelvin => "K"
    }
  }

  /** Classifies a unit symbol; defined exactly on the symbols the guard accepts. */
  function ScaleOf(sym: string): (r: Option<Scale>)
    ensures r.Some? <==> IsTemp(sym)
    ensures r.Some? ==> r.value.Symbol() == sym
  {
    if sym == "°C" then Some(Celsius)
    else if sym == "°F" then Some(Fahrenheit)
    else if sym == "K" then Some(Kelvin)
    else None
  }

  /** Reference definition: every scale is an affine image of the Kelvin scale. */
  function ToKelvin(s: Scale, v: real): (k: real) {
    match s
    case Celsius => v + 273.15
    case Fahrenheit => (v - 32.0) * 5.0 / 9.0 + 273.15
    case Kelvin => v
  }

  function FromKelvin(s: Scale, k: real): (v: real) {
    match s
    case Celsius => k - 273.15
    case Fahrenheit => (k - 273.15) * 9.0 / 5.0 + 32.0
    case Kelvin => k
  }

  lemma KelvinRoundTrip(s: Scale, v: real)
    ensures FromKelvin(s, ToKelvin(s, v)) == v
    ensures ToKelvin(s, FromKelvin(s, v)) == v
  {
    match s
    case Celsius =>
    case Fahrenheit =>
    case Kelvin =>
  }

  /** Each of the nine (from, to) cases of the ladder agrees with going through Kelvin. */
  lemma ViaKelvin(a: Scale, b: Scale, v: real)
    ensures TempConvert(a.Symbol(), b.Symbol(), v) == FromKelvin(b, ToKelvin(a, v))
  {
    match a
    case Celsius =>
    case Fahrenheit =>
    case Kelvin =>
  }

  /** Converting a to b and then b to c is the same as converting a to c directly. */
  lemma Compose(a: Scale, b: Scale, c: Scale, v: real)
    ensures TempConvert(b.Symbol(), c.Symbol(), TempConvert(a.Symbol(), b.Symbol(), v))
         == TempConvert(a.Symbol(), c.Symbol(), v)
  {
    var k := ToKelvin(a, v);
    ViaKelvin(a, b, v);
    ViaKelvin(b, c, FromKelvin(b, k));
    KelvinRoundTrip(b, k);
    ViaKelvin(a, c, v);
  }

  /** Converting there and back returns the original value. */
  lemma RoundTrip(a: Scale, b: Scale, v: real)
    ensures TempConvert(b.Symbol(), a.Symbol(), TempConvert(a.Symbol(), b.Symbol(), v)) == v
  {
    Compose(a, b, a, v);
  }

  /** The ladder at the level of the source's strings: composition for any three temperature symbols. */
  lemma ComposeSymbols(x: string, y: string, z: string, v: real)
    requires IsTemp(x) && IsTemp(y) && IsTemp(z)
    ensures TempConvert(y, z, TempConvert(x, y, v)) == TempConvert(x, z, v)
  {
    Compose(ScaleOf(x).value, ScaleOf(y).value, ScaleOf(z).value, v);
  }

  /** The three consistency facts between individual branches of the ladder. */
  lemma LadderConsistency(v: real)
    ensures TempConvert("°F", "K", v) == TempConvert("°C", "K", TempConvert("°F", "°C", v))
    ensures TempConvert("K", "°F", v) == TempConvert("°C", "°F", TempConvert("K", "°C", v))
    ensures TempConvert("°F", "°C", TempConvert("°C", "°F", v)) == v
  {
    Compose(Fahrenheit, Celsius, Kelvin, v);
    Compose(Kelvin, Celsius, Fahrenheit, v);
    RoundTrip(Celsius, Fahrenheit, v);
  }

  /** Every formula has a positive slope: a higher reading stays higher in the target scale. */
  lemma StrictlyIncreasing(a: Scale, b: Scale, v: real, w: real)
    requires v < w
    ensures TempConvert(a.Symbol(), b.Symbol(), v) < TempConvert(a.Symbol(), b.Symbol(), w)
  {
    ViaKelvin(a, b, v);
    ViaKelvin(a, b, w);
    assert ToKelvin(a, v) < ToKelvin(a, w);
  }
}
