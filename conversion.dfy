/**
 * The converter's `convert` handler as a pure function of the three state fields it reads:
 * the temperature guard, the formula ladder, the delegation of every other pair to the
 * unit library, and the collapse of every failure into one fixed message.
 */
module Conversion {
  import opened Wrappers
  import opened Temperature

  /** The one message every failure is reported with. */
  const NotPossible: string := "Conversion not possible"

  /**
   * The platform and library code `convert` calls, taken as parameters:
   * parseFloat (None is NaN), Number.prototype.toFixed(2), and the unit library's
   * unit(input, from).to(to).toString() (None is a thrown error).
   */
  datatype Host = Host(
    parseFloat: string -> Option<real>,
    toFixed2: real -> string,
    unitTo: (string, string, string) -> Option<string>)

  predicate EndsWith(s: string, suffix: string) {
    |suffix| <= |s| && s[|s| - |suffix|..] == suffix
  }

  lemma EndsWithAppend(s: string, suffix: string)
    ensures EndsWith(s + suffix, suffix)
  {
    assert (s + suffix)[|s|..] == suffix;
  }

  /** The temperature branch: NaN throws, otherwise the formatted value, a space and the target symbol. */
  function TemperatureResult(input: string, from: string, to: string, h: Host): (r: string)
    ensures h.parseFloat(input).None? ==> r == NotPossible
    ensures h.parseFloat(input).Some? ==> EndsWith(r, " " + to)
    ensures IsTemp(from) && IsTemp(to) && h.parseFloat(input).Some? ==>
      r == h.toFixed2(FromKelvin(ScaleOf(to).value, ToKelvin(ScaleOf(from).value, h.parseFloat(input).value))) + " " + to
  {
    match h.parseFloat(input)
    case None => NotPossible
    case Some(v) =>
      EndsWithAppend(h.toFixed2(TempConvert(from, to, v)), " " + to);
      h.toFixed2(TempConvert(from, to, v)) + " " + to
  }

  /** The generic branch: the library's rendering, or the failure message when it throws. */
  function GenericResult(input: string, from: string, to: string, h: Host): (r: string)
    ensures h.unitTo(input, from, to) == Some(r) || (h.unitTo(input, from, to).None? && r == NotPossible)
  {
    match h.unitTo(input, from, to)
    case None => NotPossible
    case Some(s) => s
  }

  /** The string `convert` stores in `result`: a success rendering or the failure message, never an error. */
  function ConvertText(input: string, from: string, to: string, h: Host): (r: string)
    ensures r == NotPossible || EndsWith(r, " " + to) || h.unitTo(input, from, to) == Some(r)
  {
    if IsTemp(from) && IsTemp(to) then TemperatureResult(input, from, to, h)
    else GenericResult(input, from, to, h)
  }

  /** Any pair that is not two temperature symbols, mixed pairs included, goes to the library. */
  lemma NonTemperatureGoesToLibrary(input: string, from: string, to: string, h: Host)
    requires !IsTemp(from) || !IsTemp(to)
    ensures h.unitTo(input, from, to).None? ==> ConvertText(input, from, to, h) == NotPossible
    ensures h.unitTo(input, from, to).Some? ==> ConvertText(input, from, to, h) == h.unitTo(input, from, to).value
  {
  }

  /** The library path never consults parseFloat, toFixed or the formulas. */
  lemma NonTemperatureIgnoresFormulas(input: string, from: string, to: string, h: Host, h': Host)
    requires !IsTemp(from) || !IsTemp(to)
    requires h.unitTo == h'.unitTo
    ensures ConvertText(input, from, to, h) == ConvertText(input, from, to, h')
  {
  }

  /** The temperature path never consults the library. */
  lemma TemperatureIgnoresLibrary(input: string, from: string, to: string, h: Host, h': Host)
    requires IsTemp(from) && IsTemp(to)
    requires h.parseFloat == h'.parseFloat && h.toFixed2 == h'.toFixed2
    ensures ConvertText(input, from, to, h) == ConvertText(input, from, to, h')
  {
  }

  /** On a temperature pair with a numeric input the result is the Kelvin-reference value, formatted, then " " and the target symbol. */
  lemma TemperatureSuccess(input: string, from: string, to: string, h: Host, v: real)
    requires IsTemp(from) && IsTemp(to)
    requires h.parseFloat(input) == Some(v)
    ensures ConvertText(input, from, to, h)
         == h.toFixed2(FromKelvin(ScaleOf(to).value, ToKelvin(ScaleOf(from).value, v))) + " " + to
    ensures EndsWith(ConvertText(input, from, to, h), " " + to)
  {
    ViaKelvin(ScaleOf(from).value, ScaleOf(to).value, v);
    EndsWithAppend(h.toFixed2(TempConvert(from, to, v)), " " + to);
  }

  /** A same-unit temperature conversion passes the parsed value through unchanged. */
  lemma SameUnitIsIdentity(input: string, u: string, h: Host, v: real)
    requires IsTemp(u)
    requires h.parseFloat(input) == Some(v)
    ensures ConvertText(input, u, u, h) == h.toFixed2(v) + " " + u
  {
  }

  /** On a temperature pair the failure message appears exactly when parseFloat yields NaN. */
  lemma TemperatureFailsExactlyOnNaN(input: string, from: string, to: string, h: Host)
    requires IsTemp(from) && IsTemp(to)
    ensures ConvertText(input, from, to, h) == NotPossible <==> h.parseFloat(input).None?
  {
    var r := ConvertText(input, from, to, h);
    if h.parseFloat(input).Some? {
      var f := h.toFixed2(TempConvert(from, to, h.parseFloat(input).value));
      assert r == f + " " + to;
      assert r[|r| - 1] == to[|to| - 1];
      assert to[|to| - 1] in {'C', 'F', 'K'};
      assert NotPossible[|NotPossible| - 1] == 'e';
    }
  }
  /** Three worked temperature conversions, stated up to the formatting of the number. */
  lemma WorkedExamples(h: Host)
    requires h.parseFloat("0") == Some(0.0)
    requires h.parseFloat("100") == Some(100.0)
    requires h.parseFloat("32") == Some(32.0)
    ensures ConvertText("0", "°C", "°F", h) == h.toFixed2(32.0) + " °F"
    ensures ConvertText("100", "°C", "K", h) == h.toFixed2(373.15) + " K"
    ensures ConvertText("32", "°F", "°C", h) == h.toFixed2(0.0) + " °C"
  {
  }
}
