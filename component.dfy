/**
 * The converter component's state (`inputValue`, `fromUnit`, `toUnit`, `result`) and the
 * handlers that update it. `State` is the value of the four fields; each handler is first
 * given as a transition on `State`, and the class `Calculator` updates its fields in place
 * and promises that its new state is that transition of its old one.
 */
module Component {
  import opened Wrappers
  import opened Conversion
  import opened Temperature

  datatype State = State(inputValue: string, fromUnit: string, toUnit: string, result: Option<string>)

  /** The initial values given to the four `useState` hooks. */
  const Initial: State := State("", "m", "cm", None)

  function Max(x: int, y: int): int { if x < y then y else x }
  function Min(x: int, y: int): int { if x < y then x else y }

  /** ECMAScript String.prototype.slice: negative positions count from the end, both are clamped. */
  function JsSlice(s: string, start: int, end: int): (r: string)
    ensures |r| <= |s|
    ensures 0 <= start <= end <= |s| ==> r == s[start..end]
    ensures start == 0 && end < 0 && -end <= |s| ==> r == s[..|s| + end]
    ensures start == 0 && end < 0 && -end > |s| ==> r == ""
  {
    var from := if start < 0 then Max(|s| + start, 0) else Min(start, |s|);
    var to := if end < 0 then Max(|s| + end, 0) else Min(end, |s|);
    if from < to then s[from..to] else ""
  }

  /** `slice(0, -1)` removes exactly the last character, and leaves the empty string empty. */
  lemma SliceDropsLast(s: string)
    ensures |s| == 0 ==> JsSlice(s, 0, -1) == ""
    ensures |s| > 0 ==> JsSlice(s, 0, -1) + [s[|s| - 1]] == s
  {
  }

  /** The keypad handler: the old input stays a prefix, followed by the key's label; nothing else changes. */
  function NumberClicked(s: State, number: string): (t: State)
    ensures |t.inputValue| == |s.inputValue| + |number|
    ensures t.inputValue[..|s.inputValue|] == s.inputValue && t.inputValue[|s.inputValue|..] == number
    ensures t.(inputValue := s.inputValue) == s
  {
    s.(inputValue := s.inputValue + number)
  }

  /** The Delete handler: the new input is the old one less its last character, if any; nothing else changes. */
  function Deleted(s: State): (t: State)
    ensures |t.inputValue| == Max(|s.inputValue| - 1, 0)
    ensures t.inputValue == s.inputValue[..|t.inputValue|]
    ensures t.(inputValue := s.inputValue) == s
  {
    s.(inputValue := JsSlice(s.inputValue, 0, -1))
  }

  /** The Clear handler: empty input, no result, both units kept. */
  function Cleared(s: State): (t: State)
    ensures t.inputValue == "" && t.result.None?
    ensures t.fromUnit == s.fromUnit && t.toUnit == s.toUnit
  {
    s.(inputValue := "", result := None)
  }

  /** The Convert handler: a result is always present afterwards, and only the result changes. */
  function Converted(s: State, h: Host): (t: State)
    ensures t.result.Some?
    ensures t.(result := s.result) == s
    ensures t.result.value == NotPossible || EndsWith(t.result.value, " " + s.toUnit)
         || h.unitTo(s.inputValue, s.fromUnit, s.toUnit) == t.result
  {
    s.(result := Some(ConvertText(s.inputValue, s.fromUnit, s.toUnit, h)))
  }

  /** A keypad press followed by Delete gives back the state before the press. */
  lemma DeleteUndoesNumberClick(s: State, number: string)
    requires |number| == 1
    ensures Deleted(NumberClicked(s, number)) == s
  {
    var t := s.inputValue + number;
    assert JsSlice(t, 0, -1) == t[..|s.inputValue|];
    assert t[..|s.inputValue|] == s.inputValue;
  }

  /** Delete never grows the input and changes nothing but the input. */
  lemma DeleteShortens(s: State)
    ensures |Deleted(s).inputValue| == if |s.inputValue| == 0 then 0 else |s.inputValue| - 1
    ensures Deleted(s).inputValue == s.inputValue[..|Deleted(s).inputValue|]
    ensures Deleted(s).(inputValue := s.inputValue) == s
  {
  }

  /** Clear empties the input and the result, keeps both units, and is idempotent. */
  lemma ClearResets(s: State)
    ensures Cleared(s).inputValue == "" && Cleared(s).result.None?
    ensures Cleared(s).fromUnit == s.fromUnit && Cleared(s).toUnit == s.toUnit
    ensures Cleared(Cleared(s)) == Cleared(s)
  {
  }

  /** Convert always leaves a message behind, keeps the input and units, and repeating it changes nothing. */
  lemma ConvertSettles(s: State, h: Host)
    ensures Converted(s, h).result.Some?
    ensures Converted(s, h).(result := s.result) == s
    ensures Converted(Converted(s, h), h) == Converted(s, h)
    ensures var r := Converted(s, h).result.value;
            r == NotPossible || EndsWith(r, " " + s.toUnit) || h.unitTo(s.inputValue, s.fromUnit, s.toUnit) == Some(r)
  {
  }

  /** Clear after Convert hides the message again; the units chosen survive. */
  lemma ClearAfterConvert(s: State, h: Host)
    ensures Cleared(Converted(s, h)) == Cleared(s)
  {
  }

  class Calculator {
    var inputValue: string
    var fromUnit: string
    var toUnit: string
    var result: Option<string>

    function Snapshot(): State
      reads this
    {
      State(inputValue, fromUnit, toUnit, result)
    }

    constructor ()
      ensures Snapshot() == Initial
    {
      inputValue, fromUnit, toUnit, result := "", "m", "cm", None;
    }

    /** A keypad button appends its label to the input. */
    method HandleNumberClick(number: string)
      modifies this`inputValue
      ensures Snapshot() == NumberClicked(old(Snapshot()), number)
      ensures inputValue == old(inputValue) + number
    {
      inputValue := inputValue + number;
    }

    method HandleClear()
      modifies this`inputValue, this`result
      ensures Snapshot() == Cleared(old(Snapshot()))
      ensures inputValue == "" && result == None
    {
      inputValue := "";
      result := None;
    }

    method HandleDelete()
      modifies this`inputValue
      ensures Snapshot() == Deleted(old(Snapshot()))
      ensures old(inputValue) == "" ==> inputValue == ""
      ensures old(inputValue) != "" ==> inputValue + [old(inputValue)[|old(inputValue)| - 1]] == old(inputValue)
    {
      SliceDropsLast(inputValue);
      inputValue := JsSlice(inputValue, 0, -1);
    }

    /** Runs the conversion on the current fields and stores its message; only `result` changes. */
    method Convert(h: Host)
      modifies this`result
      ensures Snapshot() == Converted(old(Snapshot()), h)
      ensures result.Some?
      ensures result.value == NotPossible || EndsWith(result.value, " " + toUnit)
           || h.unitTo(inputValue, fromUnit, toUnit) == result
    {
      result := Some(ConvertText(inputValue, fromUnit, toUnit, h));
    }

    /** The text box's change handler replaces the input. */
    method EditInput(text: string)
      modifies this`inputValue
      ensures Snapshot() == old(Snapshot()).(inputValue := text)
    {
      inputValue := text;
    }

    /** The source unit selector's change handler. */
    method SelectFromUnit(symbol: string)
      modifies this`fromUnit
      ensures Snapshot() == old(Snapshot()).(fromUnit := symbol)
    {
      fromUnit := symbol;
    }

    /** The target unit selector's change handler. */
    method SelectToUnit(symbol: string)
      modifies this`toUnit
      ensures Snapshot() == old(Snapshot()).(toUnit := symbol)
    {
      toUnit := symbol;
    }
  }

  /**
   * A session on the component: choose °C to °F, press 0, Convert, then Clear. Everything the
   * caller learns here follows from the handlers' contracts alone.
   */
  method FreezingPointSession(h: Host) returns (shown: Option<string>, afterClear: Option<string>)
    requires h.parseFloat("0") == Some(0.0)
    ensures shown == Some(h.toFixed2(32.0) + " °F")
    ensures afterClear == None
  {
    var c := new Calculator();
    c.SelectFromUnit("°C");
    c.SelectToUnit("°F");
    c.HandleNumberClick("0");
    assert c.Snapshot() == State("0", "°C", "°F", None);
    c.Convert(h);
    assert c.result == Some(ConvertText("0", "°C", "°F", h));
    assert ConvertText("0", "°C", "°F", h) == h.toFixed2(32.0) + " °F";
    shown := c.result;
    c.HandleClear();
    afterClear := c.result;
  }
}
