# Unit converter: conversion handler and input state

A model of the `Calculator` React component of a small unit-conversion widget. The user types a
number (keypad buttons or a text box), picks a source and a target unit, and presses Convert.
A pair of two temperature symbols (°C, °F, K) is converted by hand-written affine formulas. Every
other pair is handed to the mathjs unit library. Every failure shows the same message,
`"Conversion not possible"`.

Files:

- `wrappers.dfy`: `Option`, which stands for React's `null` state and for calls that may fail.
- `temperature.dfy` (module `Temperature`): the guard `IsTemp`, the if/else ladder of formulas
  `TempConvert`, and a separate reference definition that goes through the Kelvin scale
  (`ToKelvin`, `FromKelvin`). The lemmas show that the ladder agrees with the reference.
  It follows that its branches compose, invert each other and preserve order.
- `conversion.dfy` (module `Conversion`): `convert` as a pure function `ConvertText` of the
  three fields it reads (`inputValue`, `fromUnit`, `toUnit`). The code it calls but that is
  not part of this model is passed in as a `Host` value holding three total functions:
  `parseFloat` (`None` for NaN), `toFixed(2)`, and the library's
  `unit(input, from).to(to).toString()` (`None` when it throws).
- `component.dfy` (module `Component`): the four state fields as a `State` value, each handler
  as a transition on `State`, and the class `Calculator`. The class holds the four fields and
  updates them in place. Each method's frame names only the fields it writes, and each method
  promises `Snapshot() == Transition(old(Snapshot()))`.
  `handleDelete`'s `slice(0, -1)` is modelled by `JsSlice`, which follows ECMAScript's
  `String.prototype.slice` (negative positions count from the end and are clamped).

Numbers are exact `real`s, so the formulas (`v * 9 / 5 + 32`, `v + 273.15`, …) hold exactly.

## Model

| member | source | states |
|---|---|---|
| `Temperature.IsTemp` | src/Components/Calculation/Calculation.jsx:28-31 | each half of the guard: a symbol passes exactly when it is the symbol of one of the three temperature scales |
| `Temperature.TempConvert` | src/Components/Calculation/Calculation.jsx:36-51 | the six-formula ladder; for two equal temperature symbols the value passes through unchanged |
| `Temperature.ScaleOf` | src/Components/Calculation/Calculation.jsx:28-31 | a symbol gets a temperature scale exactly when it is °C, °F or K (the guard), and that scale's symbol is the symbol |
| `Temperature.ViaKelvin` | src/Components/Calculation/Calculation.jsx:37-51 | every one of the nine (from, to) temperature cases of the ladder equals converting to Kelvin and back out to the target scale |
| `Temperature.Compose` | src/Components/Calculation/Calculation.jsx:37-51 | converting a→b and then b→c gives the same value as converting a→c, for all 27 scale triples |
| `Temperature.RoundTrip` | src/Components/Calculation/Calculation.jsx:37-51 | converting a→b and then b→a returns the original value |
| `Temperature.ComposeSymbols` | src/Components/Calculation/Calculation.jsx:28-51 | the composition law stated on the source's unit strings, for any three symbols the guard accepts |
| `Temperature.LadderConsistency` | src/Components/Calculation/Calculation.jsx:37-48 | °F→K equals °F→°C then °C→K; K→°F equals K→°C then °C→°F; °C→°F then °F→°C is the identity |
| `Temperature.StrictlyIncreasing` | src/Components/Calculation/Calculation.jsx:37-51 | every temperature conversion is strictly increasing in its input |
| `Conversion.TemperatureResult` | src/Components/Calculation/Calculation.jsx:33-52 | the temperature branch with its catch: NaN gives the failure message; a number gives a string ending in " " + toUnit, which for two temperature symbols is the Kelvin-reference value formatted by toFixed(2) |
| `Conversion.GenericResult` | src/Components/Calculation/Calculation.jsx:53-59 | the library branch with its catch: the library's string, or the failure message exactly when the library throws |
| `Conversion.ConvertText` | src/Components/Calculation/Calculation.jsx:26-61 | `convert` never fails to produce a message: the result is the failure message, or ends with " " and the target symbol, or is exactly the library's rendering |
| `Conversion.NonTemperatureGoesToLibrary` | src/Components/Calculation/Calculation.jsx:53-59 | a pair that is not two temperature symbols (mixed pairs such as °C→m included) yields the library's rendering, or the failure message when the library throws |
| `Conversion.NonTemperatureIgnoresFormulas` | src/Components/Calculation/Calculation.jsx:28-57 | outside the temperature branch the result depends only on the library, not on parseFloat, toFixed or the formulas |
| `Conversion.TemperatureIgnoresLibrary` | src/Components/Calculation/Calculation.jsx:28-52 | inside the temperature branch the result does not depend on the library |
| `Conversion.TemperatureSuccess` | src/Components/Calculation/Calculation.jsx:33-52 | for two temperature symbols and a numeric input, the result is the Kelvin-reference value formatted to two decimals, a space and the target symbol, so it ends with " " + toUnit |
| `Conversion.SameUnitIsIdentity` | src/Components/Calculation/Calculation.jsx:49-52 | a same-unit temperature conversion formats the parsed value itself |
| `Conversion.TemperatureFailsExactlyOnNaN` | src/Components/Calculation/Calculation.jsx:33-59 | for two temperature symbols the failure message appears if and only if parseFloat gives NaN |
| `Conversion.WorkedExamples` | src/Components/Calculation/Calculation.jsx:37-52 | 0 °C→°F formats 32, 100 °C→K formats 373.15, 32 °F→°C formats 0 |
| `Component.JsSlice` | src/Components/Calculation/Calculation.jsx:73 | `String.prototype.slice`: never longer than the string; in-range indices give that substring; with start 0 a negative end drops that many characters from the end, or gives "" when it exceeds the length |
| `Component.NumberClicked` | src/Components/Calculation/Calculation.jsx:63-65 | the keypad transition: the new input is the old input followed by the label (length adds up, prefix and suffix as stated), and no other field changes |
| `Component.Deleted` | src/Components/Calculation/Calculation.jsx:72-74 | the Delete transition: the new input is the old input's prefix one character shorter (still "" when empty), and no other field changes |
| `Component.Cleared` | src/Components/Calculation/Calculation.jsx:67-70 | the Clear transition: empty input, null result, both units kept |
| `Component.Converted` | src/Components/Calculation/Calculation.jsx:26-61 | the Convert transition: the result becomes non-null with one of the three admissible forms, and no other field changes |
| `Component.SliceDropsLast` | src/Components/Calculation/Calculation.jsx:72-74 | `slice(0, -1)` removes exactly the last character, and leaves the empty string empty |
| `Component.DeleteUndoesNumberClick` | src/Components/Calculation/Calculation.jsx:63-74 | a one-character keypad press followed by Delete restores the whole state |
| `Component.DeleteShortens` | src/Components/Calculation/Calculation.jsx:72-74 | Delete shortens a non-empty input by one, leaves it a prefix of the old input, and changes no other field |
| `Component.ClearResets` | src/Components/Calculation/Calculation.jsx:67-70 | Clear empties the input and nulls the result, keeps both units, and is idempotent |
| `Component.ConvertSettles` | src/Components/Calculation/Calculation.jsx:26-61 | after Convert the result is non-null, input and units are unchanged, converting again changes nothing, and the message has one of the three admissible forms |
| `Component.ClearAfterConvert` | src/Components/Calculation/Calculation.jsx:26-70 | Clear after Convert gives the same state as Clear alone |
| `Component.Calculator.constructor` | src/Components/Calculation/Calculation.jsx:7-10 | the state starts as input "", from "m", to "cm", result null |
| `Component.Calculator.HandleNumberClick` | src/Components/Calculation/Calculation.jsx:63-65 | the input becomes the old input followed by the pressed label; only the input changes |
| `Component.Calculator.HandleClear` | src/Components/Calculation/Calculation.jsx:67-70 | input becomes "" and result null; units are untouched |
| `Component.Calculator.HandleDelete` | src/Components/Calculation/Calculation.jsx:72-74 | the input loses exactly its last character, or stays "" when empty; only the input changes |
| `Component.Calculator.Convert` | src/Components/Calculation/Calculation.jsx:26-61 | only the result changes; it becomes the non-null message `ConvertText` gives for the current input and units |
| `Component.Calculator.EditInput` | src/Components/Calculation/Calculation.jsx:82 | the text box replaces the input and nothing else |
| `Component.Calculator.SelectFromUnit` | src/Components/Calculation/Calculation.jsx:89 | the source selector replaces fromUnit and nothing else |
| `Component.Calculator.SelectToUnit` | src/Components/Calculation/Calculation.jsx:100 | the target selector replaces toUnit and nothing else |
| `Component.FreezingPointSession` | src/Components/Calculation/Calculation.jsx:26-70 | choosing °C→°F, pressing 0 and Convert shows the formatting of 32 followed by " °F"; a following Clear hides the result again |

## Left out

- parseFloat, toFixed(2) and the mathjs library are parameters (`Host`). The model does not describe which strings parse, what digits toFixed prints, or which unit pairs mathjs accepts. The generic path is therefore characterised only as "the library's string, or the failure message".
- IEEE-754 doubles: values are exact reals. Rounding in the formulas, Infinity (parseFloat("Infinity") is not NaN) and -0 are not modelled.
- Component.Calculator.HandleDelete: JavaScript strings are UTF-16 code-unit sequences, while the model uses `seq<char>`, one element per character. The keypad only produces ASCII, but text typed or pasted into the text box (`EditInput`) can contain characters outside the Basic Multilingual Plane. For such a last character, `HandleDelete` removes the whole character, whereas the source's `slice(0, -1)` removes one code unit and leaves a lone surrogate.
- React's `useState` scheduling and functional updaters: each handler is one atomic update of the class's fields.
- The JSX markup, CSS classes and the button grid (lines 76-151) are presentation only. The `onChange` handlers are modelled as the three setter methods. The static `units` catalog (lines 12-24) only fills the drop-downs, so only its temperature-membership test (`IsTemp`) is modelled.
