# Flickers Calculator — a verified model of its computation core

Flickers Calculator is a desktop calculator. Its page script (`script.js`) holds a `Calculator` class with these parts:

- **The keypad state machine.** The fields `currentOperand`, `previousOperand`, `operation` and `shouldResetScreen` are updated in place by `appendNumber`, `chooseOperation`, `compute`, `clear`, `delete`, `percent` and `scientificFunction`.
- **The history ledger.** Entries are `"<expression> = <result>"` lines, at most fifty of them. The history panel shows the last ten, newest first.
- **The converter.** It holds the linear unit tables and the temperature and numeral conversions. It also holds two small calculators, one for a discount and one for the body-mass index.

The desktop updater (`updater.js`) and the page's update checker (`update-checker-ui.js`) each compare a release tag with the installed version using the same three-component `compareVersions`.

The model is organised as follows:

| file | module | what it holds |
|---|---|---|
| `wrappers.dfy` | `Wrappers` | `Option`, standing for `undefined`/`null` |
| `numbers.dfy` | `Numbers` | JavaScript numbers and the built-ins the core calls; see below |
| `ledger.dfy` | `Ledger` | the history list as a bounded sequence, and the panel's view of it |
| `calculator_model.dfy` | `CalculatorModel` | the calculator's state as one value, with one transition function per method |
| `calculator.dfy` | `CalculatorEngine` | the `Calculator` class itself |
| `calculator_properties.dfy` | `CalculatorProperties` | what the transitions guarantee |
| `converter.dfy` | `Converter` | the unit tables and the arithmetic of `convert`, `convertTemperature` and `convertNumeral` |
| `converter_properties.dfy` | `ConverterProperties` | the converter's round trips, defaults and error cases |
| `versions.dfy` | `Versions` | `split('.')`, `map(Number)`, the comparison (as a function and as the source's loop) and the tag's `replace('v', '')` |
| `updater.dfy` | `Updates` | the `Updater` class and the decision on a parsed release |
| `update_checker.dfy` | `UpdateNotices` | the `UpdateChecker` class and the notification decision |

Notes on how the JavaScript is rendered:

- **Numbers.** A number is `Finite(real)`, `PosInf`, `NegInf` or `NaN`. Arithmetic is exact over the reals, with JavaScript's rules for the special values.
- **Built-ins written out.** `parseFloat`, `Number(string)`, `parseInt(s, radix)` and `toString(radix)` on integers are written out in full. So are `String(x)` for the special values and the special values of `Math.log`, `Math.log10` and `Math.sqrt`.
- **The `Host` value.** `Number.prototype.toString` on finite numbers and the finite values of `Math.sin`, `cos`, `tan`, `log`, `log10` and `sqrt` belong to the JavaScript engine. They are the fields of a `Host` value.
  - `HostValid` states the only thing the calculator's invariant needs from the engine: a rendering is never empty and holds at most one `.`.
  - `RendersIntegers` states the ECMA-262 rule that an integer below 10^21 is written as its decimal digits.
- **Classes.** The classes keep the source's fields. Each method's `ensures` ties the new fields to the matching transition function of the old fields (`Snapshot() == M.Compute(host, old(Snapshot()))`). The lemmas about those functions carry the properties. The calculator's methods also preserve `Valid()`: the history stays within fifty lines, the operand is non-empty with at most one `.`, and an operation is pending exactly when a previous operand is held.
- **`compareVersions`.** Both copies are the method `Versions.CompareVersions`: the counted loop with its two early returns, proved equal to the recursive specification `Versions.Compare`.

## Where the code decides

Points where the code's behaviour is easy to misread:

- `clear()` resets the two operands and the operation only. It keeps `shouldResetScreen` and the history (script.js:274-279).
- `compute()` needs both operands to parse, not to be finite: `"Infinity"` parses. A zero divisor gives an infinity or NaN, which is rendered and recorded.
- `scientificFunction` discards only a NaN result. `ln` and `log` of zero give `-Infinity`, which is kept (script.js:311-316, 338).
- `pi` and `e` replace the operand without setting the reset flag, and `paren` is exactly `appendNumber('(')`.
- `addToHistory` shifts at most one entry per push (script.js:211). A longer list loaded from storage is not cut back to fifty.
- The converter has no typed errors:
  - an unknown unit makes the table lookup `undefined`, and the result is NaN;
  - a non-numeric input becomes 0;
  - a category that names no table throws a TypeError at `units[type][from]`;
  - an unknown temperature target returns `undefined`, and `toFixed` then throws.
- The numeral converter does not read the text as digits of the source radix. It reads the field with `parseFloat`, so a hexadecimal input that starts with a letter becomes 0 (script.js:523). It then hands a string to `toFixed` whenever the target is not decimal (script.js:559, 590), which throws. See "Findings".

## Model

| member | source | states |
|---|---|---|
| CalculatorEngine.Calculator.constructor | script.js:2-7 | The fields start as `"0"`, `""`, null, false and an empty history, and the invariant holds from the start on a valid engine. |
| CalculatorEngine.Calculator.AppendNumber | script.js:216-228 | The fields become `AppendNumber` of the old ones: the dot check runs before the reset, then `"0"` is replaced or the token appended. A digit or `.` keeps the invariant. |
| CalculatorEngine.Calculator.AddToHistory | script.js:208-214 | The history becomes the old list with `"<expression> = <result>"` pushed and, past fifty, the oldest line shifted out. The operand fields are unchanged. |
| CalculatorEngine.Calculator.Compute | script.js:241-272 | The fields become `Compute` of the old ones, with the early returns on an unparsable operand or an unknown operation. The invariant is kept. |
| CalculatorEngine.Calculator.ChooseOperation | script.js:230-239 | No change on an empty operand. Otherwise a pending operation is computed first, then the operation is stored, the operand moves to `previousOperand` and the reset flag is set. An operator button keeps the invariant. |
| CalculatorEngine.Calculator.Clear | script.js:274-279 | The operands become `"0"` and `""` and the operation null. The reset flag and the history are untouched. |
| CalculatorEngine.Calculator.Delete | script.js:281-288 | A one-character operand becomes `"0"`, otherwise the last character is dropped. The invariant is kept. |
| CalculatorEngine.Calculator.Percent | script.js:290-295 | An unparsable operand is kept, otherwise it becomes its hundredth. The invariant is kept. |
| CalculatorEngine.Calculator.ScientificFunction | script.js:297-343 | The fields become `ScientificFunction` of the old ones: each case of the switch, with NaN results discarded. The invariant is kept. |
| CalculatorEngine.Calculator.ClearHistory | script.js:184-188 | The history becomes empty and nothing else changes. |
| CalculatorModel.OpOf | script.js:249-264 | The switch selects an arithmetic case exactly when the operation is one of `+ - * /`. |
| CalculatorProperties.AppendNumberRules | script.js:216-226 | A `.` is ignored when the operand holds one, even with a reset pending. Otherwise the flag is cleared and the token replaces a reset or `"0"` operand (unless it is `.`) or is appended. |
| CalculatorProperties.AppendKeepsOneDot | script.js:217-226 | Entering a digit or `.` never gives the operand a second `.`. |
| CalculatorProperties.AppendThenDelete | script.js:216-288 | Without a pending reset, `delete` undoes the single character just entered. |
| CalculatorProperties.ComputeChangesIffComputes | script.js:241-272 | `compute` changes the state iff both operands parse and the operation is one of the four, and an empty previous operand never parses. When it computes it records exactly one line `"<prev> <op> <cur> = <result>"` and clears the pending operation. |
| CalculatorProperties.ComputeOf | script.js:243-270 | `compute` on operands that parse as `x` and `y` applies the selected operation to them, and keeps the invariant on a valid engine. |
| CalculatorProperties.OperatorTwice | script.js:230-239 | Pressing the same operator twice computes the operand with itself and leaves the result pending as the left operand. |
| CalculatorProperties.ChainedOperators | script.js:230-239 | From the state the constructor or `clear` leaves (whatever the reset flag), `a + b +` records `"a + b = s"`, shows `s` and keeps `s` as the pending left operand of `+`. |
| CalculatorProperties.SecondPlus | script.js:232-237 | A second `+` computes the pending sum before storing the operation again. |
| CalculatorProperties.ClearKeepsResetFlag | script.js:274-279 | `clear` keeps the reset flag and the history, so a `.` typed right after clearing a result gives `"."` rather than `"0."`. Every cleared state is the constructor's state up to the flag and the history. |
| CalculatorProperties.DeleteRules | script.js:281-288 | `delete` turns a one-character operand into `"0"` and otherwise drops the last character. It changes no other field and never adds a `.`. |
| CalculatorProperties.PercentKeepsUnparsed | script.js:290-292 | `percent` on an operand that does not parse changes nothing. |
| CalculatorProperties.PercentDivides | script.js:290-294 | `percent` replaces a finite operand `x` by the rendering of `x / 100`, touching nothing else. |
| CalculatorProperties.PercentOfInfinity | script.js:291-293 | A hundredth of `Infinity` is shown as `Infinity`. |
| CalculatorProperties.KnownNames | script.js:301-336 | Exactly the ten names of the switch select a case. |
| CalculatorProperties.NonComputingNames | script.js:320-335 | An unknown name changes nothing. `pi` and `e` overwrite the operand without setting the reset flag. `paren` is `appendNumber('(')`. |
| CalculatorProperties.ComputedResult | script.js:298-342 | A computing function replaces the operand and sets the reset flag unless its result is NaN, in which case nothing changes. |
| CalculatorProperties.LogOfZeroKept | script.js:311-342 | `ln` and `log` of any operand that reads as 0 give `-Infinity`, which is kept and shown with the reset flag set. |
| CalculatorProperties.NegativeOperandDiscarded | script.js:311-342 | `sqrt`, `ln` and `log` of any operand that reads as a negative number (`-Infinity` included) are NaN, and the state is left unchanged. |
| CalculatorProperties.ComputeKeepsInvariant | script.js:241-272 | `compute` keeps the invariant. |
| CalculatorProperties.AppendKeepsInvariant | script.js:216-228 | `appendNumber` of a non-empty token with no `.` (or `.` itself) keeps the invariant. |
| CalculatorProperties.ChooseKeepsInvariant | script.js:230-239 | An operator button keeps the invariant. |
| CalculatorProperties.DeleteKeepsInvariant | script.js:281-288 | `delete` keeps the invariant. |
| CalculatorProperties.PercentKeepsInvariant | script.js:290-295 | `percent` keeps the invariant. |
| CalculatorProperties.ScientificKeepsInvariant | script.js:297-343 | Every scientific function keeps the invariant. |
| CalculatorProperties.ClearKeepsInvariant | script.js:274-279 | `clear` keeps the invariant. |
| CalculatorProperties.StepKeepsInvariant | script.js:216-343 | Every keypad press keeps the invariant. |
| CalculatorProperties.RunKeepsInvariant | script.js:216-343 | After any sequence of keypad presses the history holds at most fifty lines, the operand is non-empty with at most one `.`, and an operation is pending exactly when a previous operand is held. |
| CalculatorProperties.InitialInvariant | script.js:2-7 | The constructor's state satisfies the invariant. |
| Ledger.Entry | script.js:209 | The line is the expression, then `" = "`, then the result. |
| Ledger.Add | script.js:208-211 | The entry becomes the last line. The length grows by one up to fifty and then stays, and the lines before it are the old ones, minus the oldest when one was shifted out. |
| Ledger.RecentShowsNewestFirst | script.js:203 | The panel lists min(10, n) lines, and its k-th line is the k-th newest entry. |
| Ledger.AddAllKeepsNewest | script.js:208-211 | Adding lines one after another to a list within the bound keeps exactly the newest fifty of all lines, in order. |
| Ledger.KeptFromEmpty | script.js:208-211 | From an empty history, the list holds the newest fifty lines added. |
| Ledger.RecentOfWindow | script.js:203-211 | The newest ten of the newest fifty are the newest ten lines added, newest first. |
| Ledger.PanelAfterAdds | script.js:203-211 | From an empty history, the panel shows the newest ten lines added, newest first. For example, after sixty additions it shows the 60th down to the 51st. |
| Numbers.ParseIntOfDigits | script.js:581-583 | `parseInt(s, radix)` of a non-empty string of digits of the radix is their value. |
| Numbers.NatToStringParseInt | script.js:583-590 | `parseInt` in a radix reads back what `toString` in that radix wrote, upper-cased or not. |
| Numbers.DecimalDigitsParse | script.js:243-244 | `parseFloat` and `Number` read a decimal digit string as its value. |
| Numbers.ToNumberOfDigits | updater.js:68 | `Number` of a non-empty decimal digit string is its value. |
| Numbers.ParseFloatEmpty | script.js:243-245 | `parseFloat("")` is NaN, so an empty operand never computes. |
| ConverterProperties.TablesPositive | script.js:398-476 | Every factor of every linear table is positive, each table has at least two units, and its first unit has factor 1. |
| ConverterProperties.LinearSameUnit | script.js:555-556 | Converting a unit to itself gives the value back. |
| ConverterProperties.LinearRoundTrip | script.js:555-556 | With positive factors, a→b never gives NaN, and a→b→a gives the value back. |
| ConverterProperties.LinearMissingUnit | script.js:555-556 | A unit missing from the table makes the result NaN. |
| ConverterProperties.FactorExamples | script.js:428-464 | One metre is a hundred centimetres, and one hour is 3600 seconds. |
| ConverterProperties.OrZeroKeeps | script.js:523 | `x \|\| 0` keeps every number except NaN and 0 (0 stays 0). |
| ConverterProperties.CalculateLinear | script.js:547-556 | In a linear category the result is `(input \|\| 0) * f[from] / f[to]`. |
| ConverterProperties.ConvertSameUnit | script.js:521-559 | From the text fields: a unit to itself shows the parsed input, or 0 for no number. |
| ConverterProperties.LinearConvertRoundTrip | script.js:547-556 | Between two units of a table the result is a number, and converting it back gives the input (0 for no number). |
| ConverterProperties.UnknownCategoryThrows | script.js:554-556 | A category outside the selector makes `convert` throw. |
| ConverterProperties.TemperatureFormulas | script.js:562-572 | The six conversions between °C, °F and K are the Celsius-pivot formulas. |
| ConverterProperties.FreezingPoint | script.js:562-572 | 0 °C is 32 °F and 273.15 K, and 273.15 K is 0 °C. |
| ConverterProperties.BoilingPoint | script.js:562-572 | 100 °C is 212 °F. |
| ConverterProperties.MinusForty | script.js:562-572 | -40 °F is -40 °C. |
| ConverterProperties.TemperatureInfinite | script.js:562-572 | An infinite temperature stays the same infinity on every scale. |
| ConverterProperties.TemperatureRoundTrip | script.js:562-572 | Between two known scales the result is a number, and converting it back gives the input. |
| ConverterProperties.TemperatureSameScale | script.js:562-572 | Converting to the same scale gives the value back. |
| ConverterProperties.CalculateTemperature | script.js:550-551 | The temperature category shows `convertTemperature(input \|\| 0, from, to)`, and throws on `undefined`. |
| ConverterProperties.TemperatureConvertRoundTrip | script.js:547-559 | From the panel, a→b→a between known scales gives the input back (0 for no number). |
| ConverterProperties.TemperatureUnknownUnits | script.js:562-572 | An unknown target, or an unknown source with a °C target, throws. An unknown source with another target gives NaN. |
| ConverterProperties.DiscountFormula | script.js:530 | The discounted price is `price * (100 - d) / 100`: no discount keeps the price, and a full discount makes it 0. |
| ConverterProperties.CalculateDiscount | script.js:528-532 | With both fields holding numbers other than 0, the discounted price is shown. |
| ConverterProperties.NoDiscount | script.js:523-530 | A discount field with no number, or 0, leaves the price. A price field with no number gives 0. |
| ConverterProperties.BandRanges | script.js:538-542 | The bands are below 18.5, [18.5, 25), [25, 30) and from 30 on, each iff. |
| ConverterProperties.BmiExample | script.js:535-543 | 70 kg at 1.75 m gives 70 / 3.0625 (about 22.86), a normal weight. |
| ConverterProperties.CalculateBmi | script.js:535-544 | With both fields holding numbers other than 0, the index `weight / height²` is shown with its band. |
| ConverterProperties.UnitHeight | script.js:536-537 | A height field with no number, or 0, counts as 1 m, and the index is the weight. |
| ConverterProperties.NumeralNames | script.js:477-482 | `DEC`, `BIN`, `OCT` and `HEX` are 10, 2, 8 and 16. |
| ConverterProperties.ParseIntDecimal | script.js:580-581 | `parseInt` without a radix reads decimal digits like radix 10. |
| ConverterProperties.NumeralReadsDigits | script.js:574-592 | Into decimal, the number's decimal rendering is read as digits of the source radix. For example, 101 from binary gives 5. |
| ConverterProperties.CalculateNumeral | script.js:552-553 | The numeral category shows a decimal result and throws on a string result. |
| ConverterProperties.ConvertReadsDigits | script.js:521-559 | From the text fields: a number typed in decimal digits is read in the source radix when the target is decimal. |
| ConverterProperties.NumeralTargetThrows | script.js:553-559 | As written, every non-decimal target makes `convert` throw, so no result is ever shown. |
| ConverterProperties.ParseFloatOfLetter | script.js:523 | `parseFloat` of a text starting with a letter (other than the `I` of `Infinity`) is NaN. |
| ConverterProperties.HexLettersLost | script.js:523 | As written, a hexadecimal input starting with a letter (`"FF"`) converts to decimal 0. |
| ConverterProperties.RewriteRoundTrip | script.js:574-592 | Corrected conversion: a number written in one radix and rewritten in another is that number in the other radix, upper-cased, and rewriting it back gives the original text. |
| ConverterProperties.NumeralTextRoundTrip | script.js:574-592 | The same round trip on the selector's names. |
| ConverterProperties.HexTextExample | script.js:574-592 | Corrected conversion: `"FF"` from `HEX` to `DEC` is `"255"`. |
| Versions.JoinSplit | updater.js:68 | `split('.')` loses nothing but the dots: joining the pieces gives the string back. |
| Versions.SplitNoDots | updater.js:68 | No piece of `split('.')` contains a dot. |
| Versions.CompareFirstDifference | updater.js:67-76 | The result is 1, -1 or 0: 1 (or -1) iff the first deciding component among the first three is greater (or less), and 0 iff none decides. |
| Versions.CompareVersions | updater.js:67-76 | The counted loop with its early returns computes `Compare`. The verbatim copy at update-checker-ui.js:41-50 is the same method. |
| Versions.CompareAntisymmetric | updater.js:71-75 | Swapping the versions negates the result, for any two strings. |
| Versions.CompareReflexive | updater.js:71-75 | Every string compares equal to itself, NaN components included. |
| Versions.ExtraComponentsIgnored | updater.js:71 | Components past the third never count: `"1.0.0.9"` equals `"1.0.0"`. |
| Versions.ExtendedVersionEqual | updater.js:68-74 | A missing component decides nothing: `"1.0"` equals `"1.0.0"`. |
| Versions.PartsOfVersion | updater.js:68 | A well-formed `X.Y.Z` maps to the three numbers. |
| Versions.CompareWellFormed | updater.js:67-76 | On well-formed versions the comparison is the lexicographic order of the triples. |
| Versions.CompareTransitive | updater.js:67-76 | On well-formed versions "newer than" is transitive. |
| Versions.RemoveFirstAbsent | updater.js:47 | `replace('v', '')` leaves a text without `v` unchanged. |
| Versions.RemoveFirstAt | updater.js:47 | `replace('v', '')` cuts out exactly the first `v`. |
| Versions.LeadingV | updater.js:47 | `"v1.2.0"` becomes `"1.2.0"`. |
| Updates.Updater.constructor | updater.js:14-17 | The installed version is `1.0.0`, and the URL is the repository's latest-release endpoint. |
| Updates.Updater.DecideRelease | updater.js:31-58 | The straight-line branches settle the promise as `Decide` says. |
| Updates.ApiErrorReported | updater.js:34-38 | A non-empty `message` wins and is passed on as the error. |
| Updates.MissingTagReported | updater.js:41-45 | Without a message, a missing or empty tag gives the "No releases found" error. |
| Updates.UpdateExactlyWhenNewer | updater.js:47-58 | `hasUpdate` is true iff there is no message, there is a tag, there is an `assets` array and the stripped tag compares greater. The update then carries that version, the first asset's link and the notes. |
| Updates.RejectedCases | updater.js:30-61 | The promise is rejected iff parsing failed or a newer release has no `assets` array. |
| Updates.SameVersionNoUpdate | updater.js:47-57 | A release tagged `v<installed>` is not an update. |
| Updates.NewerTriple | updater.js:47-57 | A release tagged `vX.Y.Z` is an update iff `(X, Y, Z)` is lexicographically above the installed triple. |
| UpdateNotices.UpdateChecker.constructor | update-checker-ui.js:3-6 | The checker starts without a configuration. |
| UpdateNotices.UpdateChecker.LoadConfig | update-checker-ui.js:8-20 | A loaded configuration replaces the current one, and a failure keeps it. A first check starts iff `autoCheck` is set. |
| UpdateNotices.UpdateChecker.CheckForUpdates | update-checker-ui.js:22-39 | The check shows exactly the notice `Notify` gives for the configuration and the release. |
| UpdateNotices.NoConfigNoNotice | update-checker-ui.js:23 | Without a configuration nothing is shown. |
| UpdateNotices.NoticeExactlyWhenNewer | update-checker-ui.js:31-35 | A notice appears iff the stripped tag compares strictly greater than the configured version, and it names that version and the release page. |
| UpdateNotices.SameVersionNoNotice | update-checker-ui.js:31-35 | A release tagged with the configured version shows nothing. |
| UpdateNotices.AgreesWithUpdater | update-checker-ui.js:31-35 | The page notifies about a non-empty tag iff the desktop updater reports an update for the same tag and version. |

## Left out

- The DOM and the event wiring are left out: `initializeButtons`, `initializeModes`, the settings and themes, `updateDisplay`, the converter's custom select and `updateUnits`, and `showUpdateNotification`. The model starts at the method a button calls.
- Persistence is left out: `localStorage` and the JSON round trip of the history, including loading a saved history at start-up. Only the in-memory list is modelled; `Ledger.Add` is correct for a list of any length.
- The formatting of the converter's result is left out: `toFixed(2)`, `toFixed(6)`, the trailing-zero regex and the text of the BMI band appended to the number. `Converter.Outcome` holds the number (and the band) before it is formatted, or records that `toFixed` throws.
- IEEE-754 rounding, overflow of finite results to infinity, and the sign of zero are left out. Arithmetic is exact over the reals. A zero divisor is taken as +0, so `5 / -0` gives `Infinity` where JavaScript gives `-Infinity`.
- `Number.prototype.toString` on finite numbers and the finite values of `Math.sin`, `cos`, `tan`, `log`, `log10` and `sqrt` are left out. They are the engine's and stay unconstrained fields of `Host`, apart from `HostValid` and `RendersIntegers`. `Math.pow(x, 2)` is `x * x`. `Math.PI` and `Math.E` are their shortest decimal forms.
- The network, the file system and processes are left out: `https.get`, `fetch`, `JSON.parse`, `downloadUpdate`, `installUpdate`, the command-line entry and the `setInterval` timer. The decisions start from the parsed object, or from None when parsing failed.
- Release and configuration fields of a type other than a string are not modelled, for example a numeric `tag_name` or an `assets` value that is not an array.
- JavaScript property lookup finds inherited members of `Object.prototype`, for a unit name or a category name such as `constructor`. The model's `Find` and `CategoryOf` do not, because the selectors offer only the tables' own keys. So `ConverterProperties.UnknownCategoryThrows` does not cover a category like `constructor`: there `units[type]` is a function, the unit lookups give `undefined`, and the page shows `NaN` instead of throwing.
- `UpdateNotices.UpdateChecker.LoadConfig`: a configuration that parses to `null` is modelled as a failed load that keeps the previous configuration. That previous configuration is `null` whenever `loadConfig` runs from the constructor.
- `create-icon.js` and `main.js` are not part of this model.
- `ConverterProperties.CalculateDiscount`: stated only for fields holding numbers other than 0. The `|| 0` defaults are stated separately by `NoDiscount`.
- `ConverterProperties.CalculateBmi`: stated only for fields holding numbers other than 0. The `|| 1` height default is stated separately by `UnitHeight`.
- `CalculatorProperties.PercentOfInfinity`: covers `Infinity` only. `-Infinity` behaves alike but is not stated.
- `CalculatorProperties.ChainedOperators`: each operand is entered as a single `appendNumber` call carrying the whole token.
- `ConverterProperties.LinearRoundTrip`: holds over exact reals. With IEEE rounding the round trip is only approximate.

## Findings

| source | as written | input that shows it | evidently intended | confidence | as-written member | corrected member |
|---|---|---|---|---|---|---|
| script.js:553-559 | `convertNumeral` returns a string for every target other than `DEC`, and `convert` calls `toFixed(6)` on it, which throws a TypeError | `255` from `DEC` to `HEX` | show `"FF"` | high (not executed) | ConverterProperties.NumeralTargetThrows | ConverterProperties.NumeralTextRoundTrip |
| script.js:523 | the numeral input is read by `parseFloat`, so a hexadecimal text starting with a letter becomes NaN, then 0 | `FF` from `HEX` to `DEC` shows 0 | show `255` | high (not executed) | ConverterProperties.HexLettersLost | ConverterProperties.HexTextExample |

The corrected conversion, `Converter.ConvertNumeralText`, reads the text itself with `parseInt` in the source radix and writes it with `toString` in the target radix, upper-cased. `ConverterProperties.RewriteRoundTrip` proves that it converts a number written in one radix into the same number in the other, and that converting back gives the original text.
