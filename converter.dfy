/**
  The converter panel: the unit tables, the linear conversion between two units
  of a category, the temperature scales, the numeral systems, and the two
  special calculators (discount and body-mass index).

  `convert()` reads the two text fields, works out a number and shows it through
  `toFixed`; the model stops at the number (or at the exception `toFixed` raises
  when the value it is called on is not a number).
*/
module Converter {
  import opened Wrappers
  import opened Numbers

  /** One property of a unit table: a unit's name and what the table holds for it. */
  datatype Named<T> = Named(name: string, value: T)

  /** `table[name]`: the first entry with that name, None for `undefined`. */
  function Find<T>(t: seq<Named<T>>, name: string): Option<T> {
    if t == [] then None
    else if t[0].name == name then Some(t[0].value)
    else Find(t[1..], name)
  }

  // ---------------------------------------------------------------------
  // The unit tables
  // ---------------------------------------------------------------------

  /** Each linear table maps a unit to how many of the category's first unit it is. */
  type Table = seq<Named<real>>

  const Mass: Table := [
    Named("кг", 1.0), Named("г", 0.001), Named("мг", 0.000001), Named("т", 1000.0),
    Named("фунт", 0.453592), Named("унция", 0.0283495)]

  const Speed: Table := [
    Named("м/с", 1.0), Named("км/ч", 0.277778), Named("миль/ч", 0.44704),
    Named("узел", 0.514444), Named("фут/с", 0.3048)]

  const Pressure: Table := [
    Named("Па", 1.0), Named("кПа", 1000.0), Named("МПа", 1000000.0), Named("бар", 100000.0),
    Named("атм", 101325.0), Named("мм рт.ст.", 133.322), Named("psi", 6894.76)]

  const Length: Table := [
    Named("м", 1.0), Named("см", 0.01), Named("мм", 0.001), Named("км", 1000.0),
    Named("миля", 1609.34), Named("ярд", 0.9144), Named("фут", 0.3048), Named("дюйм", 0.0254)]

  const Volume: Table := [
    Named("л", 1.0), Named("мл", 0.001), Named("м³", 1000.0), Named("галлон", 3.78541),
    Named("кварта", 0.946353), Named("пинта", 0.473176)]

  const Currency: Table := [
    Named("USD", 1.0), Named("EUR", 0.92), Named("RUB", 92.5), Named("GBP", 0.79),
    Named("JPY", 149.5), Named("CNY", 7.24), Named("CHF", 0.88), Named("CAD", 1.36),
    Named("AUD", 1.53)]

  const Time: Table := [
    Named("сек", 1.0), Named("мин", 60.0), Named("час", 3600.0), Named("день", 86400.0),
    Named("неделя", 604800.0), Named("месяц", 2592000.0), Named("год", 31536000.0)]

  const Area: Table := [
    Named("м²", 1.0), Named("см²", 0.0001), Named("мм²", 0.000001), Named("км²", 1000000.0),
    Named("га", 10000.0), Named("ар", 100.0), Named("акр", 4046.86), Named("фут²", 0.092903),
    Named("дюйм²", 0.00064516)]

  /** A radix `toString` and `parseInt` accept. */
  type Radix = r: nat | 2 <= r <= 36 witness 2

  /** `units.numeral`. */
  const NumeralBases: seq<Named<Radix>> := [Named("DEC", 10), Named("BIN", 2), Named("OCT", 8), Named("HEX", 16)]

  /** The entries of the converter's category selector, and any other value. */
  datatype Category =
    | MassUnits | SpeedUnits | PressureUnits | TemperatureUnits | LengthUnits | VolumeUnits
    | CurrencyUnits | TimeUnits | AreaUnits | NumeralUnits | DiscountCalc | BmiCalc | Unknown

  function CategoryOf(name: string): Category {
    if name == "mass" then MassUnits
    else if name == "speed" then SpeedUnits
    else if name == "pressure" then PressureUnits
    else if name == "temperature" then TemperatureUnits
    else if name == "length" then LengthUnits
    else if name == "volume" then VolumeUnits
    else if name == "currency" then CurrencyUnits
    else if name == "time" then TimeUnits
    else if name == "area" then AreaUnits
    else if name == "numeral" then NumeralUnits
    else if name == "discount" then DiscountCalc
    else if name == "bmi" then BmiCalc
    else Unknown
  }

  /** `units[type]` for the categories converted by their factors. */
  function LinearTable(c: Category): Option<Table> {
    match c
    case MassUnits => Some(Mass)
    case SpeedUnits => Some(Speed)
    case PressureUnits => Some(Pressure)
    case LengthUnits => Some(Length)
    case VolumeUnits => Some(Volume)
    case CurrencyUnits => Some(Currency)
    case TimeUnits => Some(Time)
    case AreaUnits => Some(Area)
    case _ => None
  }

  predicate Positive(t: Table) {
    forall i :: 0 <= i < |t| ==> t[i].value > 0.0
  }

  // ---------------------------------------------------------------------
  // The conversions
  // ---------------------------------------------------------------------

  /** A table entry as a number: `undefined` turns into NaN in arithmetic. */
  function FactorNum(f: Option<real>): Num {
    match f
    case Some(x) => Finite(x)
    case None => NaN
  }

  /** `value * units[type][from] / units[type][to]`. */
  function Linear(value: Num, from: Option<real>, to: Option<real>): Num {
    Div(Mul(value, FactorNum(from)), FactorNum(to))
  }

  /** The three entries of `units.temperature`. */
  datatype TempScale = Celsius | Fahrenheit | Kelvin

  function ScaleOf(name: string): Option<TempScale> {
    if name == "°C" then Some(Celsius)
    else if name == "°F" then Some(Fahrenheit)
    else if name == "K" then Some(Kelvin)
    else None
  }

  /** The constants of the temperature formulas. */
  const ThirtyTwo: Num := Finite(32.0)
  const Five: Num := Finite(5.0)
  const Nine: Num := Finite(9.0)
  const KelvinOffset: Num := Finite(273.15)

  /** The first half of `convertTemperature`: the value in degrees Celsius, None while `celsius` is `undefined`. */
  function ToCelsius(value: Num, from: Option<TempScale>): Option<Num> {
    match from
    case Some(Celsius) => Some(value)
    case Some(Fahrenheit) => Some(Div(Mul(Sub(value, ThirtyTwo), Five), Nine))
    case Some(Kelvin) => Some(Sub(value, KelvinOffset))
    case None => None
  }

  /** `convertTemperature(value, from, to)`; None is the `undefined` it returns for an unknown target. */
  function ConvertTemperature(value: Num, from: Option<TempScale>, to: Option<TempScale>): Option<Num> {
    var celsius := ToCelsius(value, from);
    match to
    case Some(Celsius) => celsius
    case Some(Fahrenheit) => Some(Add(Div(Mul(FromOption(celsius), Nine), Five), ThirtyTwo))
    case Some(Kelvin) => Some(Add(FromOption(celsius), KelvinOffset))
    case None => None
  }

  /** An operand that may be `undefined`, as arithmetic sees it. */
  function FromOption(x: Option<Num>): Num {
    x.GetOr(NaN)
  }

  /** What `convertNumeral` returns: a number for the decimal target, otherwise a string. */
  datatype Numeral = Decimal(value: Num) | Digits(text: string)

  /** `decimal.toString(radix)` for the result of `parseInt` (None is NaN). */
  function RadixString(decimal: Option<int>, radix: Radix): string {
    match decimal
    case Some(i) => IntToString(i, radix)
    case None => "NaN"
  }

  /**
    `convertNumeral(value, from, to)`: the number is rendered again in decimal
    and read back by `parseInt` in the source radix (an unknown radix is
    `undefined`, which `parseInt` treats as absent).
  */
  function ConvertNumeral(host: Host, value: Num, from: string, to: string): Numeral {
    NumeralIn(host, value, Find(NumeralBases, from), Find(NumeralBases, to))
  }

  /** `convertNumeral` once `units.numeral[from]` and `units.numeral[to]` have been looked up. */
  function NumeralIn(host: Host, value: Num, fromBase: Option<Radix>, toBase: Option<Radix>): Numeral {
    var decimal :=
      if fromBase == Some(10) then ParseInt(Show(host, value), 0)
      else ParseInt(Show(host, value), if fromBase.Some? then fromBase.value as int else 0);
    if toBase == Some(10) then Decimal(match decimal case Some(i) => Finite(i as real) case None => NaN)
    else Digits(ToUpper(RadixString(decimal, toBase.GetOr(10))))
  }

  /** `x || 0` and `x || 1` on a number. */
  function OrZero(x: Num): Num {
    if Falsy(x) then Zero else x
  }

  function OrOne(x: Num): Num {
    if Falsy(x) then One else x
  }

  /** The price after the discount: `value - (value * discount / 100)`. */
  function Discount(value: Num, discount: Num): Num {
    Sub(value, Div(Mul(value, discount), Hundred))
  }

  /** `value / (height * height)`. */
  function Bmi(weight: Num, height: Num): Num {
    Div(weight, Mul(height, height))
  }

  /** The weight categories the BMI calculator appends to its result. */
  datatype Band = Underweight | Normal | Overweight | Obese

  function BandOf(bmi: Num): Band {
    if Less(bmi, Finite(18.5)) then Underweight
    else if Less(bmi, Finite(25.0)) then Normal
    else if Less(bmi, Finite(30.0)) then Overweight
    else Obese
  }

  /** What `convert()` leaves in the result field, before `toFixed`; `Thrown` when it raises a TypeError. */
  datatype Outcome = Shown(value: Num) | Banded(value: Num, band: Band) | Thrown

  /** `toFixed` is defined on numbers only. */
  function Rendered(r: Option<Num>): Outcome {
    match r
    case Some(x) => Shown(x)
    case None => Thrown
  }

  /** `convert()`: the category, the two selected units and the two text fields. */
  function Convert(host: Host, category: string, from: string, to: string, fromText: string, toText: string): Outcome {
    Calculate(host, CategoryOf(category), from, to, ParseFloat(fromText), ParseFloat(toText))
  }

  /** `convert()` once both fields have gone through `parseFloat` (the second one is read by the two calculators only). */
  function Calculate(host: Host, c: Category, from: string, to: string, input: Num, second: Num): Outcome {
    var value := OrZero(input);
    match c
    case DiscountCalc => DiscountOutcome(value, second)
    case BmiCalc => BmiOutcome(Bmi(value, OrOne(second)))
    case TemperatureUnits => Rendered(ConvertTemperature(value, ScaleOf(from), ScaleOf(to)))
    case NumeralUnits => NumeralOutcome(ConvertNumeral(host, value, from, to))
    case _ => LinearOutcome(LinearTable(c), value, from, to)
  }

  /** The discounted price; an empty discount field counts as 0. */
  function DiscountOutcome(value: Num, second: Num): Outcome {
    Shown(Discount(value, OrZero(second)))
  }

  /** The index with its band. */
  function BmiOutcome(bmi: Num): Outcome {
    Banded(bmi, BandOf(bmi))
  }

  /** `toFixed` on what `convertNumeral` returns: a number is shown, a string throws. */
  function NumeralOutcome(n: Numeral): Outcome {
    match n
    case Decimal(x) => Shown(x)
    case Digits(_) => Thrown
  }

  /** `value * units[type][from] / units[type][to]`; an unknown category has no table and the lookup throws. */
  function LinearOutcome(table: Option<Table>, value: Num, from: string, to: string): Outcome {
    match table
    case Some(t) => Shown(Linear(value, Find(t, from), Find(t, to)))
    case None => Thrown
  }

  /**
    The conversion between two numeral systems on the text itself: the text is
    read by `parseInt` in the source radix and written by `toString` in the
    target radix, upper-cased. None when a radix is unknown or the text has no
    digit of the source radix.
  */
  function ConvertNumeralText(text: string, from: string, to: string): Option<string> {
    match (Find(NumeralBases, from), Find(NumeralBases, to))
    case (Some(r1), Some(r2)) => Rewrite(text, r1, r2)
    case _ => None
  }

  /** The digits of `text` in radix `r1`, written in radix `r2`. */
  function Rewrite(text: string, r1: Radix, r2: Radix): Option<string> {
    match ParseInt(text, r1)
    case Some(i) => Some(ToUpper(IntToString(i, r2)))
    case None => None
  }
}
