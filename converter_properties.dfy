/** What the converter's arithmetic guarantees, and where it departs from what its panel promises. */
module ConverterProperties {
  import opened Wrappers
  import opened Numbers
  import opened Converter

  // ---------------------------------------------------------------------
  // Unit tables and linear conversion
  // ---------------------------------------------------------------------

  /** Every factor in every linear table is positive, and each table's first unit is its base unit. */
  lemma TablesPositive(c: Category)
    requires LinearTable(c).Some?
    ensures Positive(LinearTable(c).value)
    ensures |LinearTable(c).value| > 1 && LinearTable(c).value[0].value == 1.0
  {
  }

  /** A unit a table holds has one of the table's factors. */
  lemma {:induction false} FindEntry<T>(t: seq<Named<T>>, name: string)
    requires Find(t, name).Some?
    ensures exists i :: 0 <= i < |t| && t[i] == Named(name, Find(t, name).value)
  {
    if t[0].name != name {
      FindEntry(t[1..], name);
      var i :| 0 <= i < |t[1..]| && t[1..][i] == Named(name, Find(t, name).value);
      assert t[i + 1] == t[1..][i];
    }
  }

  /** A unit missing from a table is `undefined` there. */
  lemma {:induction false} FindMissing<T>(t: seq<Named<T>>, name: string)
    requires forall i :: 0 <= i < |t| ==> t[i].name != name
    ensures Find(t, name) == None
  {
    if t != [] {
      assert t[0].name != name;
      FindMissing(t[1..], name);
    }
  }

  lemma FactorPositive(t: Table, unit: string)
    requires Positive(t) && Find(t, unit).Some?
    ensures Find(t, unit).value > 0.0
  {
    FindEntry(t, unit);
  }

  /** Converting a unit to itself gives back the value (NaN aside, which `|| 0` already removed). */
  lemma LinearSameUnit(t: Table, unit: string, value: Num)
    requires Positive(t) && Find(t, unit).Some? && !value.NaN?
    ensures Linear(value, Find(t, unit), Find(t, unit)) == value
  {
    FactorPositive(t, unit);
  }

  /** Converting from a to b and the result back from b to a gives the value again. */
  lemma LinearRoundTrip(value: Num, f: real, g: real)
    requires f > 0.0 && g > 0.0 && !value.NaN?
    ensures !Linear(value, Some(f), Some(g)).NaN?
    ensures Linear(Linear(value, Some(f), Some(g)), Some(g), Some(f)) == value
  {
    if value.Finite? {
      var v := value.value;
      calc {
        v * f / g * g / f;
        == { DivideThenMultiply(v * f, g); }
        v * f / f;
        == { MultiplyThenDivide(v, f); }
        v;
      }
    }
  }

  lemma DivideThenMultiply(a: real, b: real)
    requires b != 0.0
    ensures a / b * b == a
  {
  }

  lemma MultiplyThenDivide(a: real, b: real)
    requires b != 0.0
    ensures a * b / b == a
  {
  }

  /** A unit the table does not hold is `undefined`, and the result is NaN. */
  lemma LinearMissingUnit(t: Table, from: string, to: string, value: Num)
    requires Find(t, from).None? || Find(t, to).None?
    ensures Linear(value, Find(t, from), Find(t, to)) == NaN
  {
  }

  /** One metre is a hundred centimetres; one hour is 3600 seconds. */
  lemma FactorExamples()
    ensures Linear(Finite(1.0), Find(Length, "м"), Find(Length, "см")) == Finite(100.0)
    ensures Linear(Finite(1.0), Find(Time, "час"), Find(Time, "сек")) == Finite(3600.0)
  {
  }

  /** `|| 0` leaves every number but NaN as it is. */
  lemma OrZeroKeeps(x: Num)
    requires !x.NaN?
    ensures OrZero(x) == x
  {
  }

  lemma CalculateLinear(host: Host, c: Category, from: string, to: string, input: Num, second: Num)
    requires LinearTable(c).Some?
    ensures Calculate(host, c, from, to, input, second)
         == Shown(Linear(OrZero(input), Find(LinearTable(c).value, from), Find(LinearTable(c).value, to)))
  {
  }

  /**
    A linear category converts a unit to itself unchanged, except that an input
    that is not a number is taken to be 0.
  */
  lemma ConvertSameUnit(host: Host, category: string, unit: string, fromText: string, toText: string)
    requires LinearTable(CategoryOf(category)).Some?
    requires Find(LinearTable(CategoryOf(category)).value, unit).Some?
    ensures Convert(host, category, unit, unit, fromText, toText)
         == Shown(if ParseFloat(fromText).NaN? then Finite(0.0) else ParseFloat(fromText))
  {
    var c := CategoryOf(category);
    TablesPositive(c);
    CalculateLinear(host, c, unit, unit, ParseFloat(fromText), ParseFloat(toText));
    LinearSameUnit(LinearTable(c).value, unit, OrZero(ParseFloat(fromText)));
  }

  /**
    Within a linear category, between two units of its table, the result is a
    number, and converting that number back gives the input (0 for an input that
    is not a number).
  */
  lemma LinearConvertRoundTrip(host: Host, c: Category, from: string, to: string, input: Num, second: Num, second2: Num)
    requires LinearTable(c).Some?
    requires Find(LinearTable(c).value, from).Some? && Find(LinearTable(c).value, to).Some?
    ensures Calculate(host, c, from, to, input, second).Shown?
    ensures !Calculate(host, c, from, to, input, second).value.NaN?
    ensures Calculate(host, c, to, from, Calculate(host, c, from, to, input, second).value, second2) == Shown(OrZero(input))
  {
    var t := LinearTable(c).value;
    TablesPositive(c);
    FactorPositive(t, from);
    FactorPositive(t, to);
    CalculateLinear(host, c, from, to, input, second);
    var r := Linear(OrZero(input), Find(t, from), Find(t, to));
    LinearRoundTrip(OrZero(input), Find(t, from).value, Find(t, to).value);
    OrZeroKeeps(r);
    CalculateLinear(host, c, to, from, r, second2);
  }

  /** A category the selector does not offer makes `units[type][from]` throw. */
  lemma UnknownCategoryThrows(host: Host, category: string, from: string, to: string, fromText: string, toText: string)
    requires CategoryOf(category) == Unknown
    ensures Convert(host, category, from, to, fromText, toText) == Thrown
  {
    UnknownThrows(host, from, to, ParseFloat(fromText), ParseFloat(toText));
  }

  lemma UnknownThrows(host: Host, from: string, to: string, input: Num, second: Num)
    ensures Calculate(host, Unknown, from, to, input, second) == Thrown
  {
  }

  // ---------------------------------------------------------------------
  // Temperature
  // ---------------------------------------------------------------------

  /** The six conversions between the three scales. */
  lemma TemperatureFormulas(x: real)
    ensures ConvertTemperature(Finite(x), Some(Celsius), Some(Fahrenheit)) == Some(Finite(x * 9.0 / 5.0 + 32.0))
    ensures ConvertTemperature(Finite(x), Some(Fahrenheit), Some(Celsius)) == Some(Finite((x - 32.0) * 5.0 / 9.0))
    ensures ConvertTemperature(Finite(x), Some(Celsius), Some(Kelvin)) == Some(Finite(x + 273.15))
    ensures ConvertTemperature(Finite(x), Some(Kelvin), Some(Celsius)) == Some(Finite(x - 273.15))
    ensures ConvertTemperature(Finite(x), Some(Fahrenheit), Some(Kelvin)) == Some(Finite((x - 32.0) * 5.0 / 9.0 + 273.15))
    ensures ConvertTemperature(Finite(x), Some(Kelvin), Some(Fahrenheit)) == Some(Finite((x - 273.15) * 9.0 / 5.0 + 32.0))
  {
  }

  /** Water freezes at 0 °C, which is 32 °F and 273.15 K; 273.15 K is back at 0 °C. */
  lemma FreezingPoint()
    ensures ConvertTemperature(Finite(0.0), Some(Celsius), Some(Fahrenheit)) == Some(Finite(32.0))
    ensures ConvertTemperature(Finite(0.0), Some(Celsius), Some(Kelvin)) == Some(Finite(273.15))
    ensures ConvertTemperature(Finite(273.15), Some(Kelvin), Some(Celsius)) == Some(Finite(0.0))
  {
  }

  /** Water boils at 100 °C, which is 212 °F. */
  lemma BoilingPoint()
    ensures ConvertTemperature(Finite(100.0), Some(Celsius), Some(Fahrenheit)) == Some(Finite(212.0))
  {
  }

  /** -40 is the same on the Celsius and Fahrenheit scales. */
  lemma MinusForty()
    ensures ConvertTemperature(Finite(-40.0), Some(Fahrenheit), Some(Celsius)) == Some(Finite(-40.0))
  {
  }

  lemma TemperatureRoundTripFinite(x: real, a: TempScale, b: TempScale)
    ensures ConvertTemperature(Finite(x), Some(a), Some(b)).Some?
    ensures ConvertTemperature(ConvertTemperature(Finite(x), Some(a), Some(b)).value, Some(b), Some(a)) == Some(Finite(x))
  {
    TemperatureFormulas(x);
    var y := ConvertTemperature(Finite(x), Some(a), Some(b)).value;
    TemperatureFormulas(y.value);
  }

  /** An infinite temperature stays the same infinity on every scale. */
  lemma TemperatureInfinite(v: Num, a: TempScale, b: TempScale)
    requires v == PosInf || v == NegInf
    ensures ConvertTemperature(v, Some(a), Some(b)) == Some(v)
  {
  }

  /** Between two known scales the conversion gives a number, and converting it back gives the input again. */
  lemma TemperatureRoundTrip(value: Num, a: TempScale, b: TempScale)
    requires !value.NaN?
    ensures ConvertTemperature(value, Some(a), Some(b)).Some?
    ensures !ConvertTemperature(value, Some(a), Some(b)).value.NaN?
    ensures ConvertTemperature(ConvertTemperature(value, Some(a), Some(b)).value, Some(b), Some(a)) == Some(value)
  {
    if value.Finite? {
      TemperatureRoundTripFinite(value.value, a, b);
    } else {
      TemperatureInfinite(value, a, b);
      TemperatureInfinite(value, b, a);
    }
  }

  lemma TemperatureSameScale(value: Num, a: TempScale)
    requires !value.NaN?
    ensures ConvertTemperature(value, Some(a), Some(a)) == Some(value)
  {
    if value.Finite? {
      TemperatureFormulas(value.value);
    } else {
      TemperatureInfinite(value, a, a);
    }
  }

  lemma CalculateTemperature(host: Host, from: string, to: string, input: Num, second: Num)
    ensures Calculate(host, TemperatureUnits, from, to, input, second)
         == Rendered(ConvertTemperature(OrZero(input), ScaleOf(from), ScaleOf(to)))
  {
  }

  /** The temperature panel between two known scales: converting the result back gives the input (0 for no number). */
  lemma TemperatureConvertRoundTrip(host: Host, from: string, to: string, input: Num, second: Num, second2: Num)
    requires ScaleOf(from).Some? && ScaleOf(to).Some?
    ensures Calculate(host, TemperatureUnits, from, to, input, second).Shown?
    ensures Calculate(host, TemperatureUnits, to, from, Calculate(host, TemperatureUnits, from, to, input, second).value, second2)
         == Shown(OrZero(input))
  {
    CalculateTemperature(host, from, to, input, second);
    TemperatureRoundTrip(OrZero(input), ScaleOf(from).value, ScaleOf(to).value);
    var r := ConvertTemperature(OrZero(input), ScaleOf(from), ScaleOf(to)).value;
    OrZeroKeeps(r);
    CalculateTemperature(host, to, from, r, second2);
  }

  /**
    An unknown target makes `convertTemperature` return `undefined` and `toFixed`
    throw; so does an unknown source with the Celsius target. An unknown source
    with another target computes with `undefined`, which is NaN.
  */
  lemma TemperatureUnknownUnits(host: Host, from: string, to: string, input: Num, second: Num)
    ensures ScaleOf(to).None? ==> Calculate(host, TemperatureUnits, from, to, input, second) == Thrown
    ensures ScaleOf(from).None? && ScaleOf(to) == Some(Celsius) ==> Calculate(host, TemperatureUnits, from, to, input, second) == Thrown
    ensures ScaleOf(from).None? && ScaleOf(to).Some? && ScaleOf(to) != Some(Celsius)
            ==> Calculate(host, TemperatureUnits, from, to, input, second) == Shown(NaN)
  {
  }

  // ---------------------------------------------------------------------
  // Discount and body-mass index
  // ---------------------------------------------------------------------

  /** The price less the given percentage of it: no discount keeps the price, a full one makes it 0. */
  lemma DiscountFormula(price: real, percent: real)
    ensures Discount(Finite(price), Finite(percent)) == Finite(price * (100.0 - percent) / 100.0)
    ensures Discount(Finite(price), Finite(0.0)) == Finite(price)
    ensures Discount(Finite(price), Finite(100.0)) == Finite(0.0)
  {
  }

  /** With a price and a discount that are numbers other than 0, the discounted price is shown. */
  lemma CalculateDiscount(host: Host, from: string, to: string, input: Num, second: Num)
    requires !Falsy(input) && !Falsy(second)
    ensures Calculate(host, DiscountCalc, from, to, input, second) == Shown(Discount(input, second))
  {
  }

  /**
    `|| 0` on the discount field: one that holds no number, or 0, counts as no
    discount; a price field that holds no number counts as 0.
  */
  lemma NoDiscount(input: Num, second: Num)
    requires Falsy(second)
    ensures input.Finite? ==> Discount(OrZero(input), OrZero(second)) == input
    ensures input.NaN? ==> Discount(OrZero(input), OrZero(second)) == Finite(0.0)
  {
  }

  /** The bands are the intervals below 18.5, [18.5, 25), [25, 30) and from 30 on. */
  lemma BandRanges(bmi: real)
    ensures BandOf(Finite(bmi)) == Underweight <==> bmi < 18.5
    ensures BandOf(Finite(bmi)) == Normal <==> 18.5 <= bmi < 25.0
    ensures BandOf(Finite(bmi)) == Overweight <==> 25.0 <= bmi < 30.0
    ensures BandOf(Finite(bmi)) == Obese <==> 30.0 <= bmi
  {
  }

  /** The weight over the square of the height: 70 kg at 1.75 m is about 22.86, a normal weight. */
  lemma BmiExample()
    ensures Bmi(Finite(70.0), Finite(1.75)) == Finite(70.0 / 3.0625)
    ensures BandOf(Bmi(Finite(70.0), Finite(1.75))) == Normal
  {
  }

  /** With a weight and a height that are numbers other than 0, the index is shown with its band. */
  lemma CalculateBmi(host: Host, from: string, to: string, input: Num, second: Num)
    requires !Falsy(input) && !Falsy(second)
    ensures Calculate(host, BmiCalc, from, to, input, second) == Banded(Bmi(input, second), BandOf(Bmi(input, second)))
  {
  }

  /** `|| 1` on the height field: one that holds no number, or 0, counts as 1 m, and the index is the weight itself. */
  lemma UnitHeight(weight: real, second: Num)
    requires Falsy(second)
    ensures Bmi(OrZero(Finite(weight)), OrOne(second)) == Finite(weight)
  {
    assert OrOne(second) == Finite(1.0);
    assert Mul(One, One) == One;
    assert OrZero(Finite(weight)) == Finite(weight);
  }

  // ---------------------------------------------------------------------
  // Numeral systems
  // ---------------------------------------------------------------------

  /** The four systems are 10, 2, 8 and 16, under their names. */
  lemma NumeralNames()
    ensures Find(NumeralBases, "DEC") == Some(10) && Find(NumeralBases, "BIN") == Some(2)
    ensures Find(NumeralBases, "OCT") == Some(8) && Find(NumeralBases, "HEX") == Some(16)
  {
  }

  /** `parseInt(s)` without a radix reads decimal digits as `parseInt(s, 10)` does. */
  lemma ParseIntDecimal(s: string)
    requires s != [] && AllDigits(s, 10)
    ensures ParseInt(s, 0) == ParseInt(s, 10)
  {
    if |s| >= 2 && s[0] == '0' {
      assert DigitValue(s[1]) < 10;
    }
  }

  /**
    Into the decimal system, the converter reads the decimal digits of the input
    number as digits of the source radix: "101" from binary gives 5.
  */
  lemma NumeralReadsDigits(host: Host, n: nat, r: Radix)
    requires RendersIntegers(host) && (n as real) < PlainIntegerLimit
    requires AllDigits(NatToString(n, 10), r)
    ensures NumeralIn(host, Finite(n as real), Some(r), Some(10))
         == Decimal(Finite(ValueOf(NatToString(n, 10), r) as real))
  {
    var s := NatToString(n, 10);
    NatToStringDigits(n, 10);
    assert Show(host, Finite(n as real)) == s by {
      assert (n as real).Floor == n;
    }
    ParseIntOfDigits(s, r);
    if r == 10 {
      ParseIntDecimal(s);
    }
  }

  lemma CalculateNumeral(host: Host, from: string, to: string, input: Num, second: Num)
    ensures Calculate(host, NumeralUnits, from, to, input, second)
         == match NumeralIn(host, OrZero(input), Find(NumeralBases, from), Find(NumeralBases, to))
            case Decimal(x) => Shown(x)
            case Digits(_) => Thrown
  {
  }

  /** The same, from the text fields: a number typed in decimal digits is read in the source radix. */
  lemma ConvertReadsDigits(host: Host, category: string, n: nat, from: string, to: string, toText: string)
    requires RendersIntegers(host) && (n as real) < PlainIntegerLimit && CategoryOf(category) == NumeralUnits
    requires Find(NumeralBases, from).Some? && Find(NumeralBases, to) == Some(10)
    requires AllDigits(NatToString(n, 10), Find(NumeralBases, from).value)
    ensures Convert(host, category, from, to, NatToString(n, 10), toText)
         == Shown(Finite(ValueOf(NatToString(n, 10), Find(NumeralBases, from).value) as real))
  {
    DecimalDigitsParse(n);
    CalculateNumeral(host, from, to, ParseFloat(NatToString(n, 10)), ParseFloat(toText));
    OrZeroKeeps(Finite(n as real));
    NumeralReadsDigits(host, n, Find(NumeralBases, from).value);
  }

  /**
    As written, every target other than the decimal system makes `convertNumeral`
    return a string, and `toFixed` on it throws: such conversions never show a result.
  */
  lemma NumeralTargetThrows(host: Host, category: string, from: string, to: string, fromText: string, toText: string)
    requires CategoryOf(category) == NumeralUnits && Find(NumeralBases, to) != Some(10)
    ensures Convert(host, category, from, to, fromText, toText) == Thrown
  {
    CalculateNumeral(host, from, to, ParseFloat(fromText), ParseFloat(toText));
  }

  /** `parseFloat` finds no number in a text that starts with a letter other than the `I` of `Infinity`. */
  lemma ParseFloatOfLetter(text: string)
    requires text != [] && 10 <= DigitValue(text[0]) < 36 && text[0] != 'I'
    ensures ParseFloat(text) == NaN
  {
    assert !IsSpace(text[0]);
    assert TrimStart(text) == text;
    assert DigitRun(text, 10) == 0;
    assert ScanMantissa(text).None?;
    assert "Infinity"[0] == 'I';
    assert !StartsWith(text, "Infinity");
  }

  /**
    As written, a hexadecimal input that starts with a letter ("FF") is first
    read by `parseFloat`, which finds no number; `|| 0` makes it 0, and the
    conversion to decimal shows 0.
  */
  lemma HexLettersLost(host: Host, category: string, from: string, to: string, text: string, toText: string)
    requires RendersIntegers(host) && CategoryOf(category) == NumeralUnits
    requires Find(NumeralBases, from) == Some(16) && Find(NumeralBases, to) == Some(10)
    requires text != [] && 10 <= DigitValue(text[0]) < 16
    ensures Convert(host, category, from, to, text, toText) == Shown(Finite(0.0))
  {
    ParseFloatOfLetter(text);
    CalculateNumeral(host, from, to, ParseFloat(text), ParseFloat(toText));
    assert NatToString(0, 10) == "0";
    NumeralReadsDigits(host, 0, 16);
  }

  lemma RewriteOf(s: string, n: nat, r1: Radix, r2: Radix)
    requires ParseInt(s, r1) == Some(n)
    ensures Rewrite(s, r1, r2) == Some(ToUpper(NatToString(n, r2)))
  {
  }

  lemma RewriteDigits(n: nat, r1: Radix, r2: Radix)
    ensures Rewrite(ToUpper(NatToString(n, r1)), r1, r2) == Some(ToUpper(NatToString(n, r2)))
  {
    NatToStringParseInt(n, r1);
    RewriteOf(ToUpper(NatToString(n, r1)), n, r1, r2);
  }

  /**
    A number written in one system and rewritten in another is that number
    written in the other system, in upper case; rewriting it back gives the
    original text.
  */
  lemma RewriteRoundTrip(n: nat, r1: Radix, r2: Radix)
    ensures Rewrite(ToUpper(NatToString(n, r1)), r1, r2) == Some(ToUpper(NatToString(n, r2)))
    ensures Rewrite(ToUpper(NatToString(n, r2)), r2, r1) == Some(ToUpper(NatToString(n, r1)))
  {
    RewriteDigits(n, r1, r2);
    RewriteDigits(n, r2, r1);
  }

  /** The same on the selector's names. */
  lemma NumeralTextRoundTrip(n: nat, from: string, to: string)
    requires Find(NumeralBases, from).Some? && Find(NumeralBases, to).Some?
    ensures var r1 := Find(NumeralBases, from).value;
            var r2 := Find(NumeralBases, to).value;
            && ConvertNumeralText(ToUpper(NatToString(n, r1)), from, to) == Some(ToUpper(NatToString(n, r2)))
            && ConvertNumeralText(ToUpper(NatToString(n, r2)), to, from) == Some(ToUpper(NatToString(n, r1)))
  {
    RewriteRoundTrip(n, Find(NumeralBases, from).value, Find(NumeralBases, to).value);
  }

  /** "FF" in hexadecimal is 255 in decimal. */
  lemma HexTextExample()
    ensures ConvertNumeralText("FF", "HEX", "DEC") == Some("255")
  {
    assert Find(NumeralBases, "HEX") == Some(16) && Find(NumeralBases, "DEC") == Some(10);
    RewriteDigits(255, 16, 10);
    NatToStringStep(255, 16);
    assert NatToString(255, 16) == "ff";
    assert ToUpper("ff") == "FF";
    NatToStringStep(255, 10);
    NatToStringStep(25, 10);
    assert NatToString(255, 10) == "255";
    assert ToUpper("255") == "255";
    assert Rewrite("FF", 16, 10) == Some("255");
    assert ConvertNumeralText("FF", "HEX", "DEC") == Rewrite("FF", 16, 10);
  }
}
