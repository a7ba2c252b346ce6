/**
  The calculator's operand state and its transitions, one pure function per
  method of the `Calculator` class. Each transition takes the whole state,
  history included, and returns the state the method leaves behind; a method
  that returns early gives back its input unchanged.
*/
module CalculatorModel {
  import opened Wrappers
  import opened Numbers
  import Ledger

  /**
    `currentOperand`, `previousOperand`, `operation` (the operator button's token,
    None for `null`), `shouldResetScreen` and `history`.
  */
  datatype State = State(current: string, previous: string, operation: Option<string>, reset: bool, history: seq<string>)

  /** What the constructor sets up (before the saved history is loaded). */
  const Initial: State := State("0", "", None, false, [])

  /** `Math.PI` and `Math.E`, written as the shortest decimals that round to them. */
  const Pi: real := 3.141592653589793
  const E: real := 2.718281828459045

  /** The four arithmetic cases of the `switch` in `compute`. */
  datatype Op = Plus | Minus | Times | Divide

  /** Which case of the `switch` an operation token selects; None is the `default` case. */
  function OpOf(token: Option<string>): (r: Option<Op>)
    ensures r.Some? <==> token.Some? && token.value in {"+", "-", "*", "/"}
  {
    match token
    case None => None
    case Some(t) =>
      if t == "+" then Some(Plus)
      else if t == "-" then Some(Minus)
      else if t == "*" then Some(Times)
      else if t == "/" then Some(Divide)
      else None
  }

  function Apply(op: Op, x: Num, y: Num): Num {
    match op
    case Plus => Add(x, y)
    case Minus => Sub(x, y)
    case Times => Mul(x, y)
    case Divide => Div(x, y)
  }

  /** `appendNumber(number)`. */
  function AppendNumber(s: State, number: string): State {
    if number == "." && '.' in s.current then s
    else
      var start := if s.reset then "" else s.current;
      s.(current := if start == "0" && number != "." then number else start + number, reset := false)
  }

  /** `compute()`: evaluation happens only when both operands parse and the operation is one of the four. */
  predicate Computes(s: State) {
    !ParseFloat(s.previous).NaN? && !ParseFloat(s.current).NaN? && OpOf(s.operation).Some?
  }

  /** The number `compute` works out when `Computes(s)` holds. */
  function Computation(s: State): Num
    requires Computes(s)
  {
    Apply(OpOf(s.operation).value, ParseFloat(s.previous), ParseFloat(s.current))
  }

  /** The text `compute` records as the expression: previous, operation and current joined by spaces. */
  function Expression(s: State): string {
    s.previous + " " + s.operation.GetOr("null") + " " + s.current
  }

  /** `compute()`. */
  function Compute(host: Host, s: State): State {
    if !Computes(s) then s
    else
      var result := Computation(s);
      State(Show(host, result), "", None, true, Ledger.Add(s.history, Ledger.Entry(Expression(s), Show(host, result))))
  }

  /** `chooseOperation(operation)`. */
  function ChooseOperation(host: Host, s: State, operation: string): State {
    if s.current == "" then s
    else
      var t := if s.previous != "" then Compute(host, s) else s;
      t.(operation := Some(operation), previous := t.current, reset := true)
  }

  /** `clear()`: `shouldResetScreen` and the history are left as they are. */
  function Clear(s: State): State {
    s.(current := "0", previous := "", operation := None)
  }

  /** `delete()`: `slice(0, -1)` of an empty string is the empty string. */
  function Delete(s: State): State {
    var c := s.current;
    s.(current := if |c| == 1 then "0" else if c == [] then [] else c[..|c| - 1])
  }

  /** `percent()`. */
  function Percent(host: Host, s: State): State {
    var x := ParseFloat(s.current);
    if x.NaN? then s else s.(current := Show(host, Div(x, Hundred)))
  }

  /** The cases of the `switch` in `scientificFunction`; `Other` is the `default` case. */
  datatype Sci = Sin | Cos | Tan | Ln | Log | Sqrt | PiKey | EKey | Square | Paren | Other

  /** Which case of the `switch` a function name selects. */
  function SciOf(name: string): Sci {
    if name == "sin" then Sin
    else if name == "cos" then Cos
    else if name == "tan" then Tan
    else if name == "ln" then Ln
    else if name == "log" then Log
    else if name == "sqrt" then Sqrt
    else if name == "pi" then PiKey
    else if name == "e" then EKey
    else if name == "pow" then Square
    else if name == "paren" then Paren
    else Other
  }

  /** The cases that compute a value from the operand. */
  predicate Computing(f: Sci) {
    f in {Sin, Cos, Tan, Ln, Log, Sqrt, Square}
  }

  /** The value a computing case works out from the operand. */
  function Scientific(host: Host, f: Sci, x: Num): Num
    requires Computing(f)
  {
    match f
    case Sin => Trig(host.sinDeg, x)
    case Cos => Trig(host.cosDeg, x)
    case Tan => Trig(host.tanDeg, x)
    case Ln => Logarithm(host.ln, x)
    case Log => Logarithm(host.log10, x)
    case Sqrt => SquareRoot(host.sqrt, x)
    case Square => Mul(x, x)
  }

  /** `scientificFunction(func)`. */
  function ScientificFunction(host: Host, s: State, name: string): State {
    var f := SciOf(name);
    match f
    case PiKey => s.(current := Show(host, Finite(Pi)))
    case EKey => s.(current := Show(host, Finite(E)))
    case Paren => AppendNumber(s, "(")
    case Other => s
    case _ =>
      var r := Scientific(host, f, ParseFloat(s.current));
      if r.NaN? then s else s.(current := Show(host, r), reset := true)
  }

  /** The history's clear button. */
  function ClearHistory(s: State): State {
    s.(history := [])
  }

  /** The button presses the calculator reacts to. */
  datatype Event =
    | Digit(token: string)
    | Operator(token: string)
    | Equals
    | ClearAll
    | Backspace
    | PercentKey
    | Function(name: string)
    | ClearLog

  function Step(host: Host, s: State, e: Event): State {
    match e
    case Digit(t) => AppendNumber(s, t)
    case Operator(t) => ChooseOperation(host, s, t)
    case Equals => Compute(host, s)
    case ClearAll => Clear(s)
    case Backspace => Delete(s)
    case PercentKey => Percent(host, s)
    case Function(name) => ScientificFunction(host, s, name)
    case ClearLog => ClearHistory(s)
  }

  function Run(host: Host, s: State, es: seq<Event>): State
    decreases |es|
  {
    if es == [] then s else Run(host, Step(host, s, es[0]), es[1..])
  }

  /**
    The tokens the keypad's buttons carry: a number button carries a single
    digit or `.`, an operator button one of the four operators.
  */
  predicate KeypadEvent(e: Event) {
    match e
    case Digit(t) => |t| == 1 && ('0' <= t[0] <= '9' || t[0] == '.')
    case Operator(t) => t in {"+", "-", "*", "/"}
    case _ => true
  }

  /**
    What every sequence of keypad presses keeps true: the history holds at most
    fifty lines, the operand is never empty and holds at most one `.`, an
    operation is pending exactly when there is a previous operand, and a pending
    operation is one `compute` knows.
  */
  predicate Invariant(s: State) {
    && |s.history| <= Ledger.Capacity
    && s.current != ""
    && Count(s.current, '.') <= 1
    && (s.previous == "" <==> s.operation.None?)
    && (s.operation.Some? ==> OpOf(s.operation).Some?)
  }
}
