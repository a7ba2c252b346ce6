/** What the calculator's transitions guarantee, alone and in sequence. */
module CalculatorProperties {
  import opened Wrappers
  import opened Numbers
  import Ledger
  import opened CalculatorModel

  // ---------------------------------------------------------------------
  // appendNumber
  // ---------------------------------------------------------------------

  /**
    A `.` is ignored whenever the operand already holds one, even with a reset
    pending (the flag then stays set). Any other token clears the flag; it
    replaces the operand when a reset was pending or the operand is `"0"`
    (unless the token is `.`), and is appended otherwise.
  */
  lemma AppendNumberRules(s: State, number: string)
    ensures var t := AppendNumber(s, number);
            && (number == "." && '.' in s.current ==> t == s)
            && (!(number == "." && '.' in s.current) ==>
                  && !t.reset
                  && t.previous == s.previous && t.operation == s.operation && t.history == s.history
                  && t.current == (if s.reset || (s.current == "0" && number != ".") then number else s.current + number))
  {
    if !(number == "." && '.' in s.current) && s.reset {
      assert [] + number == number;
    }
  }

  /** Entering a digit or `.` never gives the operand a second `.`. */
  lemma AppendKeepsOneDot(s: State, number: string)
    requires Count(s.current, '.') <= 1
    requires number == "." || '.' !in number
    ensures Count(AppendNumber(s, number).current, '.') <= 1
  {
    if !(number == "." && '.' in s.current) {
      var start := if s.reset then "" else s.current;
      if start == "0" && number != "." {
        CountAbsent(number, '.');
      } else {
        CountConcat(start, number, '.');
        if number == "." {
          CountAbsent(s.current, '.');
          assert Count(number, '.') == 1;
        } else {
          CountAbsent(number, '.');
        }
      }
    }
  }

  /** Without a pending reset, `delete` takes back the single character just entered. */
  lemma AppendThenDelete(s: State, number: string)
    requires !s.reset && s.current != "" && |number| == 1
    requires !(number == "." && '.' in s.current)
    ensures Delete(AppendNumber(s, number)) == s
  {
    if !(s.current == "0" && number != ".") {
      var c := s.current + number;
      assert c[..|c| - 1] == s.current;
    }
  }

  // ---------------------------------------------------------------------
  // compute
  // ---------------------------------------------------------------------

  /**
    `compute` changes the state exactly when both operands parse and the
    operation is one of `+ - * /`; an empty previous operand never parses. When
    it computes it records exactly one line, `"<prev> <op> <cur> = <result>"`,
    makes the result the operand and clears the pending operation.
  */
  lemma ComputeChangesIffComputes(host: Host, s: State)
    ensures s.previous == "" ==> !Computes(s)
    ensures Compute(host, s) != s <==> Computes(s)
    ensures Computes(s) ==>
              var t := Compute(host, s);
              && t.current == Show(host, Computation(s)) && t.previous == "" && t.operation.None? && t.reset
              && |t.history| == (if |s.history| < Ledger.Capacity then |s.history| + 1 else |s.history|)
              && t.history[|t.history| - 1] == s.previous + " " + s.operation.value + " " + s.current + " = " + Show(host, Computation(s))
  {
    ParseFloatEmpty();
    ComputeChanges(host, s);
    if Computes(s) {
      ComputeRecords(host, s);
    }
  }

  lemma ComputeChanges(host: Host, s: State)
    ensures Compute(host, s) != s <==> Computes(s)
  {
    ParseFloatEmpty();
  }

  lemma ComputeRecords(host: Host, s: State)
    requires Computes(s)
    ensures var t := Compute(host, s);
            && t.current == Show(host, Computation(s)) && t.previous == "" && t.operation.None? && t.reset
            && |t.history| == (if |s.history| < Ledger.Capacity then |s.history| + 1 else |s.history|)
            && t.history[|t.history| - 1] == s.previous + " " + s.operation.value + " " + s.current + " = " + Show(host, Computation(s))
  {
    ComputeEffect(host, s);
  }

  lemma ComputeEffect(host: Host, s: State)
    requires Computes(s)
    ensures var r := Show(host, Computation(s));
            Compute(host, s) == State(r, "", None, true, Ledger.Add(s.history, s.previous + " " + s.operation.value + " " + s.current + " = " + r))
  {
  }

  /** Pressing an operator a second time computes the operand with itself. */
  lemma OperatorTwice(host: Host, s: State, op: string)
    requires s.previous == "" && s.current != "" && !ParseFloat(s.current).NaN?
    requires op in {"+", "-", "*", "/"}
    ensures var x := ParseFloat(s.current);
            var r := Apply(OpOf(Some(op)).value, x, x);
            ChooseOperation(host, ChooseOperation(host, s, op), op) ==
              State(Show(host, r), Show(host, r), Some(op), true,
                    Ledger.Add(s.history, s.current + " " + op + " " + s.current + " = " + Show(host, r)))
  {
    var t := ChooseOperation(host, s, op);
    assert t == s.(operation := Some(op), previous := s.current, reset := true);
    assert Computes(t);
  }

  // ---------------------------------------------------------------------
  // Worked examples
  // ---------------------------------------------------------------------

  /** `compute` on operands that parse as `x` and `y`. */
  lemma ComputeOf(host: Host, s: State, x: Num, y: Num, op: Op)
    requires ParseFloat(s.previous) == x && ParseFloat(s.current) == y && !x.NaN? && !y.NaN?
    requires OpOf(s.operation) == Some(op)
    ensures Compute(host, s) ==
              State(Show(host, Apply(op, x, y)), "", None, true,
                    Ledger.Add(s.history, Ledger.Entry(Expression(s), Show(host, Apply(op, x, y)))))
    ensures HostValid(host) && Invariant(s) ==> Invariant(Compute(host, s))
  {
    if HostValid(host) && Invariant(s) {
      ComputeKeepsInvariant(host, s);
    }
  }

  /**
    The calculator as the constructor and `clear` leave it (the history and the
    reset flag aside: `clear` keeps the flag).
  */
  predicate Cleared(s: State) {
    s.current == "0" && s.previous == "" && s.operation.None?
  }

  /**
    Chained evaluation: from a cleared calculator, `a + b +` computes the first
    sum, records it, and leaves the sum pending as the left operand of the next
    `+` (for instance `2 + 3 +` shows `5`, keeps `5` as the left operand and
    records `"2 + 3 = 5"`).
  */
  lemma ChainedOperators(host: Host, s: State, A: string, B: string)
    requires Cleared(s)
    requires A != "" && A != "." && B != "."
    requires !ParseFloat(A).NaN? && !ParseFloat(B).NaN?
    ensures var S := Show(host, Add(ParseFloat(A), ParseFloat(B)));
            Run(host, s, [Digit(A), Operator("+"), Digit(B), Operator("+")]) ==
              State(S, S, Some("+"), true, Ledger.Add(s.history, A + " + " + B + " = " + S))
  {
    RunFour(host, s, Digit(A), Operator("+"), Digit(B), Operator("+"));
    FirstOperand(s, A);
    var s1 := s.(current := A, reset := false);
    FirstOperator(host, s1);
    var s2 := s1.(operation := Some("+"), previous := A, reset := true);
    SecondOperand(s2, B);
    var s3 := s2.(current := B, reset := false);
    ParseFloatEmpty();
    SecondPlus(host, s3);
  }

  /** On a cleared calculator the first token replaces the `"0"`. */
  lemma FirstOperand(s: State, A: string)
    requires Cleared(s) && A != "."
    ensures AppendNumber(s, A) == s.(current := A, reset := false)
  {
    assert [] + A == A;
  }

  /** The first operator moves the operand to the left without computing. */
  lemma FirstOperator(host: Host, s: State)
    requires s.previous == "" && s.current != ""
    ensures ChooseOperation(host, s, "+") == s.(operation := Some("+"), previous := s.current, reset := true)
  {
  }

  /** After an operator, the next token starts a new operand. */
  lemma SecondOperand(s: State, B: string)
    requires s.reset && B != "."
    ensures AppendNumber(s, B) == s.(current := B, reset := false)
  {
    assert [] + B == B;
  }

  /** Four presses, one after the other. */
  lemma RunFour(host: Host, s: State, e1: Event, e2: Event, e3: Event, e4: Event)
    ensures Run(host, s, [e1, e2, e3, e4]) == Step(host, Step(host, Step(host, Step(host, s, e1), e2), e3), e4)
  {
    var es := [e1, e2, e3, e4];
    var s1 := Step(host, s, e1);
    var s2 := Step(host, s1, e2);
    var s3 := Step(host, s2, e3);
    RunOne(host, s3, e4);
    RunCons(host, s2, e3, [e4]);
    RunCons(host, s1, e2, [e3, e4]);
    RunCons(host, s, e1, [e2, e3, e4]);
    assert [e1] + ([e2] + ([e3] + [e4])) == es;
  }

  lemma RunCons(host: Host, s: State, e: Event, es: seq<Event>)
    ensures Run(host, s, [e] + es) == Run(host, Step(host, s, e), es)
  {
    assert ([e] + es)[1..] == es;
  }

  lemma RunOne(host: Host, s: State, e: Event)
    ensures Run(host, s, [e]) == Step(host, s, e)
  {
    assert [e][1..] == [];
  }

  /** The second `+` computes the pending sum and keeps it as the next left operand. */
  lemma SecondPlus(host: Host, s: State)
    requires s.operation == Some("+") && s.current != ""
    requires !ParseFloat(s.previous).NaN? && !ParseFloat(s.current).NaN?
    ensures var S := Show(host, Add(ParseFloat(s.previous), ParseFloat(s.current)));
            ChooseOperation(host, s, "+") ==
              State(S, S, Some("+"), true, Ledger.Add(s.history, s.previous + " + " + s.current + " = " + S))
  {
    var S := Show(host, Add(ParseFloat(s.previous), ParseFloat(s.current)));
    ParseFloatEmpty();
    assert s.previous != "";
    ComputeOf(host, s, ParseFloat(s.previous), ParseFloat(s.current), Plus);
    var line := Ledger.Entry(Expression(s), S);
    assert Expression(s) == s.previous + " " + "+" + " " + s.current;
    PlusLine(s.previous, s.current, S);
    var t := State(S, "", None, true, Ledger.Add(s.history, line));
    assert Compute(host, s) == t;
    assert ChooseOperation(host, s, "+") == t.(operation := Some("+"), previous := t.current, reset := true);
  }

  lemma PlusLine(A: string, B: string, S: string)
    ensures Ledger.Entry(A + " " + "+" + " " + B, S) == A + " + " + B + " = " + S
  {
    assert " " + "+" + " " == " + ";
  }

  // ---------------------------------------------------------------------
  // clear, delete, percent
  // ---------------------------------------------------------------------

  /**
    `clear` empties the operands and the pending operation but keeps the reset
    flag and the history; so a `.` entered right after clearing a result starts
    a fresh `.` operand rather than `0.`.
  */
  lemma ClearKeepsResetFlag(s: State)
    ensures var t := Clear(s);
            && t.current == "0" && t.previous == "" && t.operation.None?
            && t.reset == s.reset && t.history == s.history
    ensures AppendNumber(Clear(s), ".").current == (if s.reset then "." else "0.")
    ensures Cleared(Clear(s))
  {
  }

  /**
    `delete` turns a one-character operand into `"0"` and otherwise drops the
    last character; it touches nothing else and never adds a `.`.
  */
  lemma DeleteRules(s: State)
    ensures var t := Delete(s);
            && t.previous == s.previous && t.operation == s.operation && t.reset == s.reset && t.history == s.history
            && (|s.current| == 1 ==> t.current == "0")
            && (|s.current| != 1 ==> t.current == s.current[..|s.current| - (if s.current == [] then 0 else 1)])
            && Count(t.current, '.') <= Count(s.current, '.')
  {
    var c := s.current;
    if |c| > 1 {
      CountPrefix(c, |c| - 1, '.');
    }
  }

  /** `percent` keeps an operand that does not parse. */
  lemma PercentKeepsUnparsed(host: Host, s: State)
    requires ParseFloat(s.current).NaN?
    ensures Percent(host, s) == s
  {
  }

  /**
    `percent` divides a parsed operand by a hundred and leaves the reset flag
    and everything else alone.
  */
  lemma PercentDivides(host: Host, s: State, x: real)
    requires ParseFloat(s.current) == Finite(x)
    ensures Percent(host, s) == s.(current := Show(host, Finite(x / 100.0)))
  {
  }

  /** A hundredth of `Infinity` is `Infinity`. */
  lemma PercentOfInfinity(host: Host, s: State)
    requires ParseFloat(s.current) == PosInf
    ensures Percent(host, s) == s.(current := "Infinity")
  {
  }

  // ---------------------------------------------------------------------
  // scientificFunction
  // ---------------------------------------------------------------------

  /** Only the ten names of the switch select a case. */
  lemma KnownNames(name: string)
    ensures SciOf(name) != Other <==> name in {"sin", "cos", "tan", "ln", "log", "sqrt", "pi", "e", "pow", "paren"}
  {
  }

  /**
    A name the switch does not know changes nothing; `pi` and `e` overwrite the
    operand without setting the reset flag; `paren` is `appendNumber('(')`.
  */
  lemma NonComputingNames(host: Host, s: State, name: string)
    ensures SciOf(name) == Other ==> ScientificFunction(host, s, name) == s
    ensures SciOf(name) == PiKey ==> ScientificFunction(host, s, name) == s.(current := Show(host, Finite(Pi)))
    ensures SciOf(name) == EKey ==> ScientificFunction(host, s, name) == s.(current := Show(host, Finite(E)))
    ensures SciOf(name) == Paren ==> ScientificFunction(host, s, name) == AppendNumber(s, "(")
  {
  }

  /**
    A computing function replaces the operand and sets the reset flag unless its
    result is NaN, in which case nothing changes; infinities are kept.
  */
  lemma ComputedResult(host: Host, s: State, name: string)
    requires Computing(SciOf(name))
    ensures var r := Scientific(host, SciOf(name), ParseFloat(s.current));
            ScientificFunction(host, s, name) == if r.NaN? then s else s.(current := Show(host, r), reset := true)
  {
  }

  /**
    `ln` and `log` of an operand that reads as zero are `-Infinity`, which is
    not NaN and so is kept.
  */
  lemma LogOfZeroKept(host: Host, s: State, name: string)
    requires SciOf(name) == Ln || SciOf(name) == Log
    requires ParseFloat(s.current) == Zero
    ensures ScientificFunction(host, s, name) == s.(current := "-Infinity", reset := true)
  {
    ComputedResult(host, s, name);
    assert Scientific(host, SciOf(name), Zero) == NegInf;
  }

  /**
    The square root and the logarithms of a negative operand, `-Infinity`
    included, are NaN, so the operand is kept and nothing changes.
  */
  lemma NegativeOperandDiscarded(host: Host, s: State, name: string)
    requires SciOf(name) == Sqrt || SciOf(name) == Ln || SciOf(name) == Log
    requires Less(ParseFloat(s.current), Zero)
    ensures ScientificFunction(host, s, name) == s
  {
    ComputedResult(host, s, name);
  }

  // ---------------------------------------------------------------------
  // The invariant
  // ---------------------------------------------------------------------

  lemma ShowWellFormed(host: Host, x: Num)
    requires HostValid(host)
    ensures Show(host, x) != "" && Count(Show(host, x), '.') <= 1
  {
    match x
    case Finite(a) =>
    case PosInf => assert Count("Infinity", '.') == 0;
    case NegInf => assert Count("-Infinity", '.') == 0;
    case NaN => assert Count("NaN", '.') == 0;
  }

  lemma ComputeKeepsInvariant(host: Host, s: State)
    requires HostValid(host) && Invariant(s)
    ensures Invariant(Compute(host, s))
  {
    if Computes(s) {
      ShowWellFormed(host, Computation(s));
    }
  }

  lemma AppendKeepsInvariant(s: State, number: string)
    requires Invariant(s) && number != "" && (number == "." || '.' !in number)
    ensures Invariant(AppendNumber(s, number))
  {
    AppendKeepsOneDot(s, number);
  }

  lemma ChooseKeepsInvariant(host: Host, s: State, op: string)
    requires HostValid(host) && Invariant(s) && KeypadEvent(Operator(op))
    ensures Invariant(ChooseOperation(host, s, op))
  {
    if s.previous != "" {
      ComputeKeepsInvariant(host, s);
    }
  }

  lemma DeleteKeepsInvariant(s: State)
    requires Invariant(s)
    ensures Invariant(Delete(s))
  {
    DeleteRules(s);
    assert Count("0", '.') == 0;
  }

  lemma PercentKeepsInvariant(host: Host, s: State)
    requires HostValid(host) && Invariant(s)
    ensures Invariant(Percent(host, s))
  {
    ShowWellFormed(host, Div(ParseFloat(s.current), Hundred));
  }

  /** Any non-empty operand with at most one `.` keeps the invariant. */
  lemma OperandKeepsInvariant(s: State, text: string, reset: bool)
    requires Invariant(s) && text != "" && Count(text, '.') <= 1
    ensures Invariant(s.(current := text, reset := reset))
  {
  }

  lemma ScientificKeepsInvariant(host: Host, s: State, name: string)
    requires HostValid(host) && Invariant(s)
    ensures Invariant(ScientificFunction(host, s, name))
  {
    var f := SciOf(name);
    if f == PiKey {
      ShowWellFormed(host, Finite(Pi));
      OperandKeepsInvariant(s, Show(host, Finite(Pi)), s.reset);
    } else if f == EKey {
      ShowWellFormed(host, Finite(E));
      OperandKeepsInvariant(s, Show(host, Finite(E)), s.reset);
    } else if f == Paren {
      AppendKeepsInvariant(s, "(");
    } else if Computing(f) {
      var r := Scientific(host, f, ParseFloat(s.current));
      if !r.NaN? {
        ShowWellFormed(host, r);
        OperandKeepsInvariant(s, Show(host, r), true);
      }
    }
  }

  lemma ClearKeepsInvariant(s: State)
    requires Invariant(s)
    ensures Invariant(Clear(s))
  {
    assert Count("0", '.') == 0;
  }

  /** Every keypad press keeps the invariant. */
  lemma StepKeepsInvariant(host: Host, s: State, e: Event)
    requires HostValid(host) && Invariant(s) && KeypadEvent(e)
    ensures Invariant(Step(host, s, e))
  {
    match e
    case Digit(t) =>
      assert t == "." || '.' !in t;
      AppendKeepsInvariant(s, t);
    case Operator(t) => ChooseKeepsInvariant(host, s, t);
    case Equals => ComputeKeepsInvariant(host, s);
    case ClearAll => ClearKeepsInvariant(s);
    case Backspace => DeleteKeepsInvariant(s);
    case PercentKey => PercentKeepsInvariant(host, s);
    case Function(name) => ScientificKeepsInvariant(host, s, name);
    case ClearLog =>
  }

  /**
    However the keypad is pressed, the history stays within fifty lines, the
    operand is non-empty with at most one `.`, and an operation is pending
    exactly when a previous operand is held.
  */
  lemma {:induction false} RunKeepsInvariant(host: Host, s: State, es: seq<Event>)
    requires HostValid(host) && Invariant(s)
    requires forall i :: 0 <= i < |es| ==> KeypadEvent(es[i])
    ensures Invariant(Run(host, s, es))
    decreases |es|
  {
    if es != [] {
      StepKeepsInvariant(host, s, es[0]);
      RunKeepsInvariant(host, Step(host, s, es[0]), es[1..]);
    }
  }

  lemma InitialInvariant()
    ensures Invariant(Initial)
  {
    assert Count("0", '.') == 0;
  }
}
