/**
  The `Calculator` class: the operand fields and the history list, updated in
  place by the button handlers. Each method is proved to leave the fields as the
  matching transition of `CalculatorModel` says.
*/
module CalculatorEngine {
  import opened Wrappers
  import opened Numbers
  import Ledger
  import M = CalculatorModel
  import CalculatorProperties

  class Calculator {
    var currentOperand: string
    var previousOperand: string
    var operation: Option<string>
    var shouldResetScreen: bool
    var history: seq<string>

    /** The JavaScript engine's `toString` and `Math` functions. */
    const host: Host

    /** The fields as one value. */
    function Snapshot(): M.State
      reads this
    {
      M.State(currentOperand, previousOperand, operation, shouldResetScreen, history)
    }

    /** The invariant keypad presses keep, on an engine that renders numbers as ECMA-262 says. */
    ghost predicate Valid()
      reads this
    {
      HostValid(host) && M.Invariant(Snapshot())
    }

    constructor (host: Host)
      ensures this.host == host
      ensures Snapshot() == M.Initial
      ensures HostValid(host) ==> Valid()
    {
      this.host := host;
      currentOperand := "0";
      previousOperand := "";
      operation := None;
      shouldResetScreen := false;
      history := [];
      new;
      CalculatorProperties.InitialInvariant();
    }

    /** `appendNumber(number)`. */
    method AppendNumber(number: string)
      modifies this
      ensures Snapshot() == M.AppendNumber(old(Snapshot()), number)
      ensures old(Valid()) && M.KeypadEvent(M.Digit(number)) ==> Valid()
    {
      ghost var before := Snapshot();
      if number == "." && '.' in currentOperand {
        return;
      }
      if shouldResetScreen {
        currentOperand := "";
        shouldResetScreen := false;
      }
      if currentOperand == "0" && number != "." {
        currentOperand := number;
      } else {
        currentOperand := currentOperand + number;
      }
      if M.Invariant(before) && number != "" && (number == "." || '.' !in number) {
        CalculatorProperties.AppendKeepsInvariant(before, number);
      }
    }

    /** `addToHistory(expression, result)`: push, then shift once past fifty. */
    method AddToHistory(expression: string, result: Num)
      modifies this
      ensures history == Ledger.Add(old(history), Ledger.Entry(expression, Show(host, result)))
      ensures currentOperand == old(currentOperand) && previousOperand == old(previousOperand)
      ensures operation == old(operation) && shouldResetScreen == old(shouldResetScreen)
    {
      var entry := Ledger.Entry(expression, Show(host, result));
      history := history + [entry];
      if |history| > Ledger.Capacity {
        history := history[1..];
      }
    }

    /** `compute()`. */
    method Compute()
      modifies this
      ensures Snapshot() == M.Compute(host, old(Snapshot()))
      ensures old(Valid()) ==> Valid()
    {
      ghost var before := Snapshot();
      var prev := ParseFloat(previousOperand);
      var current := ParseFloat(currentOperand);
      if prev.NaN? || current.NaN? {
        return;
      }
      match M.OpOf(operation) {
        case None =>
          return;
        case Some(op) =>
          var expression := previousOperand + " " + operation.GetOr("null") + " " + currentOperand;
          var computation := M.Apply(op, prev, current);
          CalculatorProperties.ComputeOf(host, before, prev, current, op);
          AddToHistory(expression, computation);
          currentOperand := Show(host, computation);
          operation := None;
          previousOperand := "";
          shouldResetScreen := true;
      }
    }

    /** `chooseOperation(operation)`. */
    method ChooseOperation(op: string)
      modifies this
      ensures Snapshot() == M.ChooseOperation(host, old(Snapshot()), op)
      ensures old(Valid()) && M.KeypadEvent(M.Operator(op)) ==> Valid()
    {
      ghost var before := Snapshot();
      if currentOperand == "" {
        return;
      }
      if previousOperand != "" {
        Compute();
      }
      operation := Some(op);
      previousOperand := currentOperand;
      shouldResetScreen := true;
      if M.Invariant(before) && HostValid(host) && M.KeypadEvent(M.Operator(op)) {
        CalculatorProperties.ChooseKeepsInvariant(host, before, op);
      }
    }

    /** `clear()`: the reset flag is left as it is. */
    method Clear()
      modifies this
      ensures Snapshot() == M.Clear(old(Snapshot()))
      ensures old(Valid()) ==> Valid()
    {
      ghost var before := Snapshot();
      currentOperand := "0";
      previousOperand := "";
      operation := None;
      if M.Invariant(before) {
        CalculatorProperties.ClearKeepsInvariant(before);
      }
    }

    /** `delete()`. */
    method Delete()
      modifies this
      ensures Snapshot() == M.Delete(old(Snapshot()))
      ensures old(Valid()) ==> Valid()
    {
      ghost var before := Snapshot();
      if |currentOperand| == 1 {
        currentOperand := "0";
      } else if currentOperand != "" {
        currentOperand := currentOperand[..|currentOperand| - 1];
      }
      if M.Invariant(before) {
        CalculatorProperties.DeleteKeepsInvariant(before);
      }
    }

    /** `percent()`. */
    method Percent()
      modifies this
      ensures Snapshot() == M.Percent(host, old(Snapshot()))
      ensures old(Valid()) ==> Valid()
    {
      ghost var before := Snapshot();
      var current := ParseFloat(currentOperand);
      if current.NaN? {
        return;
      }
      currentOperand := Show(host, Div(current, Hundred));
      if M.Invariant(before) && HostValid(host) {
        CalculatorProperties.PercentKeepsInvariant(host, before);
      }
    }

    /** `scientificFunction(func)`. */
    method ScientificFunction(name: string)
      modifies this
      ensures Snapshot() == M.ScientificFunction(host, old(Snapshot()), name)
      ensures old(Valid()) ==> Valid()
    {
      ghost var before := Snapshot();
      var current := ParseFloat(currentOperand);
      var f := M.SciOf(name);
      var result: Num;
      CalculatorProperties.NonComputingNames(host, before, name);
      match f {
        case PiKey =>
          currentOperand := Show(host, Finite(M.Pi));
        case EKey =>
          currentOperand := Show(host, Finite(M.E));
        case Paren =>
          AppendNumber("(");
        case Other =>
        case _ =>
          CalculatorProperties.ComputedResult(host, before, name);
          result := M.Scientific(host, f, current);
          if !result.NaN? {
            currentOperand := Show(host, result);
            shouldResetScreen := true;
          }
      }
      if M.Invariant(before) && HostValid(host) {
        CalculatorProperties.ScientificKeepsInvariant(host, before, name);
      }
    }

    /** The history's clear button. */
    method ClearHistory()
      modifies this
      ensures Snapshot() == M.ClearHistory(old(Snapshot()))
      ensures old(Valid()) ==> Valid()
    {
      history := [];
    }

    /** The lines `updateHistoryDisplay` lists: the last ten, newest first. */
    function HistoryView(): seq<string>
      reads this
    {
      Ledger.Recent(history)
    }
  }
}
