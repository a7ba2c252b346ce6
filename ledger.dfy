/**
  The calculation history: a list of `"<expression> = <result>"` lines kept
  oldest first, bounded at fifty entries, and shown ten at a time, newest first.
*/
module Ledger {

  /** The longest the history gets through `addToHistory`. */
  const Capacity: nat := 50

  /** How many entries the history panel shows. */
  const ViewSize: nat := 10

  /** The line `addToHistory` records for an expression and its rendered result. */
  function Entry(expression: string, result: string): (e: string)
    ensures |e| == |expression| + 3 + |result|
    ensures e[..|expression|] == expression && e[|expression| + 3..] == result
    ensures e[|expression|..|expression| + 3] == " = "
  {
    expression + " = " + result
  }

  /** `push` the entry, then `shift` the oldest one out when the list is longer than fifty. */
  function Add(h: seq<string>, e: string): (r: seq<string>)
    ensures |h| <= Capacity ==> |r| <= Capacity
    ensures |r| == (if |h| < Capacity then |h| + 1 else |h|)
    ensures r[|r| - 1] == e
    ensures r[..|r| - 1] == h[|h| + 1 - |r|..]
  {
    var pushed := h + [e];
    if |pushed| > Capacity then pushed[1..] else pushed
  }

  /** Entries added one after the other, first to last. */
  function AddAll(h: seq<string>, es: seq<string>): seq<string>
    decreases |es|
  {
    if es == [] then h else AddAll(Add(h, es[0]), es[1..])
  }

  /** `s.reverse()`. */
  function Reverse(s: seq<string>): seq<string> {
    if s == [] then [] else [s[|s| - 1]] + Reverse(s[..|s| - 1])
  }

  /** `history.slice(-10).reverse()`: what the history panel lists. */
  function Recent(h: seq<string>): seq<string> {
    var n := if |h| < ViewSize then |h| else ViewSize;
    Reverse(h[|h| - n..])
  }

  // ---------------------------------------------------------------------
  // Lemmas
  // ---------------------------------------------------------------------

  lemma {:induction false} ReverseAt(s: seq<string>, k: nat)
    requires k < |s|
    ensures |Reverse(s)| == |s| && Reverse(s)[k] == s[|s| - 1 - k]
  {
    if k == 0 {
      ReverseLength(s);
    } else {
      ReverseAt(s[..|s| - 1], k - 1);
    }
  }

  lemma {:induction false} ReverseLength(s: seq<string>)
    ensures |Reverse(s)| == |s|
  {
    if s != [] {
      ReverseLength(s[..|s| - 1]);
    }
  }

  /**
    The panel shows the last min(10, n) entries, newest first: its k-th line is
    the k-th newest entry.
  */
  lemma RecentShowsNewestFirst(h: seq<string>)
    ensures |Recent(h)| == (if |h| < ViewSize then |h| else ViewSize)
    ensures forall k :: 0 <= k < |Recent(h)| ==> Recent(h)[k] == h[|h| - 1 - k]
  {
    var n := if |h| < ViewSize then |h| else ViewSize;
    var tail := h[|h| - n..];
    ReverseLength(tail);
    forall k | 0 <= k < n
      ensures Recent(h)[k] == h[|h| - 1 - k]
    {
      ReverseAt(tail, k);
    }
  }

  /** The newest fifty lines of `s`. */
  function Window(s: seq<string>): seq<string> {
    s[(if |s| > Capacity then |s| - Capacity else 0)..]
  }

  lemma AddWindow(a: seq<string>, e: string)
    ensures Add(Window(a), e) == Window(a + [e])
  {
    var w := Window(a);
    if |a| > Capacity {
      assert w + [e] == (a + [e])[|a| - Capacity..];
    } else {
      assert w == a;
    }
  }

  /** A list within the bound keeps the newest fifty of all the lines added to it, in order. */
  lemma {:induction false} AddAllKeepsNewest(h: seq<string>, es: seq<string>)
    requires |h| <= Capacity
    ensures AddAll(h, es) == Window(h + es)
  {
    assert Window(h) == h;
    AddAllWindow(h, es);
  }

  lemma {:induction false} AddAllWindow(a: seq<string>, es: seq<string>)
    ensures AddAll(Window(a), es) == Window(a + es)
    decreases |es|
  {
    if es == [] {
      assert a + es == a;
    } else {
      var next := a + [es[0]];
      calc {
        AddAll(Window(a), es);
        AddAll(Add(Window(a), es[0]), es[1..]);
        { AddWindow(a, es[0]); }
        AddAll(Window(next), es[1..]);
        { AddAllWindow(next, es[1..]); }
        Window(next + es[1..]);
        { MoveFirst(a, es); }
        Window(a + es);
      }
    }
  }

  lemma MoveFirst(a: seq<string>, es: seq<string>)
    requires es != []
    ensures a + [es[0]] + es[1..] == a + es
  {
    assert es == [es[0]] + es[1..];
  }

  lemma KeptFromEmpty(es: seq<string>)
    ensures AddAll([], es) == Window(es)
  {
    AddAllKeepsNewest([], es);
    assert [] + es == es;
  }

  /** The newest ten of the newest fifty are the newest ten. */
  lemma RecentOfWindow(es: seq<string>)
    ensures var shown := Recent(Window(es));
            && |shown| == (if |es| < ViewSize then |es| else ViewSize)
            && forall k :: 0 <= k < |shown| ==> shown[k] == es[|es| - 1 - k]
  {
    var d := if |es| > Capacity then |es| - Capacity else 0;
    var kept := es[d..];
    RecentShowsNewestFirst(kept);
    var shown := Recent(kept);
    forall k | 0 <= k < |shown|
      ensures shown[k] == es[|es| - 1 - k]
    {
      var j := |kept| - 1 - k;
      assert shown[k] == kept[j];
      assert kept[j] == es[d + j];
    }
  }

  /** Starting from an empty list, the panel shows the newest ten lines added, newest first. */
  lemma PanelAfterAdds(es: seq<string>)
    ensures var shown := Recent(AddAll([], es));
            && |shown| == (if |es| < ViewSize then |es| else ViewSize)
            && forall k :: 0 <= k < |shown| ==> shown[k] == es[|es| - 1 - k]
  {
    KeptFromEmpty(es);
    RecentOfWindow(es);
  }
}
