/**
  The version comparison shared by the updater and the update checker:
  `v.split('.').map(Number)` on both sides, then the first three components
  compared in order with JavaScript's `>` and `<`.
*/
module Versions {
  import opened Numbers

  /** Where the first `.` of `s` is; `|s|` when there is none. */
  function DotIndex(s: string): (k: nat)
    ensures k <= |s|
  {
    if s == [] || s[0] == '.' then 0 else 1 + DotIndex(s[1..])
  }

  /** `s.split('.')`: the pieces between the dots, always at least one. */
  function Split(s: string): (r: seq<string>)
    ensures |r| >= 1
    decreases |s|
  {
    var k := DotIndex(s);
    if k == |s| then [s] else [s[..k]] + Split(s[k + 1..])
  }

  /** `pieces.join('.')`. */
  function Join(pieces: seq<string>): string
    requires |pieces| >= 1
  {
    if |pieces| == 1 then pieces[0] else pieces[0] + "." + Join(pieces[1..])
  }

  /** `v.split('.').map(Number)`. */
  function Parts(v: string): (p: seq<Num>)
    ensures |p| == |Split(v)|
  {
    Map(ToNumber, Split(v))
  }

  /** `pieces.map(f)`. */
  function Map(f: string -> Num, pieces: seq<string>): (p: seq<Num>)
    ensures |p| == |pieces|
  {
    if pieces == [] then [] else [f(pieces[0])] + Map(f, pieces[1..])
  }

  /** `parts[i]` in a comparison: past the end it is `undefined`, which compares like NaN. */
  function At(p: seq<Num>, i: nat): Num {
    if i < |p| then p[i] else NaN
  }

  /** How many components the loop looks at. */
  const Components: nat := 3

  /** The loop of `compareVersions` from index `i` on. */
  function CompareFrom(p: seq<Num>, q: seq<Num>, i: nat): int
    decreases Components - i
  {
    if i >= Components then 0
    else if Greater(At(p, i), At(q, i)) then 1
    else if Less(At(p, i), At(q, i)) then -1
    else CompareFrom(p, q, i + 1)
  }

  /** `compareVersions(v1, v2)`. */
  function Compare(v1: string, v2: string): int {
    CompareFrom(Parts(v1), Parts(v2), 0)
  }

  /** Component `i` decides neither way: equal numbers, or NaN / `undefined` on either side. */
  predicate Undecided(p: seq<Num>, q: seq<Num>, i: nat) {
    !Greater(At(p, i), At(q, i)) && !Less(At(p, i), At(q, i))
  }

  // ---------------------------------------------------------------------
  // Splitting
  // ---------------------------------------------------------------------

  /** The first `.` is a `.`, and nothing before it is one. */
  lemma {:induction false} DotIndexSpec(s: string)
    ensures DotIndex(s) < |s| ==> s[DotIndex(s)] == '.'
    ensures '.' !in s[..DotIndex(s)]
  {
    if s != [] && s[0] != '.' {
      DotIndexSpec(s[1..]);
      assert s[..DotIndex(s)] == [s[0]] + s[1..][..DotIndex(s[1..])];
    }
  }

  /** The first `.` of `a + "." + b` is the first of `a`, or the one joining the two. */
  lemma {:induction false} DotIndexConcat(a: string, b: string)
    ensures DotIndex(a + "." + b) == DotIndex(a)
  {
    if a == [] {
      assert (a + "." + b)[0] == '.';
    } else {
      assert (a + "." + b)[0] == a[0];
      if a[0] != '.' {
        assert (a + "." + b)[1..] == a[1..] + "." + b;
        DotIndexConcat(a[1..], b);
      }
    }
  }

  lemma {:induction false} SplitNoDots(s: string)
    ensures forall k :: 0 <= k < |Split(s)| ==> '.' !in Split(s)[k]
    decreases |s|
  {
    DotIndexSpec(s);
    var k := DotIndex(s);
    if k < |s| {
      SplitNoDots(s[k + 1..]);
      var r := Split(s);
      forall j | 0 <= j < |r|
        ensures '.' !in r[j]
      {
        if j > 0 {
          assert r[j] == Split(s[k + 1..])[j - 1];
        }
      }
    } else {
      assert s[..k] == s;
    }
  }

  /** Joining the pieces gives the string back: `split` loses nothing but the dots. */
  lemma {:induction false} JoinSplit(s: string)
    ensures Join(Split(s)) == s
    decreases |s|
  {
    DotIndexSpec(s);
    var k := DotIndex(s);
    if k < |s| {
      var rest := s[k + 1..];
      JoinSplit(rest);
      var r := Split(s);
      assert r[0] == s[..k] && r[1..] == Split(rest);
      assert Join(r) == s[..k] + "." + Join(Split(rest));
      assert s == s[..k] + "." + rest;
    }
  }

  /** A string without dots is a single piece. */
  lemma SplitOfPiece(s: string)
    requires '.' !in s
    ensures Split(s) == [s]
  {
    DotIndexAbsent(s);
  }

  /** Without a `.`, the first `.` is past the end. */
  lemma {:induction false} DotIndexAbsent(s: string)
    requires '.' !in s
    ensures DotIndex(s) == |s|
  {
    if s != [] {
      assert s[0] in s;
      assert '.' !in s[1..] by {
        forall c | c in s[1..] ensures c in s {
          var i :| 0 <= i < |s[1..]| && s[1..][i] == c;
          assert s[i + 1] == c;
        }
      }
      DotIndexAbsent(s[1..]);
    }
  }

  /** Splitting at a dot splits each side separately. */
  lemma {:induction false} SplitConcat(a: string, b: string)
    ensures Split(a + "." + b) == Split(a) + Split(b)
    decreases |a|
  {
    var s := a + "." + b;
    DotIndexConcat(a, b);
    var k := DotIndex(a);
    assert s[..k] == a[..k];
    if k == |a| {
      assert a[..k] == a;
      assert s[k + 1..] == b;
      assert Split(s) == [a] + Split(b);
    } else {
      assert s[k + 1..] == a[k + 1..] + "." + b;
      SplitConcat(a[k + 1..], b);
      assert Split(a) == [a[..k]] + Split(a[k + 1..]);
      assert Split(s) == [a[..k]] + Split(a[k + 1..] + "." + b);
    }
  }

  lemma {:induction false} MapConcat(f: string -> Num, x: seq<string>, y: seq<string>)
    ensures Map(f, x + y) == Map(f, x) + Map(f, y)
  {
    if x != [] {
      MapConcat(f, x[1..], y);
      assert (x + y)[1..] == x[1..] + y;
    } else {
      assert x + y == y;
    }
  }

  lemma PartsConcat(a: string, b: string)
    ensures Parts(a + "." + b) == Parts(a) + Parts(b)
  {
    SplitConcat(a, b);
    MapConcat(ToNumber, Split(a), Split(b));
  }

  // ---------------------------------------------------------------------
  // The comparison
  // ---------------------------------------------------------------------

  /** No component decides exactly when the result is 0. */
  lemma {:induction false} CompareFromZero(p: seq<Num>, q: seq<Num>, i: nat)
    ensures CompareFrom(p, q, i) == 0 <==> forall j :: i <= j < Components ==> Undecided(p, q, j)
    decreases Components - i
  {
    if i < Components {
      CompareFromZero(p, q, i + 1);
      if !Undecided(p, q, i) {
        assert !(forall j :: i <= j < Components ==> Undecided(p, q, j));
      }
    }
  }

  /** The result is 1 exactly when the first component that decides is greater on the left. */
  lemma {:induction false} CompareFromOne(p: seq<Num>, q: seq<Num>, i: nat)
    ensures CompareFrom(p, q, i) == 1 <==>
            exists j :: i <= j < Components && Greater(At(p, j), At(q, j)) && forall k :: i <= k < j ==> Undecided(p, q, k)
    decreases Components - i
  {
    if i < Components {
      CompareFromOne(p, q, i + 1);
      if Greater(At(p, i), At(q, i)) {
      } else if Less(At(p, i), At(q, i)) {
        assert !Undecided(p, q, i);
        assert forall j :: i <= j < Components && Greater(At(p, j), At(q, j)) ==> j != i && !Undecided(p, q, i);
      } else if CompareFrom(p, q, i + 1) == 1 {
        var j :| i + 1 <= j < Components && Greater(At(p, j), At(q, j)) && forall k :: i + 1 <= k < j ==> Undecided(p, q, k);
        assert forall k :: i <= k < j ==> Undecided(p, q, k);
      }
    }
  }

  lemma {:induction false} UndecidedSymmetric(p: seq<Num>, q: seq<Num>, i: nat)
    ensures Undecided(p, q, i) == Undecided(q, p, i)
  {
  }

  /**
    The result is 1 or -1 according to the first of the three components that
    decides, and 0 when none of them does.
  */
  lemma CompareFirstDifference(v1: string, v2: string)
    ensures var p, q, r := Parts(v1), Parts(v2), Compare(v1, v2);
            && (r == 1 || r == 0 || r == -1)
            && (r == 0 <==> forall j :: 0 <= j < Components ==> Undecided(p, q, j))
            && (r == 1 <==> exists j :: 0 <= j < Components && Greater(At(p, j), At(q, j))
                                       && forall k :: 0 <= k < j ==> Undecided(p, q, k))
            && (r == -1 <==> exists j :: 0 <= j < Components && Less(At(p, j), At(q, j))
                                        && forall k :: 0 <= k < j ==> Undecided(q, p, k))
  {
    var p, q := Parts(v1), Parts(v2);
    CompareFromZero(p, q, 0);
    CompareFromOne(p, q, 0);
    CompareFromOne(q, p, 0);
    CompareFromAntisymmetric(p, q, 0);
    CompareFromRange(p, q, 0);
  }

  lemma {:induction false} CompareFromRange(p: seq<Num>, q: seq<Num>, i: nat)
    ensures -1 <= CompareFrom(p, q, i) <= 1
    decreases Components - i
  {
    if i < Components {
      CompareFromRange(p, q, i + 1);
    }
  }

  /** Swapping the two versions negates the result; this holds for any two strings. */
  lemma {:induction false} CompareFromAntisymmetric(p: seq<Num>, q: seq<Num>, i: nat)
    ensures CompareFrom(p, q, i) == -CompareFrom(q, p, i)
    decreases Components - i
  {
    if i < Components {
      CompareFromAntisymmetric(p, q, i + 1);
    }
  }

  lemma CompareAntisymmetric(v1: string, v2: string)
    ensures Compare(v1, v2) == -Compare(v2, v1)
  {
    CompareFromAntisymmetric(Parts(v1), Parts(v2), 0);
  }

  /** Every string compares equal to itself, NaN components included. */
  lemma {:induction false} CompareFromSame(p: seq<Num>, i: nat)
    ensures CompareFrom(p, p, i) == 0
    decreases Components - i
  {
    if i < Components {
      CompareFromSame(p, i + 1);
    }
  }

  lemma CompareReflexive(v: string)
    ensures Compare(v, v) == 0
  {
    CompareFromSame(Parts(v), 0);
  }

  /** Only the first three components are ever looked at. */
  lemma {:induction false} CompareFromPrefix(p: seq<Num>, p': seq<Num>, q: seq<Num>, i: nat)
    requires forall j :: i <= j < Components ==> At(p, j) == At(p', j)
    ensures CompareFrom(p, q, i) == CompareFrom(p', q, i)
    decreases Components - i
  {
    if i < Components {
      CompareFromPrefix(p, p', q, i + 1);
    }
  }

  lemma ExtendedPrefix(p: seq<Num>, extra: seq<Num>, q: seq<Num>)
    requires |p| >= Components
    ensures CompareFrom(p + extra, q, 0) == CompareFrom(p, q, 0)
    ensures CompareFrom(q, p + extra, 0) == CompareFrom(q, p, 0)
  {
    assert forall j :: 0 <= j < Components ==> At(p + extra, j) == At(p, j);
    CompareFromPrefix(p + extra, p, q, 0);
    CompareFromAntisymmetric(p + extra, q, 0);
    CompareFromAntisymmetric(p, q, 0);
  }

  /** Components past the third never count: `"1.0.0.9"` and `"1.0.0"` are equal. */
  lemma ExtraComponentsIgnored(v: string, w: string, u: string)
    requires |Split(v)| >= Components
    ensures Compare(v + "." + w, u) == Compare(v, u)
    ensures Compare(u, v + "." + w) == Compare(u, v)
  {
    var p, e, q := Parts(v), Parts(w), Parts(u);
    PartsConcat(v, w);
    assert Parts(v + "." + w) == p + e;
    ExtendedPrefix(p, e, q);
  }

  lemma {:induction false} ExtensionUndecided(p: seq<Num>, extra: seq<Num>, i: nat)
    ensures CompareFrom(p, p + extra, i) == 0
    decreases Components - i
  {
    if i < Components {
      if i < |p| {
        assert At(p + extra, i) == At(p, i);
      }
      assert Undecided(p, p + extra, i);
      ExtensionUndecided(p, extra, i + 1);
    }
  }

  /**
    Appending components to a version never makes it compare different: a
    component one side lacks is `undefined` and decides nothing, so `"1.0"` and
    `"1.0.0"` are equal.
  */
  lemma ExtendedVersionEqual(v: string, w: string)
    ensures Compare(v, v + "." + w) == 0
  {
    PartsConcat(v, w);
    ExtensionUndecided(Parts(v), Parts(w), 0);
  }

  // ---------------------------------------------------------------------
  // Well-formed versions
  // ---------------------------------------------------------------------

  /** `major.minor.patch` written in decimal digits. */
  function Version(major: nat, minor: nat, patch: nat): string {
    NatToString(major, 10) + "." + NatToString(minor, 10) + "." + NatToString(patch, 10)
  }

  /** The lexicographic order on triples of naturals, as -1, 0 or 1. */
  function Lexicographic(a: (nat, nat, nat), b: (nat, nat, nat)): int {
    if a.0 != b.0 then (if a.0 > b.0 then 1 else -1)
    else if a.1 != b.1 then (if a.1 > b.1 then 1 else -1)
    else if a.2 != b.2 then (if a.2 > b.2 then 1 else -1)
    else 0
  }

  /** Decimal digits hold no character outside `0`-`9`, in particular no `.` and no `v`. */
  lemma DigitsOnly(n: nat, c: char)
    requires DigitValue(c) >= 10
    ensures c !in NatToString(n, 10)
  {
    NatToStringDigits(n, 10);
    var s := NatToString(n, 10);
    forall k | 0 <= k < |s|
      ensures s[k] != c
    {
      assert DigitValue(s[k]) < 10;
    }
  }

  /** A well-formed version has no `v` for the tag's `replace` to remove. */
  lemma VersionHasNoV(a: nat, b: nat, c: nat)
    ensures 'v' !in Version(a, b, c)
  {
    DigitsOnly(a, 'v');
    DigitsOnly(b, 'v');
    DigitsOnly(c, 'v');
  }

  lemma SplitOfVersion(a: nat, b: nat, c: nat)
    ensures Split(Version(a, b, c)) == [NatToString(a, 10), NatToString(b, 10), NatToString(c, 10)]
  {
    var sa, sb, sc := NatToString(a, 10), NatToString(b, 10), NatToString(c, 10);
    DigitsOnly(a, '.');
    DigitsOnly(b, '.');
    DigitsOnly(c, '.');
    SplitOfPiece(sa);
    SplitOfPiece(sb);
    SplitOfPiece(sc);
    SplitConcat(sa, sb);
    SplitConcat(sa + "." + sb, sc);
  }

  lemma PartsOfThree(v: string, x: string, y: string, z: string)
    requires Split(v) == [x, y, z]
    ensures Parts(v) == [ToNumber(x), ToNumber(y), ToNumber(z)]
  {
    MapThree(ToNumber, x, y, z);
  }

  lemma MapThree(f: string -> Num, x: string, y: string, z: string)
    ensures Map(f, [x, y, z]) == [f(x), f(y), f(z)]
  {
    assert [x, y, z][1..] == [y, z];
    assert [y, z][1..] == [z];
    assert Map(f, [z]) == [f(z)];
    assert Map(f, [y, z]) == [f(y), f(z)];
  }

  lemma PartsOfVersion(a: nat, b: nat, c: nat)
    ensures Parts(Version(a, b, c)) == [Finite(a as real), Finite(b as real), Finite(c as real)]
  {
    SplitOfVersion(a, b, c);
    PartsOfThree(Version(a, b, c), NatToString(a, 10), NatToString(b, 10), NatToString(c, 10));
    DecimalDigitsParse(a);
    DecimalDigitsParse(b);
    DecimalDigitsParse(c);
  }

  /** On well-formed versions the comparison is the lexicographic order of the three numbers. */
  lemma CompareWellFormed(a: (nat, nat, nat), b: (nat, nat, nat))
    ensures Compare(Version(a.0, a.1, a.2), Version(b.0, b.1, b.2)) == Lexicographic(a, b)
  {
    PartsOfVersion(a.0, a.1, a.2);
    PartsOfVersion(b.0, b.1, b.2);
    CompareTriples(a, b);
  }

  /** The loop over three finite components is the lexicographic order. */
  lemma CompareTriples(a: (nat, nat, nat), b: (nat, nat, nat))
    ensures CompareFrom([Finite(a.0 as real), Finite(a.1 as real), Finite(a.2 as real)],
                        [Finite(b.0 as real), Finite(b.1 as real), Finite(b.2 as real)], 0) == Lexicographic(a, b)
  {
    var p := [Finite(a.0 as real), Finite(a.1 as real), Finite(a.2 as real)];
    var q := [Finite(b.0 as real), Finite(b.1 as real), Finite(b.2 as real)];
    assert At(p, 0) == Finite(a.0 as real) && At(q, 0) == Finite(b.0 as real);
    assert At(p, 1) == Finite(a.1 as real) && At(q, 1) == Finite(b.1 as real);
    assert At(p, 2) == Finite(a.2 as real) && At(q, 2) == Finite(b.2 as real);
    assert CompareFrom(p, q, 3) == 0;
  }

  /** Hence, on well-formed versions, the comparison is also transitive. */
  lemma CompareTransitive(a: (nat, nat, nat), b: (nat, nat, nat), c: (nat, nat, nat))
    requires Compare(Version(a.0, a.1, a.2), Version(b.0, b.1, b.2)) == 1
    requires Compare(Version(b.0, b.1, b.2), Version(c.0, c.1, c.2)) == 1
    ensures Compare(Version(a.0, a.1, a.2), Version(c.0, c.1, c.2)) == 1
  {
    CompareWellFormed(a, b);
    CompareWellFormed(b, c);
    CompareWellFormed(a, c);
  }

  // ---------------------------------------------------------------------
  // The loop itself
  // ---------------------------------------------------------------------

  /**
    `compareVersions(v1, v2)` as written: the counted loop over the first three
    components with its two early returns.
  */
  method CompareVersions(v1: string, v2: string) returns (r: int)
    ensures r == Compare(v1, v2)
  {
    var parts1 := Parts(v1);
    var parts2 := Parts(v2);
    for i := 0 to Components
      invariant CompareFrom(parts1, parts2, i) == Compare(v1, v2)
    {
      if Greater(At(parts1, i), At(parts2, i)) {
        return 1;
      }
      if Less(At(parts1, i), At(parts2, i)) {
        return -1;
      }
    }
    return 0;
  }

  // ---------------------------------------------------------------------
  // The tag
  // ---------------------------------------------------------------------

  /** `s.replace(c, '')` with a one-character pattern: only the first occurrence goes. */
  function RemoveFirst(s: string, c: char): string {
    if s == [] then []
    else if s[0] == c then s[1..]
    else [s[0]] + RemoveFirst(s[1..], c)
  }

  /** Without the character the text is unchanged. */
  lemma {:induction false} RemoveFirstAbsent(s: string, c: char)
    requires c !in s
    ensures RemoveFirst(s, c) == s
  {
    if s != [] {
      assert c !in s[1..];
      RemoveFirstAbsent(s[1..], c);
    }
  }

  /** With it, exactly its first occurrence is cut out. */
  lemma {:induction false} RemoveFirstAt(s: string, c: char, i: nat)
    requires i < |s| && s[i] == c && c !in s[..i]
    ensures RemoveFirst(s, c) == s[..i] + s[i + 1..]
  {
    if i > 0 {
      assert s[0] == s[..i][0];
      assert s[1..][..i - 1] == s[1..i];
      RemoveFirstAt(s[1..], c, i - 1);
      assert s[..i] == [s[0]] + s[1..i];
      assert s[1..][i..] == s[i + 1..];
    }
  }

  /** A leading `v` is all the tag loses: `"v1.2.0"` becomes `"1.2.0"`, and a tag without `v` is kept. */
  lemma LeadingV(v: string)
    requires 'v' !in v
    ensures RemoveFirst("v" + v, 'v') == v
    ensures RemoveFirst(v, 'v') == v
  {
    RemoveFirstAbsent(v, 'v');
    assert ("v" + v)[1..] == v;
  }
}
