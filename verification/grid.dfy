/** The map client's cell grid (assets/workslice-slippy-map.js): a cell is one
    square of a fixed grid anchored at (0°, 0°) whose resolution is a number of
    cells per degree; the selection is an ordered, duplicate-free collection of
    cells with toggle semantics, written into the form as an underscore-joined
    token; the resolution follows the viewport in factor-of-four steps.

    Longitudes, latitudes and spans are exact reals here; the client computes
    with IEEE doubles. */
module Grid {
  import opened Wrappers
  import opened Text

  /** Every density the client ever holds is a positive integer: 128 before the
      first selection session, afterwards max(4^k, 1). */
  type Density = d: int | d >= 1 witness 1

  datatype Cell = Cell(x: int, y: int, cpd: Density) {

    /** South-west corner and side length, in degrees. */
    function Lon(): real { x as real / cpd as real }
    function Lat(): real { y as real / cpd as real }
    function Size(): real { 1.0 / cpd as real }
  }

  /** `new Cell(lon, lat, cpd)`: the cell of the grid at density `cpd` that
      contains the point. Scaled by `cpd`, the cell [x/cpd, (x+1)/cpd) is the
      unit interval [x, x+1), so containment is stated on the scaled coordinate;
      the south-west corner is included and the far edges are not. */
  function CellAt(lon: real, lat: real, cpd: Density): (c: Cell)
    ensures c.cpd == cpd
    ensures c.x as real <= lon * cpd as real < c.x as real + 1.0
    ensures c.y as real <= lat * cpd as real < c.y as real + 1.0
  {
    Cell((lon * cpd as real).Floor, (lat * cpd as real).Floor, cpd)
  }

  /** The grid is a partition: at a given density exactly one cell contains a
      point, so the cell `CellAt` picks is the only candidate. */
  lemma CellAtUnique(c: Cell, lon: real, lat: real)
    requires c.x as real <= lon * c.cpd as real < c.x as real + 1.0
    requires c.y as real <= lat * c.cpd as real < c.y as real + 1.0
    ensures c == CellAt(lon, lat, c.cpd)
  {
    var d := CellAt(lon, lat, c.cpd);
    assert d.x == c.x by { IntervalUnique(c.x, d.x, lon * c.cpd as real); }
    assert d.y == c.y by { IntervalUnique(c.y, d.y, lat * c.cpd as real); }
  }

  lemma IntervalUnique(a: int, b: int, v: real)
    requires a as real <= v < a as real + 1.0
    requires b as real <= v < b as real + 1.0
    ensures a == b
  {
  }

  lemma DivLe(x: real, d: real, v: real)
    requires d > 0.0
    ensures x / d <= v <==> x <= v * d
  {
  }

  lemma LtDiv(x: real, d: real, v: real)
    requires d > 0.0
    ensures v < x / d <==> v * d < x
  {
  }

  /** Scaling by the density maps the cell's side [x/cpd, x/cpd + 1/cpd) onto
      the unit interval [x, x+1). */
  lemma ScaledInterval(x: int, d: Density, v: real)
    ensures (x as real / d as real <= v && v < x as real / d as real + 1.0 / d as real)
        <==> (x as real <= v * d as real && v * d as real < x as real + 1.0)
  {
    var dr := d as real;
    DivLe(x as real, dr, v);
    assert x as real / dr + 1.0 / dr == (x as real + 1.0) / dr;
    LtDiv(x as real + 1.0, dr, v);
  }

  /** The point is in the cell's square: corner (Lon, Lat), side Size, the west
      and south edges included. */
  predicate InSquare(c: Cell, lon: real, lat: real) {
    c.Lon() <= lon < c.Lon() + c.Size() && c.Lat() <= lat < c.Lat() + c.Size()
  }

  /** In degrees: the cell the client builds for a point is the one square of its
      grid that contains the point, x/cpd <= lon < (x+1)/cpd and likewise for
      the latitude. */
  lemma CellAtIffInSquare(c: Cell, lon: real, lat: real)
    ensures CellAt(lon, lat, c.cpd) == c <==> InSquare(c, lon, lat)
  {
    ScaledInterval(c.x, c.cpd, lon);
    ScaledInterval(c.y, c.cpd, lat);
    if InSquare(c, lon, lat) { CellAtUnique(c, lon, lat); }
  }

  /** `cell.equals(other)`: equal grid indices and equal density. */
  predicate Equals(a: Cell, b: Cell) {
    a.x == b.x && a.y == b.y && a.cpd == b.cpd
  }

  /** Cells at different densities are never equal, even when they cover the
      same ground: (1, 1) at 4 cells per degree and (4, 4) at 16. */
  lemma SameGroundDifferentDensity()
    ensures Cell(1, 1, 4).Lon() == Cell(4, 4, 16).Lon()
    ensures Cell(1, 1, 4).Lat() == Cell(4, 4, 16).Lat()
    ensures !Equals(Cell(1, 1, 4), Cell(4, 4, 16))
  {
  }

  /** `cell.toString()`: "X" x "Y" y "C" cpd. The text never holds the `_`
      that separates cells in the form field. */
  function CellString(c: Cell): (r: string)
    ensures |r| > 0 && r[0] == 'X'
    ensures forall k :: 0 <= k < |r| ==> r[k] != '_'
  {
    IntToStringChars(c.x);
    IntToStringChars(c.y);
    IntToStringChars(c.cpd);
    "X" + IntToString(c.x) + "Y" + IntToString(c.y) + "C" + IntToString(c.cpd)
  }

  lemma IntToStringChars(i: int)
    ensures forall k :: 0 <= k < |IntToString(i)| ==> IntToString(i)[k] == '-' || IsDigit(IntToString(i)[k])
  {
    if i < 0 {
      var r := IntToString(i);
      forall k | 0 <= k < |r| ensures r[k] == '-' || IsDigit(r[k]) {
        if k > 0 { assert r[k] == NatToString(-i)[k - 1]; }
      }
    }
  }

  /** The separators of the cell string never occur in its numbers. */
  lemma CellStringParts(c: Cell)
    ensures Split(CellString(c), 'Y')
         == ["X" + IntToString(c.x), IntToString(c.y) + "C" + IntToString(c.cpd)]
    ensures Split(IntToString(c.y) + "C" + IntToString(c.cpd), 'C')
         == [IntToString(c.y), IntToString(c.cpd)]
  {
    var a, b, d := IntToString(c.x), IntToString(c.y), IntToString(c.cpd);
    IntToStringChars(c.x);
    IntToStringChars(c.y);
    IntToStringChars(c.cpd);
    var head := "X" + a;
    var rest := b + "C" + d;
    assert 'Y' !in head by {
      forall k | 0 <= k < |head| ensures head[k] != 'Y' {
        if k > 0 { assert head[k] == a[k - 1]; }
      }
    }
    assert 'Y' !in rest by {
      forall k | 0 <= k < |rest| ensures rest[k] != 'Y' {
        if k < |b| { assert rest[k] == b[k]; }
        else if k > |b| { assert rest[k] == d[k - |b| - 1]; }
      }
    }
    assert CellString(c) == head + ['Y'] + rest;
    SplitAt(head, rest, 'Y');
    SplitWithout(rest, 'Y');
    assert 'C' !in b;
    assert 'C' !in d;
    SplitAt(b, d, 'C');
    SplitWithout(d, 'C');
  }

  /** Different cells have different strings, so comparing `toString()` results
      (as `highlightCell` does) is comparing cells. */
  lemma CellStringInjective(c1: Cell, c2: Cell)
    requires CellString(c1) == CellString(c2)
    ensures c1 == c2
  {
    CellStringParts(c1);
    CellStringParts(c2);
    var a1, a2 := IntToString(c1.x), IntToString(c2.x);
    assert a1 == ("X" + a1)[1..] == ("X" + a2)[1..] == a2;
    ParseIntToString(c1.x);
    ParseIntToString(c2.x);
    ParseIntToString(c1.y);
    ParseIntToString(c2.y);
    ParseIntToString(c1.cpd);
    ParseIntToString(c2.cpd);
  }

  // ---------------------------------------------------------------------------
  // CellCollection

  /** `equals` is structural equality of the cell record. */
  lemma EqualsIsEquality(a: Cell, b: Cell)
    ensures Equals(a, b) <==> a == b
  {
  }

  predicate NoDup(s: seq<Cell>) {
    forall i, j :: 0 <= i < j < |s| ==> s[i] != s[j]
  }

  /** `contains(cell)`: the index of the first equal cell, or `false`. */
  function IndexOf(s: seq<Cell>, c: Cell): (r: Option<nat>)
    ensures r.None? <==> c !in s
    ensures r.Some? ==> r.value < |s| && s[r.value] == c
    ensures r.Some? ==> forall j :: 0 <= j < r.value ==> s[j] != c
  {
    if |s| == 0 then None
    else if Equals(s[0], c) then Some(0)
    else match IndexOf(s[1..], c)
      case None => None
      case Some(i) => Some(i + 1)
  }

  /** `splice(i, 1)`. */
  function RemoveAt(s: seq<Cell>, i: nat): (r: seq<Cell>)
    requires i < |s|
    ensures |r| == |s| - 1
    ensures forall k :: 0 <= k < |r| ==> r[k] == (if k < i then s[k] else s[k + 1])
  {
    s[..i] + s[i + 1..]
  }

  lemma RemoveAtMembers(s: seq<Cell>, i: nat)
    requires i < |s|
    ensures forall d :: d != s[i] ==> (d in RemoveAt(s, i) <==> d in s)
    ensures NoDup(s) ==> NoDup(RemoveAt(s, i)) && s[i] !in RemoveAt(s, i)
  {
    var r := RemoveAt(s, i);
    forall d | d != s[i] && d in s ensures d in r {
      var k :| 0 <= k < |s| && s[k] == d;
      if k < i { assert r[k] == d; } else { assert r[k - 1] == d; }
    }
    if NoDup(s) {
      forall k | 0 <= k < |r| ensures r[k] != s[i] {
        if k < i { assert r[k] == s[k]; } else { assert r[k] == s[k + 1]; }
      }
    }
  }

  /** `addOrRemove(cell)`: an absent cell is appended, a present one is spliced out
      at its index. */
  function AddOrRemove(s: seq<Cell>, c: Cell): (r: seq<Cell>)
    ensures c !in s ==> r == s + [c]
    ensures c in s ==> |r| == |s| - 1
    ensures NoDup(s) ==> NoDup(r) && (c in r <==> c !in s)
    ensures forall d :: d != c ==> (d in r <==> d in s)
  {
    match IndexOf(s, c)
    case None => s + [c]
    case Some(i) =>
      RemoveAtMembers(s, i);
      RemoveAt(s, i)
  }

  /** Toggling an absent cell twice restores the collection exactly. */
  lemma ToggleTwiceAbsent(s: seq<Cell>, c: Cell)
    requires c !in s
    ensures AddOrRemove(AddOrRemove(s, c), c) == s
  {
    var t := s + [c];
    assert IndexOf(t, c) == Some(|s|);
    assert t[..|s|] == s;
  }

  /** Toggling a present cell twice does not restore the collection: the cell
      leaves its place and comes back at the end. */
  lemma ToggleTwicePresent(s: seq<Cell>, c: Cell, i: nat)
    requires NoDup(s) && i < |s| && s[i] == c
    ensures AddOrRemove(AddOrRemove(s, c), c) == s[..i] + s[i + 1..] + [c]
  {
    assert IndexOf(s, c) == Some(i);
  }

  /** Toggling distinct absent cells in turn lists them in click order. */
  lemma ToggleAbsentInOrder(a: Cell, b: Cell, c: Cell)
    requires a != b && b != c && a != c
    ensures AddOrRemove(AddOrRemove(AddOrRemove([], a), b), c) == [a, b, c]
  {
  }

  function CellStrings(s: seq<Cell>): (r: seq<string>)
    ensures |r| == |s|
    ensures forall k :: 0 <= k < |s| ==> r[k] == CellString(s[k])
  {
    if |s| == 0 then [] else [CellString(s[0])] + CellStrings(s[1..])
  }

  /** `toString()` of the collection: the cells' strings joined by "_". */
  function Serialize(s: seq<Cell>): (r: string)
    ensures r == "" <==> |s| == 0
  {
    var parts := CellStrings(s);
    if |s| == 0 then Join(parts, "_")
    else
      JoinNonEmpty(parts, "_");
      Join(parts, "_")
  }

  lemma JoinNonEmpty(parts: seq<string>, sep: string)
    requires |parts| > 0 && |parts[0]| > 0
    ensures |Join(parts, sep)| > 0
  {
    if |parts| > 1 {
      assert Join(parts, sep) == parts[0] + sep + Join(parts[1..], sep);
    }
  }

  /** Order preservation of the token: three cells toggled in turn serialise to
      their strings in click order. */
  lemma SerializeInClickOrder(a: Cell, b: Cell, c: Cell)
    requires a != b && b != c && a != c
    ensures Serialize(AddOrRemove(AddOrRemove(AddOrRemove([], a), b), c))
         == CellString(a) + "_" + CellString(b) + "_" + CellString(c)
  {
    ToggleAbsentInOrder(a, b, c);
    SerializeThree(a, b, c);
  }

  lemma SerializeThree(a: Cell, b: Cell, c: Cell)
    ensures Serialize([a, b, c]) == CellString(a) + "_" + CellString(b) + "_" + CellString(c)
  {
    var parts := CellStrings([a, b, c]);
    assert parts == [CellString(a), CellString(b), CellString(c)];
    JoinThree(CellString(a), CellString(b), CellString(c), "_");
  }

  /** The status line after a change of the selection: a prompt (starting
      with "S") when nothing is selected, otherwise the count of cells (never
      starting with "S") followed by " selected. ". */
  function CountMessage(n: int): (r: string)
    ensures |r| > 0 && (n <= 0 <==> r[0] == 'S')
    ensures n >= 1 ==> EndsWith(r, SelectedSuffix)
  {
    if n <= 0 then "Select at least one cell from the map. "
    else
      var count := if n == 1 then "1 cell" else IntToString(n) + " cells";
      assert count[0] != 'S' by {
        if n > 1 { assert count[0] == IntToString(n)[0]; }
      }
      EndsWithAppend(count, SelectedSuffix);
      count + SelectedSuffix
  }

  const SelectedSuffix := " selected. "

  lemma CountMessageLong(n: int)
    ensures n >= 2 ==> |CountMessage(n)| >= 18 && IsDigit(CountMessage(n)[0])
  {
    if n >= 2 { assert CountMessage(n)[0] == IntToString(n)[0]; }
  }

  /** The status line tells the size of the selection: different sizes give
      different messages. */
  lemma CountMessageInjective(m: nat, n: nat)
    requires CountMessage(m) == CountMessage(n)
    ensures m == n
  {
    CountMessageLong(m);
    CountMessageLong(n);
    if m >= 2 && n >= 2 {
      var a := IntToString(m);
      var b := IntToString(n);
      var x := a + " cells";
      var y := b + " cells";
      assert x + SelectedSuffix == y + SelectedSuffix;
      assert |x| == |y| && |a| == |b|;
      assert x == (x + SelectedSuffix)[..|x|] == (y + SelectedSuffix)[..|y|] == y;
      assert a == x[..|a|] == y[..|b|] == b;
      ParseIntToString(m);
      ParseIntToString(n);
    }
  }

  // ---------------------------------------------------------------------------
  // Density policy

  function Pow4(k: nat): (r: nat)
    ensures r >= 1
  {
    if k == 0 then 1 else 4 * Pow4(k - 1)
  }

  predicate IsPow4(n: int)
    decreases if n < 0 then 0 else n
  {
    n == 1 || (n > 1 && n % 4 == 0 && IsPow4(n / 4))
  }

  lemma Pow4IsPow4(k: nat)
    ensures IsPow4(Pow4(k))
  {
    if k > 0 { Pow4IsPow4(k - 1); assert Pow4(k) / 4 == Pow4(k - 1); }
  }

  lemma {:induction false} IsPow4Step(a: int, b: int)
    requires IsPow4(a) && IsPow4(b) && a < b
    ensures 4 * a <= b
    decreases b
  {
    if a == 1 {
    } else {
      IsPow4Step(a / 4, b / 4);
    }
  }

  /** The density rule for `target` = 4 / (smaller viewport side) cells per
      degree: a power of four, at least the target, and the least such power (a
      quarter of it, unless it is 1, would fall short of the target). */
  predicate IsDensityFor(d: int, target: real) {
    IsPow4(d) && d as real >= target && (d == 1 || d as real < 4.0 * target)
  }

  lemma PowPositive(n: int)
    requires IsPow4(n)
    ensures n >= 1
  {
  }

  /** Quadruple the candidate until it reaches the target. */
  function DensitySearch(target: real, d: int): (r: int)
    requires IsPow4(d)
    requires d == 1 || d as real < 4.0 * target
    ensures IsDensityFor(r, target)
    decreases target.Floor - d
  {
    if d as real >= target then d
    else
      PowPositive(d);
      assert (4 * d) / 4 == d;
      DensitySearch(target, 4 * d)
  }

  /** `calculateCellDensity()` for the smaller side `minSpan` of the viewport:
      max(2^roundup(log2(4 / minSpan), 2), 1). An even power of two is a power of
      four, and rounding the exponent up to the next even number picks the least
      power of four that reaches 4 / minSpan; the `max` lets 4^0 = 1 stand for
      every smaller power. */
  function CalculateCellDensity(minSpan: real): (d: Density)
    requires minSpan > 0.0
    ensures IsDensityFor(d, 4.0 / minSpan)
  {
    var d := DensitySearch(4.0 / minSpan, 1);
    PowPositive(d);
    d
  }

  /** The density rule has one answer for a given target. */
  lemma DensityUnique(a: int, b: int, target: real)
    requires IsDensityFor(a, target) && IsDensityFor(b, target)
    ensures a == b
  {
    if a < b {
      IsPow4Step(a, b);
    } else if b < a {
      IsPow4Step(b, a);
    }
  }

  /** The density is the least 4^k, k >= 0, with 4^k >= 4 / minSpan. */
  lemma DensityIsLeastPowerOfFour(minSpan: real, k: nat)
    requires minSpan > 0.0
    requires Pow4(k) as real >= 4.0 / minSpan
    requires k == 0 || (Pow4(k - 1) as real) < 4.0 / minSpan
    ensures CalculateCellDensity(minSpan) == Pow4(k)
  {
    Pow4IsPow4(k);
    DensityUnique(CalculateCellDensity(minSpan), Pow4(k), 4.0 / minSpan);
  }

  /** A one-degree viewport gets 4 cells per degree, a half-degree one 16, a
      ten-degree one a single cell per degree. */
  lemma DensityExamples()
    ensures CalculateCellDensity(1.0) == 4
    ensures CalculateCellDensity(0.5) == 16
    ensures CalculateCellDensity(10.0) == 1
  {
    DensityIsLeastPowerOfFour(1.0, 1);
    assert Pow4(2) == 16;
    DensityIsLeastPowerOfFour(0.5, 2);
    DensityIsLeastPowerOfFour(10.0, 0);
  }

  /** Four times the target (a quarter of the viewport side) gives four times the
      density once it is above 1. */
  lemma DensityQuarterStep(minSpan: real)
    requires minSpan > 0.0
    requires CalculateCellDensity(minSpan) > 1
    ensures CalculateCellDensity(minSpan / 4.0) == 4 * CalculateCellDensity(minSpan)
  {
    var d := CalculateCellDensity(minSpan);
    var t := 4.0 / minSpan;
    assert 4.0 / (minSpan / 4.0) == 4.0 * t;
    assert (4 * d) / 4 == d;
    assert IsPow4(4 * d);
    assert IsDensityFor(4 * d, 4.0 * t);
    DensityUnique(CalculateCellDensity(minSpan / 4.0), 4 * d, 4.0 * t);
  }

  /** A larger target never gives a lower density: zooming in refines the grid. */
  lemma DensityMonotonic(s1: real, s2: real)
    requires 0.0 < s1 <= s2
    ensures CalculateCellDensity(s1) >= CalculateCellDensity(s2)
  {
    var a := CalculateCellDensity(s1);
    var b := CalculateCellDensity(s2);
    assert 4.0 / s2 <= 4.0 / s1 by { DivAntitone(s1, s2); }
    if a < b {
      IsPow4Step(a, b);
    }
  }

  lemma DivAntitone(s1: real, s2: real)
    requires 0.0 < s1 <= s2
    ensures 4.0 / s2 <= 4.0 / s1
  {
    assert 4.0 / s2 * s2 == 4.0;
    assert 4.0 / s1 * s1 == 4.0;
  }
}
