/** The server's reading of the map client's cell token
    (linz2osm/workslices/models.py `CELL_RE` and `Cell`, and the token split in
    `WorksliceForm.clean` of linz2osm/workslices/views.py). A parsed cell is the
    same record the client builds: grid indices and a density. */
module Cells {
  import opened Wrappers
  import opened Text
  import opened Grid

  /** The texts of the named groups x, y and cpd of a `CELL_RE` match. */
  datatype Groups = Groups(x: string, y: string, cpd: string)

  /** `[0-9-]`, the character class of the x and y groups. */
  predicate IsIndexChar(ch: char) {
    IsDigit(ch) || ch == '-'
  }

  predicate IndexText(t: string) {
    |t| > 0 && forall k :: 0 <= k < |t| ==> IsIndexChar(t[k])
  }

  predicate DensityText(t: string) {
    |t| > 0 && AllDigits(t)
  }

  predicate WellFormed(g: Groups) {
    IndexText(g.x) && IndexText(g.y) && DensityText(g.cpd)
  }

  function Compose(g: Groups): string {
    "X" + g.x + "Y" + g.y + "C" + g.cpd
  }

  /** `CELL_RE.match(text)`: `\AX([0-9-]+)Y([0-9-]+)C([0-9]+)\Z`. Neither index
      class contains 'Y' or 'C', so the groups end at the first 'Y' and the
      first 'C' after it. */
  function MatchCell(s: string): (r: Option<Groups>)
    ensures r.Some? ==> WellFormed(r.value) && Compose(r.value) == s
  {
    if |s| == 0 || s[0] != 'X' then None
    else
      var byY := Split(s[1..], 'Y');
      if |byY| != 2 then None
      else
        var byC := Split(byY[1], 'C');
        if |byC| != 2 then None
        else
          var g := Groups(byY[0], byC[0], byC[1]);
          if WellFormed(g) then
            SplitsCompose(s);
            Some(g)
          else None
  }

  /** A two-piece split joined back with its separator. */
  lemma JoinTwo(t: string, c: char)
    requires |Split(t, c)| == 2
    ensures Split(t, c)[0] + [c] + Split(t, c)[1] == t
  {
    var parts := Split(t, c);
    JoinSplit(t, c);
    assert Join(parts, [c]) == parts[0] + [c] + Join(parts[1..], [c]);
  }

  /** The pieces `MatchCell` cuts out put back between "X", "Y" and "C". */
  lemma SplitsCompose(s: string)
    requires |s| > 0 && s[0] == 'X'
    requires |Split(s[1..], 'Y')| == 2 && |Split(Split(s[1..], 'Y')[1], 'C')| == 2
    ensures var byY := Split(s[1..], 'Y');
      var byC := Split(byY[1], 'C');
      Compose(Groups(byY[0], byC[0], byC[1])) == s
  {
    var byY := Split(s[1..], 'Y');
    var byC := Split(byY[1], 'C');
    JoinTwo(s[1..], 'Y');
    JoinTwo(byY[1], 'C');
    ComposeOf(s, byY[0], byC[0], byC[1]);
  }

  lemma ComposeOf(s: string, x: string, y: string, cpd: string)
    requires |s| > 0 && s[0] == 'X' && s[1..] == x + ['Y'] + (y + ['C'] + cpd)
    ensures Compose(Groups(x, y, cpd)) == s
  {
    assert s == [s[0]] + s[1..];
  }

  /** Cutting `a`, `c`, `b` at `c` gives the two pieces when neither holds `c`. */
  lemma SplitTwo(a: string, b: string, c: char)
    requires c !in a && c !in b
    ensures Split(a + [c] + b, c) == [a, b]
  {
    SplitAt(a, b, c);
    SplitWithout(b, c);
  }

  lemma IndexTextHasNoSeparators(t: string)
    requires IndexText(t) || DensityText(t)
    ensures 'Y' !in t && 'C' !in t
  {
    assert forall k :: 0 <= k < |t| ==> t[k] != 'Y' && t[k] != 'C';
  }

  /** `CELL_RE` matches every string of its shape, and yields its parts. */
  lemma MatchCellComplete(g: Groups)
    requires WellFormed(g)
    ensures MatchCell(Compose(g)) == Some(g)
  {
    IndexTextHasNoSeparators(g.x);
    IndexTextHasNoSeparators(g.y);
    IndexTextHasNoSeparators(g.cpd);
    var s := Compose(g);
    var rest := g.y + "C" + g.cpd;
    assert s[1..] == g.x + ['Y'] + rest;
    SplitAt(g.x, rest, 'Y');
    assert 'Y' !in rest by {
      forall k | 0 <= k < |rest| ensures rest[k] != 'Y' {
        if k < |g.y| { assert rest[k] == g.y[k]; }
        else if k > |g.y| { assert rest[k] == g.cpd[k - |g.y| - 1]; }
      }
    }
    SplitWithout(rest, 'Y');
    assert rest == g.y + ['C'] + g.cpd;
    SplitAt(g.y, g.cpd, 'C');
    SplitWithout(g.cpd, 'C');
  }

  /** `CELL_RE` accepts exactly the strings "X" x "Y" y "C" cpd with x and y
      non-empty over [0-9-] and cpd non-empty over [0-9]: no sign in cpd, nothing
      before or after. */
  lemma MatchCellIff(s: string)
    ensures MatchCell(s).Some? <==> exists g: Groups :: WellFormed(g) && Compose(g) == s
  {
    if exists g: Groups :: WellFormed(g) && Compose(g) == s {
      var g: Groups :| WellFormed(g) && Compose(g) == s;
      MatchCellComplete(g);
    }
  }

  /** What goes wrong in `Cell(text)`: no match (`AttributeError` on `None`), a
      group `int()` rejects such as "1-2" (`ValueError`), or cpd 0
      (`ZeroDivisionError` in `x / float(cpd)`). */
  datatype CellError = NoMatch | BadInteger | ZeroDensity

  /** The groups read with `int()`; the derived lon, lat and size (the
      `Grid.Cell` members) then need cpd to be non-zero. */
  function ParseGroups(g: Groups): (r: Result<Cell, CellError>)
    ensures r.Err? ==> r.error != NoMatch
    ensures r.Ok? ==> ParseInt(g.x) == Some(r.value.x) && ParseInt(g.y) == Some(r.value.y)
                      && ParseInt(g.cpd) == Some(r.value.cpd)
  {
    match (ParseInt(g.x), ParseInt(g.y), ParseInt(g.cpd))
    case (Some(x), Some(y), Some(cpd)) =>
      if cpd <= 0 then Err(ZeroDensity) else Ok(Cell(x, y, cpd))
    case _ => Err(BadInteger)
  }

  /** `Cell(text)`. */
  function ParseCell(s: string): Result<Cell, CellError> {
    match MatchCell(s)
    case None => Err(NoMatch)
    case Some(g) => ParseGroups(g)
  }

  /** A text fails the cell pattern exactly when it is not `X`, `Y` and `C`
      followed by their well-formed groups; every other failure is an integer
      the pattern let through. */
  lemma ParseCellNoMatch(s: string)
    ensures ParseCell(s) == Err(NoMatch) <==> !exists g: Groups :: WellFormed(g) && Compose(g) == s
  {
    MatchCellIff(s);
    match MatchCell(s)
    case None =>
    case Some(g) => assert ParseGroups(g).Err? ==> ParseGroups(g).error != NoMatch;
  }

  /** `as_polygon()`: the box (lon, lat, lon + size, lat + size). */
  datatype Box = Box(minLon: real, minLat: real, maxLon: real, maxLat: real)

  function AsPolygon(c: Cell): (b: Box)
    ensures b.maxLon - b.minLon == b.maxLat - b.minLat == c.Size() > 0.0
  {
    Box(c.Lon(), c.Lat(), c.Lon() + c.Size(), c.Lat() + c.Size())
  }

  /** The server's box for a cell is the square in which the client would have
      picked that cell: a point lies in the box (west and south edges included)
      exactly when the client's click there yields the cell. */
  lemma AsPolygonIsClickArea(c: Cell, lon: real, lat: real)
    ensures (AsPolygon(c).minLon <= lon < AsPolygon(c).maxLon
             && AsPolygon(c).minLat <= lat < AsPolygon(c).maxLat)
            <==> CellAt(lon, lat, c.cpd) == c
  {
    CellAtIffInSquare(c, lon, lat);
  }

  lemma NatToStringIsDensityText(n: nat)
    ensures DensityText(NatToString(n))
  {
  }

  lemma IntToStringIsIndexText(i: int)
    ensures IndexText(IntToString(i))
  {
    IntToStringChars(i);
  }

  /** The cross-language round trip for one cell: the server reads back exactly
      the cell the client wrote. */
  lemma ParseCellString(c: Cell)
    ensures ParseCell(CellString(c)) == Ok(c)
  {
    var g := Groups(IntToString(c.x), IntToString(c.y), IntToString(c.cpd));
    IntToStringIsIndexText(c.x);
    IntToStringIsIndexText(c.y);
    assert IntToString(c.cpd) == NatToString(c.cpd);
    NatToStringIsDensityText(c.cpd);
    assert Compose(g) == CellString(c);
    MatchCellComplete(g);
    ParseIntToString(c.x);
    ParseIntToString(c.y);
    ParseIntToString(c.cpd);
  }

  /** For a string of the pattern's shape, the outcome is decided by `int()` and
      the density alone. */
  lemma ParseCellCompose(g: Groups)
    requires WellFormed(g)
    ensures ParseCell(Compose(g)) == ParseGroups(g)
  {
    MatchCellComplete(g);
  }

  /** A zero density (any run of zeros) matches the pattern and fails only on
      the division. */
  lemma ParseCellZeroDensity(g: Groups)
    requires WellFormed(g) && DigitsValue(g.cpd) == 0
    requires ParseInt(g.x).Some? && ParseInt(g.y).Some?
    ensures ParseCell(Compose(g)) == Err(ZeroDensity)
  {
    ParseCellCompose(g);
    ParseIntDigits(g.cpd);
  }

  /** The index class admits a minus sign anywhere, as in "1-2", which `int()`
      then refuses. */
  lemma ParseCellBadInteger(g: Groups)
    requires WellFormed(g) && (ParseInt(g.x) == None || ParseInt(g.y) == None)
    ensures ParseCell(Compose(g)) == Err(BadInteger)
  {
    ParseCellCompose(g);
  }

  lemma LeadingZeroText(n: nat)
    ensures IndexText("0" + NatToString(n)) && ParseInt("0" + NatToString(n)) == Some(n)
  {
    var xs := NatToString(n);
    var zx := "0" + xs;
    DigitsValueLeadingZero(xs);
    assert forall k :: 0 <= k < |zx| ==> IsDigit(zx[k]);
    ParseIntDigits(zx);
  }

  lemma LeadingZeroGroups(c: Cell)
    requires c.x >= 0
    ensures var g := Groups("0" + IntToString(c.x), IntToString(c.y), IntToString(c.cpd));
            WellFormed(g) && ParseGroups(g) == Ok(c)
  {
    assert IntToString(c.x) == NatToString(c.x);
    LeadingZeroText(c.x);
    IntToStringIsIndexText(c.y);
    assert IntToString(c.cpd) == NatToString(c.cpd);
    NatToStringIsDensityText(c.cpd);
    ParseIntToString(c.y);
    ParseIntToString(c.cpd);
  }

  /** Leading zeros are read as `int()` reads them, so the map's string is not the
      only spelling of a cell: "X0" x ... parses to the same cell as "X" x ... */
  lemma ParseCellLeadingZero(c: Cell)
    requires c.x >= 0
    ensures ParseCell(Compose(Groups("0" + IntToString(c.x), IntToString(c.y), IntToString(c.cpd)))) == Ok(c)
  {
    LeadingZeroGroups(c);
    ParseCellCompose(Groups("0" + IntToString(c.x), IntToString(c.y), IntToString(c.cpd)));
  }

  /** The density takes no sign. */
  lemma MatchCellRejectsSignedDensity(x: string, y: string, cpd: string)
    requires IndexText(x) && IndexText(y) && DensityText(cpd)
    ensures MatchCell("X" + x + "Y" + y + "C-" + cpd).None?
  {
    IndexTextHasNoSeparators(x);
    IndexTextHasNoSeparators(y);
    IndexTextHasNoSeparators(cpd);
    var s := "X" + x + "Y" + y + "C-" + cpd;
    var tail := "-" + cpd;
    var rest := y + ['C'] + tail;
    assert s[1..] == x + ['Y'] + rest;
    NoSeparatorsAround(y, tail);
    SplitTwo(x, rest, 'Y');
    SplitTwo(y, tail, 'C');
    assert !IsDigit(tail[0]);
  }

  /** A signed density next to an index: 'Y' is nowhere, 'C' only between. */
  lemma NoSeparatorsAround(y: string, tail: string)
    requires 'Y' !in y && 'C' !in y && |tail| > 0 && tail[0] == '-' && 'Y' !in tail[1..] && 'C' !in tail[1..]
    ensures 'Y' !in y + ['C'] + tail && 'C' !in tail
  {
    var rest := y + ['C'] + tail;
    forall k | 0 <= k < |rest| ensures rest[k] != 'Y' {
      if k < |y| { assert rest[k] == y[k]; }
      else if k > |y| + 1 { assert rest[k] == tail[1..][k - |y| - 2]; }
    }
    forall k | 0 <= k < |tail| ensures tail[k] != 'C' {
      if k > 0 { assert tail[k] == tail[1..][k - 1]; }
    }
  }

  /** Nothing may follow the density: the last character of a match is a digit. */
  lemma MatchCellEndsInDigit(s: string)
    requires MatchCell(s).Some?
    ensures |s| > 0 && s[0] == 'X' && IsDigit(s[|s| - 1])
  {
    var g := MatchCell(s).value;
    assert s[|s| - 1] == g.cpd[|g.cpd| - 1];
  }

  // ---------------------------------------------------------------------------
  // The form's token

  /** Why `WorksliceForm.clean` gives up on the cells field: no cells (a
      validation error with the message below), or a piece that is not a cell
      (the `Cell` constructor raises, and the request fails). */
  datatype CleanError = NoCells | BadPiece(index: nat, error: CellError)

  function NoCellsMessage(): string {
    "You must select at least one cell."
  }

  /** Piece by piece, each piece parses to the cell at the same position. */
  predicate Parsed(pieces: seq<string>, cells: seq<Cell>)
    decreases |pieces|
  {
    |pieces| == |cells|
    && (|pieces| > 0 ==> ParseCell(pieces[0]) == Ok(cells[0]) && Parsed(pieces[1..], cells[1..]))
  }

  /** The first `n` pieces parse. */
  predicate ParsedUpTo(pieces: seq<string>, n: nat)
    decreases n
  {
    n <= |pieces| && (n > 0 ==> ParseCell(pieces[0]).Ok? && ParsedUpTo(pieces[1..], n - 1))
  }

  /** `[Cell(t) for t in pieces]`: the first piece that fails decides. */
  function ParseAll(pieces: seq<string>): (r: Result<seq<Cell>, CleanError>)
    ensures r.Ok? ==> Parsed(pieces, r.value)
    ensures r.Err? ==> r.error.BadPiece? && r.error.index < |pieces|
  {
    if |pieces| == 0 then Ok([])
    else
      var first := ParseCell(pieces[0]);
      if first.Err? then Err(BadPiece(0, first.error))
      else
        var rest := ParseAll(pieces[1..]);
        if rest.Err? then Err(BadPiece(rest.error.index + 1, rest.error.error))
        else
          var r := [first.value] + rest.value;
          assert r[1..] == rest.value;
          Ok(r)
  }

  /** A failed list names the first piece that does not parse, and why. */
  lemma {:induction false} ParseAllFirstFailure(pieces: seq<string>)
    requires ParseAll(pieces).Err?
    ensures var e := ParseAll(pieces).error;
            ParseCell(pieces[e.index]) == Err(e.error) && ParsedUpTo(pieces, e.index)
    decreases |pieces|
  {
    var first := ParseCell(pieces[0]);
    if first.Ok? {
      var rest := ParseAll(pieces[1..]);
      assert rest.Err?;
      ParseAllFirstFailure(pieces[1..]);
      assert pieces[1..][rest.error.index] == pieces[rest.error.index + 1];
    }
  }

  /** The cells part of `WorksliceForm.clean`: a missing or empty field is
      refused; otherwise the token is split on "_" and every piece parsed; the
      number of cells (`num_cells`) is the length of the result. */
  function CleanCells(data: Option<string>): (r: Result<seq<Cell>, CleanError>)
    ensures (data.None? || data.value == "") <==> r.Err? && r.error.NoCells?
    ensures r.Ok? ==> data.Some? && |r.value| == |Split(data.value, '_')|
  {
    if data.None? || data.value == "" then Err(NoCells)
    else ParseAll(Split(data.value, '_'))
  }

  lemma CellStringNoUnderscore(c: Cell)
    ensures '_' !in CellString(c)
  {
    IntToStringChars(c.x);
    IntToStringChars(c.y);
    IntToStringChars(c.cpd);
    var s := CellString(c);
    var a, b, d := IntToString(c.x), IntToString(c.y), IntToString(c.cpd);
    forall k | 0 <= k < |s| ensures s[k] != '_' {
      if 1 <= k < 1 + |a| { assert s[k] == a[k - 1]; }
      else if 2 + |a| <= k < 2 + |a| + |b| { assert s[k] == b[k - 2 - |a|]; }
      else if 3 + |a| + |b| <= k { assert s[k] == d[k - 3 - |a| - |b|]; }
    }
  }

  lemma ParseAllCellStrings(cs: seq<Cell>)
    ensures ParseAll(CellStrings(cs)) == Ok(cs)
  {
    CellStringsParsed(cs);
    ParseAllParsed(CellStrings(cs), cs);
  }

  lemma ParseAllCons(pieces: seq<string>, c: Cell, cells: seq<Cell>)
    requires |pieces| > 0 && ParseCell(pieces[0]) == Ok(c) && ParseAll(pieces[1..]) == Ok(cells)
    ensures ParseAll(pieces) == Ok([c] + cells)
  {
  }

  /** Each cell's string parses back to that cell. */
  lemma {:induction false} CellStringsParsed(cs: seq<Cell>)
    ensures Parsed(CellStrings(cs), cs)
    decreases |cs|
  {
    if |cs| > 0 {
      var parts := CellStrings(cs);
      ParseCellString(cs[0]);
      assert parts[1..] == CellStrings(cs[1..]);
      CellStringsParsed(cs[1..]);
    }
  }

  /** Pieces that parse one by one to the cells parse, together, to them. */
  lemma {:induction false} ParseAllParsed(pieces: seq<string>, cells: seq<Cell>)
    requires Parsed(pieces, cells)
    ensures ParseAll(pieces) == Ok(cells)
    decreases |pieces|
  {
    if |pieces| > 0 {
      ParseAllParsed(pieces[1..], cells[1..]);
      ParseAllCons(pieces, cells[0], cells[1..]);
      assert [cells[0]] + cells[1..] == cells;
    }
  }

  /** The cross-language round trip for a whole selection: the cells field the
      client fills in is cleaned back to the same cells in the same order, and
      `num_cells` is the number of cells selected; an empty selection is refused. */
  lemma CleanSerialized(cs: seq<Cell>)
    ensures |cs| > 0 ==> CleanCells(Some(Serialize(cs))) == Ok(cs)
    ensures |cs| == 0 ==> CleanCells(Some(Serialize(cs))) == Err(NoCells)
  {
    if |cs| > 0 {
      var parts := CellStrings(cs);
      forall k | 0 <= k < |parts| ensures '_' !in parts[k] {
        CellStringNoUnderscore(cs[k]);
      }
      SplitJoin(parts, '_');
      ParseAllCellStrings(cs);
    }
  }
}
