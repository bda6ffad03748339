/** Text the MP-file importer writes into SQL: single quotes doubled inside
    string literals, and polygon rings closed on their first point. */
module MpFormat {
  import opened Wrappers
  import opened Text

  // ---------------------------------------------------------------------------
  // esc_quotes

  const Quote: char := '\''

  /** `text.replace("'", "''")`: every single quote doubled. */
  function Doubled(s: string): (r: string)
    ensures |r| == |s| + Quotes(s)
    ensures Paired(r)
  {
    if |s| == 0 then ""
    else if s[0] == Quote then [Quote, Quote] + Doubled(s[1..])
    else [s[0]] + Doubled(s[1..])
  }

  /** How many single quotes `s` holds. */
  function Quotes(s: string): nat {
    if |s| == 0 then 0 else (if s[0] == Quote then 1 else 0) + Quotes(s[1..])
  }

  /** Read left to right, every single quote is the first of a pair: the
      strings a doubling can produce. */
  predicate Paired(r: string) {
    if |r| == 0 then true
    else if r[0] == Quote then |r| >= 2 && r[1] == Quote && Paired(r[2..])
    else Paired(r[1..])
  }

  /** `text.replace("''", "'")`: each pair of quotes, read left to right,
      becomes one. */
  function Undoubled(r: string): (s: string)
    ensures |s| <= |r|
  {
    if |r| == 0 then ""
    else if |r| >= 2 && r[0] == Quote && r[1] == Quote then [Quote] + Undoubled(r[2..])
    else [r[0]] + Undoubled(r[1..])
  }

  /** Un-doubling recovers the text that was escaped. */
  lemma {:induction false} UndoubledDoubled(s: string)
    ensures Undoubled(Doubled(s)) == s
  {
    if |s| > 0 {
      UndoubledDoubled(s[1..]);
      var d := Doubled(s);
      if s[0] == Quote {
        assert d[2..] == Doubled(s[1..]);
      } else {
        assert d[1..] == Doubled(s[1..]);
      }
      assert [s[0]] + s[1..] == s;
    }
  }

  /** Every paired string is the escaping of its un-doubling, so escaping is
      a bijection between all strings and the paired ones. */
  lemma {:induction false} DoubledUndoubled(r: string)
    requires Paired(r)
    ensures Doubled(Undoubled(r)) == r
  {
    if |r| > 0 {
      if r[0] == Quote {
        DoubledUndoubled(r[2..]);
        assert [Quote] + Undoubled(r[2..]) == Undoubled(r);
        assert (Undoubled(r))[1..] == Undoubled(r[2..]);
        assert r == [Quote, Quote] + r[2..];
      } else {
        DoubledUndoubled(r[1..]);
        assert (Undoubled(r))[1..] == Undoubled(r[1..]);
        assert r == [r[0]] + r[1..];
      }
    }
  }

  /** `esc_quotes(text)`: a missing text (`None`) comes back as it is; the
      empty string is falsy too and comes back as it is, which is what
      doubling would give it anyway. */
  function EscQuotes(text: Option<string>): (r: Option<string>)
    ensures r.Some? <==> text.Some?
    ensures r.Some? ==> Paired(r.value) && Undoubled(r.value) == text.value
    ensures r.Some? ==> |r.value| == |text.value| + Quotes(text.value)
  {
    match text
    case None => None
    case Some(s) =>
      if s == "" then Some(s)
      else
        UndoubledDoubled(s);
        Some(Doubled(s))
  }

  // ---------------------------------------------------------------------------
  // Polygon.format_ring

  /** A vertex as `xy_from_text` leaves it: the longitude and latitude text
      between the brackets of a `Data` line, which never hold a comma. */
  datatype Vertex = Vertex(x: string, y: string)

  /** The ring with its first vertex appended; an empty ring has no first
      vertex and raises `IndexError`. */
  function ClosedRing(ring: seq<Vertex>): (r: Result<seq<Vertex>, string>)
    ensures r.Ok? <==> |ring| >= 1
    ensures r.Ok? ==> |r.value| == |ring| + 1 && r.value[..|ring|] == ring
    ensures r.Ok? ==> r.value[0] == r.value[|r.value| - 1]
  {
    if |ring| == 0 then Err("IndexError") else Ok(ring + [ring[0]])
  }

  /** `"%s %s" % (x, y)`. */
  function VertexText(v: Vertex): string {
    v.x + " " + v.y
  }

  function VertexTexts(vs: seq<Vertex>): (r: seq<string>)
    ensures |r| == |vs|
    ensures forall i :: 0 <= i < |vs| ==> r[i] == VertexText(vs[i])
  {
    if |vs| == 0 then [] else [VertexText(vs[0])] + VertexTexts(vs[1..])
  }

  /** No vertex text holds a comma. */
  predicate CommaFree(vs: seq<Vertex>) {
    forall i :: 0 <= i < |vs| ==> ',' !in vs[i].x && ',' !in vs[i].y
  }

  /** `format_ring(ring)`: the closed ring's vertices, comma-separated, in
      brackets. */
  function FormatRing(ring: seq<Vertex>): (r: Result<string, string>)
    ensures r.Ok? <==> |ring| >= 1
    ensures r.Ok? ==> |r.value| >= 2 && r.value[0] == '(' && r.value[|r.value| - 1] == ')'
  {
    var closed :- ClosedRing(ring);
    Ok("(" + Join(VertexTexts(closed), ",") + ")")
  }

  /** Splitting the text between the brackets on commas gives back one piece
      per vertex of the closed ring, the first vertex again last. */
  lemma FormatRingPieces(ring: seq<Vertex>)
    requires |ring| >= 1 && CommaFree(ring)
    ensures var t := FormatRing(ring).value;
      Split(t[1..|t| - 1], ',') == VertexTexts(ring + [ring[0]])
  {
    var closed := ring + [ring[0]];
    var pieces := VertexTexts(closed);
    forall k | 0 <= k < |pieces|
      ensures ',' !in pieces[k]
    {
      var v := closed[k];
      assert ',' !in v.x && ',' !in v.y;
    }
    SplitJoin(pieces, ',');
    var t := FormatRing(ring).value;
    assert t[1..|t| - 1] == Join(pieces, [',']);
  }
}
