/** The bounding box a user may give when exporting a layer's data:
    `minx,miny,maxx,maxy` in degrees, checked field by field. */
module ConvertViews {
  import opened Wrappers
  import opened Text

  // ---------------------------------------------------------------------------
  // float() on decimal text

  /** The value of the digits after a decimal point, read from the last digit
      back (each digit and the value after it, divided by ten): a proper
      fraction. */
  function Fraction(digits: string): (r: real)
    requires AllDigits(digits)
    ensures 0.0 <= r < 1.0
  {
    if |digits| == 0 then 0.0
    else (DigitValue(digits[0]) as real + Fraction(digits[1..])) / 10.0
  }

  /** The value of unsigned decimal text: digits, then perhaps a point and
      more digits. */
  function UnsignedValue(s: string): (r: Option<real>)
    ensures r.Some? ==> r.value >= 0.0
  {
    var parts := Split(s, '.');
    if |parts| == 1 && |s| > 0 && AllDigits(s) then Some(DigitsValue(s) as real)
    else if |parts| == 2 && |parts[0]| > 0 && AllDigits(parts[0]) && |parts[1]| > 0 && AllDigits(parts[1]) then
      Some(DigitsValue(parts[0]) as real + Fraction(parts[1]))
    else None
  }

  /** Python's `float(c)` on decimal text: surrounding blanks, an optional
      sign, digits with perhaps a fractional part; anything else raises
      `ValueError` (`None` here). */
  function ParseFloat(s: string): (r: Option<real>)
    ensures r.Some? ==> |Strip(s)| > 0
  {
    var t := Strip(s);
    if |t| > 0 && (t[0] == '-' || t[0] == '+') then
      match UnsignedValue(t[1..])
      case None => None
      case Some(v) => Some(if t[0] == '-' then -v else v)
    else UnsignedValue(t)
  }

  /** Digits alone read as their value. */
  lemma UnsignedDigits(body: string)
    requires |body| > 0 && AllDigits(body)
    ensures UnsignedValue(body) == Some(DigitsValue(body) as real)
  {
    assert '.' !in body by {
      forall k | 0 <= k < |body| ensures body[k] != '.' {
        assert IsDigit(body[k]);
      }
    }
    SplitWithout(body, '.');
  }

  /** Every signed decimal literal reads as its value: perhaps a sign, the
      whole digits, a point, the fraction digits. */
  lemma ParseFloatDecimal(sign: string, whole: string, frac: string, v: real)
    requires sign == "" || sign == "-" || sign == "+"
    requires |whole| > 0 && AllDigits(whole) && |frac| > 0 && AllDigits(frac)
    requires v == DigitsValue(whole) as real + Fraction(frac)
    ensures ParseFloat(sign + (whole + "." + frac)) == Some(if sign == "-" then -v else v)
  {
    UnsignedDecimal(whole, frac);
    FloatCore(sign, whole, frac, v);
  }

  /** Blanks around a number do not change what `float()` reads. */
  lemma ParseFloatBlanks(lead: string, s: string, trail: string)
    requires AllSpace(lead) && AllSpace(trail)
    requires |s| > 0 ==> !IsSpace(s[0]) && !IsSpace(s[|s| - 1])
    ensures ParseFloat(lead + s + trail) == ParseFloat(s)
  {
    StripAround(lead, s, trail);
    StripNoBlankEnds(s);
    ParseFloatSameStrip(lead + s + trail, s);
  }

  lemma FloatCore(sign: string, whole: string, frac: string, v: real)
    requires sign == "" || sign == "-" || sign == "+"
    requires |whole| > 0 && AllDigits(whole) && |frac| > 0 && AllDigits(frac)
    requires UnsignedValue(whole + "." + frac) == Some(v)
    ensures Strip(sign + (whole + "." + frac)) == sign + (whole + "." + frac)
    ensures ParseFloat(sign + (whole + "." + frac)) == Some(if sign == "-" then -v else v)
  {
    DecimalEnds(whole, frac);
    SignedBody(sign, whole + "." + frac, v);
  }

  lemma ParseFloatSameStrip(x: string, y: string)
    requires Strip(x) == Strip(y)
    ensures ParseFloat(x) == ParseFloat(y)
  {
  }

  lemma UnsignedDecimal(whole: string, frac: string)
    requires |whole| > 0 && AllDigits(whole) && |frac| > 0 && AllDigits(frac)
    ensures UnsignedValue(whole + "." + frac) == Some(DigitsValue(whole) as real + Fraction(frac))
  {
    NoPoint(whole);
    NoPoint(frac);
    PointSplit(whole, frac);
    TwoParts(whole + "." + frac, whole, frac);
  }

  lemma TwoParts(s: string, whole: string, frac: string)
    requires Split(s, '.') == [whole, frac]
    requires |whole| > 0 && AllDigits(whole) && |frac| > 0 && AllDigits(frac)
    ensures UnsignedValue(s) == Some(DigitsValue(whole) as real + Fraction(frac))
  {
  }

  lemma PointSplit(whole: string, frac: string)
    requires '.' !in whole && '.' !in frac
    ensures Split(whole + "." + frac, '.') == [whole, frac]
  {
    assert whole + "." + frac == whole + ['.'] + frac;
    SplitAt(whole, frac, '.');
    SplitWithout(frac, '.');
  }

  lemma NoPoint(d: string)
    requires AllDigits(d)
    ensures '.' !in d
  {
    forall k | 0 <= k < |d| ensures d[k] != '.' {
      assert IsDigit(d[k]);
    }
  }

  lemma DecimalEnds(whole: string, frac: string)
    requires |whole| > 0 && AllDigits(whole) && |frac| > 0 && AllDigits(frac)
    ensures |whole + "." + frac| > 0
    ensures IsDigit((whole + "." + frac)[0]) && IsDigit((whole + "." + frac)[|whole + "." + frac| - 1])
  {
    var body := whole + "." + frac;
    assert body[0] == whole[0];
    assert body[|body| - 1] == frac[|frac| - 1];
  }

  /** A sign in front of unsigned text whose ends are digits: the text after
      stripping, read with the sign. */
  lemma SignedBody(sign: string, body: string, v: real)
    requires sign == "" || sign == "-" || sign == "+"
    requires |body| > 0 && IsDigit(body[0]) && IsDigit(body[|body| - 1])
    requires UnsignedValue(body) == Some(v)
    ensures Strip(sign + body) == sign + body
    ensures ParseFloat(sign + body) == Some(if sign == "-" then -v else v)
  {
    if sign == "" {
      assert sign + body == body;
      UnsignedFloatText(body);
    } else {
      var core := sign + body;
      assert core[0] == sign[0];
      assert core[|core| - 1] == body[|body| - 1];
      assert core[1..] == body;
      SignedFloatText(core);
    }
  }

  lemma UnsignedFloatText(body: string)
    requires |body| > 0 && IsDigit(body[0]) && IsDigit(body[|body| - 1])
    ensures Strip(body) == body
    ensures ParseFloat(body) == UnsignedValue(body)
  {
    StripNoBlankEnds(body);
  }

  lemma SignedFloatText(t: string)
    requires |t| > 1 && (t[0] == '-' || t[0] == '+') && IsDigit(t[|t| - 1])
    requires UnsignedValue(t[1..]).Some?
    ensures Strip(t) == t
    ensures ParseFloat(t) == Some(if t[0] == '-' then -UnsignedValue(t[1..]).value else UnsignedValue(t[1..]).value)
  {
    StripNoBlankEnds(t);
  }

  /** An integer's decimal text reads back as that number. */
  lemma ParseFloatInt(i: int)
    ensures ParseFloat(IntToString(i)) == Some(i as real)
  {
    var t := IntToString(i);
    if i < 0 {
      var body := NatToString(-i);
      UnsignedDigits(body);
      assert t == "-" + body;
      assert !IsSpace(t[0]) && !IsSpace(t[|t| - 1]);
      StripNoBlankEnds(t);
      assert t[1..] == body;
    } else {
      UnsignedDigits(NatToString(i));
      NatToStringNoSpace(i);
    }
  }

  // ---------------------------------------------------------------------------
  // LayerDataForm.clean_bounds

  datatype Bounds = Bounds(minX: real, minY: real, maxX: real, maxY: real)

  /** The four numbers of the text, when it has exactly four pieces and
      each is a number. */
  function Numbers(b: string): (r: Option<Bounds>)
    ensures var pieces := Split(b, ',');
      r.Some? <==> |pieces| == 4 && ParseFloat(pieces[0]).Some? && ParseFloat(pieces[1]).Some? &&
                   ParseFloat(pieces[2]).Some? && ParseFloat(pieces[3]).Some?
    ensures r.Some? ==> var pieces := Split(b, ',');
      r.value == Bounds(ParseFloat(pieces[0]).value, ParseFloat(pieces[1]).value,
                        ParseFloat(pieces[2]).value, ParseFloat(pieces[3]).value)
  {
    var pieces := Split(b, ',');
    if |pieces| != 4 then None
    else
      match (ParseFloat(pieces[0]), ParseFloat(pieces[1]), ParseFloat(pieces[2]), ParseFloat(pieces[3]))
      case (Some(minX), Some(minY), Some(maxX), Some(maxY)) => Some(Bounds(minX, minY, maxX, maxY))
      case _ => None
  }

  predicate InLonRange(v: real) {
    -180.0 <= v <= 180.0
  }

  predicate InLatRange(v: real) {
    -90.0 <= v <= 90.0
  }

  /** The boxes the form accepts: corners in order, longitudes and latitudes
      in range. */
  predicate Valid(bx: Bounds) {
    bx.minX <= bx.maxX && bx.minY <= bx.maxY &&
    InLonRange(bx.minX) && InLonRange(bx.maxX) && InLatRange(bx.minY) && InLatRange(bx.maxY)
  }

  const Invalid := "Invalid bounding box"
  const XOrder := "Invalid bounding box (minx > maxx)"
  const YOrder := "Invalid bounding box (miny > maxy)"
  const XRange := "Invalid bounding box (minx/maxx out of bounds -180,+180)"
  const YRange := "Invalid bounding box (miny/maxy out of bounds -90,+90)"

  /** `clean_bounds`: no box for empty text; otherwise the parsed box when
      it is valid, and the first failed check's message when it is not. */
  function CleanBounds(b: string): (r: Result<Option<Bounds>, string>)
    ensures b == "" <==> r == Ok(None)
    ensures b != "" ==> (r.Ok? <==> Numbers(b).Some? && Valid(Numbers(b).value))
    ensures r.Ok? && b != "" ==> r.value == Numbers(b)
    ensures b != "" && Numbers(b).None? ==> r == Err(Invalid)
    ensures b != "" && Numbers(b).Some? ==> var bx := Numbers(b).value;
      (bx.minX > bx.maxX ==> r == Err(XOrder)) &&
      (bx.minX <= bx.maxX && bx.minY > bx.maxY ==> r == Err(YOrder)) &&
      (bx.minX <= bx.maxX && bx.minY <= bx.maxY && !(InLonRange(bx.minX) && InLonRange(bx.maxX)) ==> r == Err(XRange)) &&
      ((bx.minX <= bx.maxX && bx.minY <= bx.maxY && InLonRange(bx.minX) && InLonRange(bx.maxX) &&
        !(InLatRange(bx.minY) && InLatRange(bx.maxY))) ==> r == Err(YRange))
  {
    if b == "" then Ok(None)
    else
      match Numbers(b)
      case None => Err(Invalid)
      case Some(bx) =>
        if bx.minX > bx.maxX then Err(XOrder)
        else if bx.minY > bx.maxY then Err(YOrder)
        else if bx.minX < -180.0 || bx.minX > 180.0 || bx.maxX < -180.0 || bx.maxX > 180.0 then Err(XRange)
        else if bx.minY < -90.0 || bx.minY > 90.0 || bx.maxY < -90.0 || bx.maxY > 90.0 then Err(YRange)
        else Ok(Some(bx))
  }

  /** A piece of the box's text that reads as `v`. */
  predicate Reads(piece: string, v: real) {
    ',' !in piece && ParseFloat(piece) == Some(v)
  }

  /** Four pieces joined with commas read back as the box of their
      numbers. */
  lemma NumbersOfPieces(p0: string, p1: string, p2: string, p3: string, bx: Bounds)
    requires ',' !in p0 && ',' !in p1 && ',' !in p2 && ',' !in p3
    requires ParseFloat(p0) == Some(bx.minX) && ParseFloat(p1) == Some(bx.minY)
    requires ParseFloat(p2) == Some(bx.maxX) && ParseFloat(p3) == Some(bx.maxY)
    ensures Numbers(p0 + "," + p1 + "," + p2 + "," + p3) == Some(bx)
  {
    SplitFour(p0, p1, p2, p3);
  }

  /** Four comma-free pieces joined with commas split back into them. */
  lemma SplitFour(p0: string, p1: string, p2: string, p3: string)
    requires ',' !in p0 && ',' !in p1 && ',' !in p2 && ',' !in p3
    ensures Split(p0 + "," + p1 + "," + p2 + "," + p3, ',') == [p0, p1, p2, p3]
  {
    var parts := [p0, p1, p2, p3];
    JoinFour(p0, p1, p2, p3, ",");
    assert forall k :: 0 <= k < |parts| ==> ',' !in parts[k];
    SplitJoin(parts, ',');
  }

  /** An integer's text is a piece that reads as the integer. */
  lemma ReadsInt(i: int)
    ensures Reads(IntToString(i), i as real)
  {
    NoCommaInInt(i);
    ParseFloatInt(i);
  }

  /** Four whole numbers written as the form expects them read back as a
      box of those numbers. */
  lemma NumbersOfInts(minX: int, minY: int, maxX: int, maxY: int)
    ensures Numbers(IntToString(minX) + "," + IntToString(minY) + "," + IntToString(maxX) + "," + IntToString(maxY)) ==
            Some(Bounds(minX as real, minY as real, maxX as real, maxY as real))
  {
    ReadsInt(minX);
    ReadsInt(minY);
    ReadsInt(maxX);
    ReadsInt(maxY);
    NumbersOfPieces(IntToString(minX), IntToString(minY), IntToString(maxX), IntToString(maxY),
                    Bounds(minX as real, minY as real, maxX as real, maxY as real));
  }

  /** A valid box of whole degrees, written as the form expects it, is
      accepted and comes back unchanged. */
  lemma CleanBoundsRoundTrip(minX: int, minY: int, maxX: int, maxY: int)
    requires Valid(Bounds(minX as real, minY as real, maxX as real, maxY as real))
    ensures CleanBounds(IntToString(minX) + "," + IntToString(minY) + "," + IntToString(maxX) + "," + IntToString(maxY)) ==
            Ok(Some(Bounds(minX as real, minY as real, maxX as real, maxY as real)))
  {
    NumbersOfInts(minX, minY, maxX, maxY);
    var b := IntToString(minX) + "," + IntToString(minY) + "," + IntToString(maxX) + "," + IntToString(maxY);
    assert |b| > 0;
  }

  lemma NoCommaInInt(i: int)
    ensures ',' !in IntToString(i)
  {
    var body := NatToString(if i < 0 then -i else i);
    forall k | 0 <= k < |body| ensures body[k] != ',' {
      assert IsDigit(body[k]);
    }
    if i < 0 {
      assert IntToString(i) == "-" + body;
    }
  }
}
