/** String helpers with the semantics the repository relies on: JavaScript's and
    Python's decimal rendering of integers, Python's `int()` on a decimal string,
    `str.split(sep)`, `str.split()`, `str.strip()`, `sep.join(...)` and the ASCII
    case mappings of Python 2 byte strings. */
module Text {
  import opened Wrappers

  // ---------------------------------------------------------------------------
  // Characters

  predicate IsDigit(c: char) {
    '0' <= c <= '9'
  }

  predicate IsLetter(c: char) {
    ('a' <= c <= 'z') || ('A' <= c <= 'Z')
  }

  predicate IsLower(c: char) {
    'a' <= c <= 'z'
  }

  /** The characters Python 2's `str.strip()` and `str.split()` treat as blank. */
  predicate IsSpace(c: char) {
    c == ' ' || c == '\t' || c == '\n' || c == '\r' || c == '\U{000B}' || c == '\U{000C}'
  }

  predicate AllDigits(s: string) {
    forall i :: 0 <= i < |s| ==> IsDigit(s[i])
  }

  predicate AllLetters(s: string) {
    forall i :: 0 <= i < |s| ==> IsLetter(s[i])
  }

  function UpperChar(c: char): char {
    if 'a' <= c <= 'z' then (c as int - 32) as char else c
  }

  function LowerChar(c: char): char {
    if 'A' <= c <= 'Z' then (c as int + 32) as char else c
  }

  /** `s.upper()` on an ASCII string. */
  function Upper(s: string): (r: string)
    ensures |r| == |s|
    ensures forall i :: 0 <= i < |s| ==> r[i] == UpperChar(s[i])
  {
    if |s| == 0 then "" else [UpperChar(s[0])] + Upper(s[1..])
  }

  function Lower(s: string): (r: string)
    ensures |r| == |s|
    ensures forall i :: 0 <= i < |s| ==> r[i] == LowerChar(s[i])
  {
    if |s| == 0 then "" else [LowerChar(s[0])] + Lower(s[1..])
  }

  /** `s.capitalize()`: first character upper-cased, the rest lower-cased. */
  function Capitalize(s: string): (r: string)
    ensures |r| == |s|
    ensures |s| > 0 ==> r[0] == UpperChar(s[0]) && r[1..] == Lower(s[1..])
  {
    if |s| == 0 then "" else [UpperChar(s[0])] + Lower(s[1..])
  }

  // ---------------------------------------------------------------------------
  // Integers as decimal text

  function DigitChar(d: nat): char
    requires d < 10
  {
    "0123456789"[d]
  }

  function DigitValue(c: char): nat
    requires IsDigit(c)
  {
    c as int - '0' as int
  }

  /** The value of a string of decimal digits, most significant first. */
  function DigitsValue(s: string): nat
    requires AllDigits(s)
  {
    if |s| == 0 then 0 else 10 * DigitsValue(s[..|s| - 1]) + DigitValue(s[|s| - 1])
  }

  /** Decimal rendering of a natural number without leading zeros. */
  function NatToString(n: nat): (r: string)
    ensures |r| > 0 && AllDigits(r)
    ensures DigitsValue(r) == n
    ensures n > 0 ==> r[0] != '0'
  {
    if n < 10 then [DigitChar(n)]
    else
      var p := NatToString(n / 10);
      var r := p + [DigitChar(n % 10)];
      assert r[..|r| - 1] == p;
      r
  }

  /** `String(i)` in JavaScript and `str(i)` / `"%d" % i` in Python for an integer. */
  function IntToString(i: int): (r: string)
    ensures |r| > 0
    ensures i < 0 <==> r[0] == '-'
  {
    if i < 0 then "-" + NatToString(-i) else NatToString(i)
  }

  /** Python 2's `int(s)` on a byte string: surrounding blanks, an optional
      sign that blanks may follow, then at least one decimal digit; anything
      else raises ValueError (None here). */
  function ParseInt(s: string): (r: Option<int>)
    ensures r.Some? ==> |Strip(s)| > 0
    ensures r.Some? && r.value < 0 ==> Strip(s)[0] == '-'
  {
    var t := Strip(s);
    if |t| > 0 && (t[0] == '-' || t[0] == '+') then
      var body := SkipBlanks(t[1..]);
      if |body| > 0 && AllDigits(body) then
        Some(if t[0] == '-' then -(DigitsValue(body) as int) else DigitsValue(body))
      else None
    else if |t| > 0 && AllDigits(t) then Some(DigitsValue(t))
    else None
  }

  /** The text after its leading blanks, as `StripLeft` computes it
      (`SkipBlanksIsStripLeft`), without that function's contract. */
  function SkipBlanks(s: string): string
  {
    if |s| > 0 && IsSpace(s[0]) then SkipBlanks(s[1..]) else s
  }

  lemma {:induction false} SkipBlanksIsStripLeft(s: string)
    ensures SkipBlanks(s) == StripLeft(s)
  {
    if |s| > 0 && IsSpace(s[0]) {
      SkipBlanksIsStripLeft(s[1..]);
    }
  }

  lemma {:induction false} SkipBlanksBefore(b: string, x: string)
    requires AllSpace(b)
    requires |x| > 0 ==> !IsSpace(x[0])
    ensures SkipBlanks(b + x) == x
    decreases |b|
  {
    if |b| > 0 {
      assert (b + x)[1..] == b[1..] + x;
      SkipBlanksBefore(b[1..], x);
    } else {
      assert b + x == x;
    }
  }

  predicate AllSpace(s: string) {
    forall i :: 0 <= i < |s| ==> IsSpace(s[i])
  }

  /** Every literal `int()` accepts reads as its value: blanks, perhaps a sign
      and more blanks, the digits, blanks. */
  lemma ParseIntLiteral(lead: string, sign: string, gap: string, digits: string, trail: string)
    requires AllSpace(lead) && AllSpace(gap) && AllSpace(trail)
    requires sign == "" || sign == "-" || sign == "+"
    requires sign == "" ==> gap == ""
    requires |digits| > 0 && AllDigits(digits)
    ensures ParseInt(lead + (sign + gap + digits) + trail)
         == Some(if sign == "-" then -(DigitsValue(digits) as int) else DigitsValue(digits))
  {
    ParseIntCore(sign, gap, digits);
    CoreEnds(sign, gap, digits);
    StripAround(lead, sign + gap + digits, trail);
    ParseIntSameStrip(lead + (sign + gap + digits) + trail, sign + gap + digits);
  }

  /** Conversely, every text `int()` accepts is such a literal, and its value
      is the one its digits and sign give. */
  lemma ParseIntParts(s: string) returns (lead: string, sign: string, gap: string, digits: string, trail: string)
    requires ParseInt(s).Some?
    ensures AllSpace(lead) && AllSpace(gap) && AllSpace(trail)
    ensures sign == "" || sign == "-" || sign == "+"
    ensures sign == "" ==> gap == ""
    ensures |digits| > 0 && AllDigits(digits)
    ensures s == lead + (sign + gap + digits) + trail
    ensures ParseInt(s).value == if sign == "-" then -(DigitsValue(digits) as int) else DigitsValue(digits)
  {
    lead, trail := SplitAround(s);
    var t := Strip(s);
    if t[0] == '-' || t[0] == '+' {
      sign, gap, digits := SplitSigned(t);
    } else {
      sign, gap, digits := "", "", t;
      assert t == sign + gap + digits;
    }
  }

  /** A signed text is its sign, its blanks, then what `SkipBlanks` leaves. */
  lemma SplitSigned(t: string) returns (sign: string, gap: string, digits: string)
    requires |t| > 0
    ensures sign == [t[0]] && AllSpace(gap) && digits == SkipBlanks(t[1..])
    ensures t == sign + gap + digits
  {
    sign := [t[0]];
    gap := SplitBlanks(t[1..]);
    digits := SkipBlanks(t[1..]);
    HeadTail(t, gap + digits);
  }

  lemma HeadTail(t: string, u: string)
    requires |t| > 0 && t[1..] == u
    ensures t == [t[0]] + u
  {
    assert t == [t[0]] + t[1..];
  }

  /** Any text is its blank ends around its strip. */
  lemma SplitAround(s: string) returns (lead: string, trail: string)
    ensures AllSpace(lead) && AllSpace(trail)
    ensures s == lead + Strip(s) + trail
  {
    StripTrims(s);
    var i := |s| - |StripLeft(s)|;
    lead, trail := ThreeParts(s, i, i + |Strip(s)|, Strip(s));
  }

  /** A middle slice with only blanks around it. */
  lemma ThreeParts(s: string, i: nat, j: nat, m: string) returns (lead: string, trail: string)
    requires i <= j <= |s| && m == s[i..j]
    requires forall k :: 0 <= k < i ==> IsSpace(s[k])
    requires forall k :: j <= k < |s| ==> IsSpace(s[k])
    ensures AllSpace(lead) && AllSpace(trail) && s == lead + m + trail
  {
    lead, trail := s[..i], s[j..];
    assert s == lead + m + trail;
    forall k | 0 <= k < |lead| ensures IsSpace(lead[k]) {
      assert lead[k] == s[k];
    }
    forall k | 0 <= k < |trail| ensures IsSpace(trail[k]) {
      assert trail[k] == s[j + k];
    }
  }

  /** Any text is its leading blanks followed by what `SkipBlanks` leaves. */
  lemma SplitBlanks(u: string) returns (gap: string)
    ensures AllSpace(gap) && u == gap + SkipBlanks(u)
  {
    SkipBlanksIsStripLeft(u);
    var r := StripLeft(u);
    gap := BlankPrefix(u, r);
  }

  lemma BlankPrefix(u: string, r: string) returns (gap: string)
    requires |r| <= |u| && r == u[|u| - |r|..]
    requires forall i :: 0 <= i < |u| - |r| ==> IsSpace(u[i])
    ensures AllSpace(gap) && u == gap + r
  {
    gap := u[..|u| - |r|];
    assert u == gap + r;
  }

  lemma ParseIntCore(sign: string, gap: string, digits: string)
    requires AllSpace(gap)
    requires sign == "" || sign == "-" || sign == "+"
    requires sign == "" ==> gap == ""
    requires |digits| > 0 && AllDigits(digits)
    ensures ParseInt(sign + gap + digits) == Some(if sign == "-" then -(DigitsValue(digits) as int) else DigitsValue(digits))
  {
    var core := sign + gap + digits;
    if sign == "" {
      assert core == digits;
      ParseIntDigits(digits);
    } else {
      SkipBlanksBefore(gap, digits);
      SignedCore(sign, gap, digits);
    }
  }

  lemma CoreEnds(sign: string, gap: string, digits: string)
    requires sign == "" || sign == "-" || sign == "+"
    requires sign == "" ==> gap == ""
    requires |digits| > 0 && AllDigits(digits)
    ensures var core := sign + gap + digits;
      |core| > 0 ==> !IsSpace(core[0]) && !IsSpace(core[|core| - 1])
  {
    var core := sign + gap + digits;
    assert core[|core| - 1] == digits[|digits| - 1];
    if sign == "" { assert core[0] == digits[0]; }
  }

  lemma ParseIntSameStrip(x: string, y: string)
    requires Strip(x) == Strip(y)
    ensures ParseInt(x) == ParseInt(y)
  {
  }

  lemma SignedCore(sign: string, gap: string, digits: string)
    requires sign == "-" || sign == "+"
    requires |digits| > 0 && AllDigits(digits)
    requires SkipBlanks(gap + digits) == digits
    ensures ParseInt(sign + gap + digits)
         == Some(if sign == "-" then -(DigitsValue(digits) as int) else DigitsValue(digits))
  {
    SignedShape(sign, gap, digits);
    SignedText(sign + gap + digits, digits);
  }

  lemma SignedShape(sign: string, gap: string, digits: string)
    requires |sign| == 1 && |digits| > 0
    ensures var core := sign + gap + digits;
      core[0] == sign[0] && core[|core| - 1] == digits[|digits| - 1] && core[1..] == gap + digits
  {
    var core := sign + gap + digits;
    assert core[1..] == gap + digits;
  }

  lemma SignedText(t: string, digits: string)
    requires |t| > 0 && (t[0] == '-' || t[0] == '+') && !IsSpace(t[|t| - 1])
    requires SkipBlanks(t[1..]) == digits && |digits| > 0 && AllDigits(digits)
    ensures ParseInt(t) == Some(if t[0] == '-' then -(DigitsValue(digits) as int) else DigitsValue(digits))
  {
    StripNoBlankEnds(t);
  }

  /** Python 2's `int("- 2")` is -2: blanks may follow the sign. */
  lemma ParseIntBlankAfterSign()
    ensures ParseInt("- 2") == Some(-2)
  {
    SignedText("- 2", "2");
    assert DigitsValue("2") == 2 by { assert "2"[..0] == ""; }
  }

  /** A sign alone, or a sign with blanks and no digit, is no integer. */
  lemma ParseIntSignOnly(sign: string, gap: string)
    requires sign == "-" || sign == "+"
    requires AllSpace(gap)
    ensures ParseInt(sign + gap) == None
  {
    StripAround("", sign, gap);
    assert "" + sign + gap == sign + gap;
  }

  lemma NatToStringNoSpace(n: nat)
    ensures Strip(NatToString(n)) == NatToString(n)
  {
    var r := NatToString(n);
    assert !IsSpace(r[0]);
    assert !IsSpace(r[|r| - 1]);
  }

  /** Decimal rendering is the inverse of decimal parsing: what a page, a map
      client or a server writes with `IntToString` reads back with `ParseInt`. */
  lemma ParseIntToString(i: int)
    ensures ParseInt(IntToString(i)) == Some(i)
  {
    if i < 0 {
      var body := NatToString(-i);
      var t := "-" + body;
      assert !IsSpace(t[0]);
      assert t[|t| - 1] == body[|body| - 1];
      assert !IsSpace(t[|t| - 1]);
      assert Strip(t) == t;
      assert t[1..] == body;
    } else {
      NatToStringNoSpace(i);
    }
  }

  /** A plain digit string is read as its value. */
  lemma ParseIntDigits(s: string)
    requires |s| > 0 && AllDigits(s)
    ensures ParseInt(s) == Some(DigitsValue(s))
  {
    assert !IsSpace(s[0]) && !IsSpace(s[|s| - 1]);
    StripNoBlankEnds(s);
  }

  /** Leading zeros do not change the value. */
  lemma {:induction false} DigitsValueLeadingZero(s: string)
    requires AllDigits(s)
    ensures AllDigits("0" + s) && DigitsValue("0" + s) == DigitsValue(s)
    decreases |s|
  {
    var t := "0" + s;
    assert forall i :: 0 <= i < |t| ==> IsDigit(t[i]) by {
      forall i | 0 <= i < |t| ensures IsDigit(t[i]) {
        if i > 0 { assert t[i] == s[i - 1]; }
      }
    }
    if |s| > 0 {
      var init := s[..|s| - 1];
      assert t[..|t| - 1] == "0" + init;
      DigitsValueLeadingZero(init);
    }
  }

  /** `int()` refuses a minus sign between digits. */
  lemma MinusInsideIsNotInteger(a: string, b: string)
    requires |a| > 0 && AllDigits(a) && |b| > 0 && AllDigits(b)
    ensures ParseInt(a + "-" + b) == None
  {
    var s := a + "-" + b;
    assert s[0] == a[0] && s[|s| - 1] == b[|b| - 1];
    StripNoBlankEnds(s);
    assert s[|a|] == '-';
    assert s[1..][|a| - 1] == '-';
  }

  // ---------------------------------------------------------------------------
  // Strip

  function StripLeft(s: string): (r: string)
    ensures |r| <= |s| && r == s[|s| - |r|..]
    ensures forall i :: 0 <= i < |s| - |r| ==> IsSpace(s[i])
    ensures |r| > 0 ==> !IsSpace(r[0])
  {
    if |s| > 0 && IsSpace(s[0]) then StripLeft(s[1..]) else s
  }

  function StripRight(s: string): (r: string)
    ensures |r| <= |s| && r == s[..|r|]
    ensures forall i :: |r| <= i < |s| ==> IsSpace(s[i])
    ensures |r| > 0 ==> !IsSpace(r[|r| - 1])
  {
    if |s| > 0 && IsSpace(s[|s| - 1]) then StripRight(s[..|s| - 1]) else s
  }

  /** `s.strip()`: the longest blank prefix and suffix are removed. */
  function Strip(s: string): (r: string)
    ensures |r| <= |s|
    ensures |r| > 0 ==> !IsSpace(r[0]) && !IsSpace(r[|r| - 1])
  {
    StripRight(StripLeft(s))
  }

  /** A string without blanks at its ends is its own strip. */
  lemma StripNoBlankEnds(s: string)
    requires |s| > 0 ==> !IsSpace(s[0]) && !IsSpace(s[|s| - 1])
    ensures Strip(s) == s
  {
  }

  lemma {:induction false} StripLeftBlanks(b: string, x: string)
    requires AllSpace(b)
    requires |x| > 0 ==> !IsSpace(x[0])
    ensures StripLeft(b + x) == x
    decreases |b|
  {
    if |b| > 0 {
      assert (b + x)[1..] == b[1..] + x;
      StripLeftBlanks(b[1..], x);
    } else {
      assert b + x == x;
    }
  }

  lemma {:induction false} StripRightBlanks(x: string, b: string)
    requires AllSpace(b)
    requires |x| > 0 ==> !IsSpace(x[|x| - 1])
    ensures StripRight(x + b) == x
    decreases |b|
  {
    if |b| > 0 {
      assert (x + b)[..|x + b| - 1] == x + b[..|b| - 1];
      StripRightBlanks(x, b[..|b| - 1]);
    } else {
      assert x + b == x;
    }
  }

  /** `strip()` removes exactly the blanks around a text that neither starts
      nor ends with one. */
  lemma StripAround(lead: string, core: string, trail: string)
    requires AllSpace(lead) && AllSpace(trail)
    requires |core| > 0 ==> !IsSpace(core[0]) && !IsSpace(core[|core| - 1])
    ensures Strip(lead + core + trail) == core
  {
    assert lead + core + trail == lead + (core + trail);
    if |core| > 0 {
      assert (core + trail)[0] == core[0];
      StripLeftBlanks(lead, core + trail);
      StripRightBlanks(core, trail);
    } else {
      assert AllSpace(lead + trail);
      StripLeftBlanks(lead + trail, "");
      assert lead + trail + "" == lead + trail;
      StripRightBlanks("", "");
    }
  }

  /** `strip()` keeps a middle slice of the text and drops only blanks: the
      slice starts where the leading blanks end. */
  lemma StripTrims(s: string)
    ensures |StripLeft(s)| <= |s| && |Strip(s)| <= |StripLeft(s)|
    ensures Strip(s) == s[|s| - |StripLeft(s)|..|s| - |StripLeft(s)| + |Strip(s)|]
    ensures forall k :: 0 <= k < |s| - |StripLeft(s)| ==> IsSpace(s[k])
    ensures forall k :: |s| - |StripLeft(s)| + |Strip(s)| <= k < |s| ==> IsSpace(s[k])
  {
    TrimmedSlice(s, |s| - |StripLeft(s)|, StripLeft(s), Strip(s));
  }

  /** Blanks before the suffix `l` of `s` and blanks after the prefix `r` of `l`
      leave `r` as a middle slice of `s` with only blanks around it. */
  lemma TrimmedSlice(s: string, i: nat, l: string, r: string)
    requires i + |l| == |s| && l == s[i..]
    requires |r| <= |l| && r == l[..|r|]
    requires forall k :: 0 <= k < i ==> IsSpace(s[k])
    requires forall j :: |r| <= j < |l| ==> IsSpace(l[j])
    ensures i + |r| <= |s| && r == s[i..i + |r|]
    ensures forall k :: 0 <= k < i ==> IsSpace(s[k])
    ensures forall k :: i + |r| <= k < |s| ==> IsSpace(s[k])
  {
    forall k | i + |r| <= k < |s| ensures IsSpace(s[k]) {
      assert s[k] == l[k - i];
    }
  }

  // ---------------------------------------------------------------------------
  // Joining and splitting

  /** `sep.join(parts)`. */
  function Join(parts: seq<string>, sep: string): (r: string)
    ensures |parts| == 0 ==> r == ""
    ensures |parts| == 1 ==> r == parts[0]
  {
    if |parts| == 0 then ""
    else if |parts| == 1 then parts[0]
    else parts[0] + sep + Join(parts[1..], sep)
  }

  lemma JoinThree(x: string, y: string, z: string, sep: string)
    ensures Join([x, y, z], sep) == x + sep + y + sep + z
  {
    assert [x, y, z][1..] == [y, z];
    assert [y, z][1..] == [z];
  }

  lemma JoinFour(w: string, x: string, y: string, z: string, sep: string)
    ensures Join([w, x, y, z], sep) == w + sep + x + sep + y + sep + z
  {
    assert [w, x, y, z][1..] == [x, y, z];
    JoinThree(x, y, z, sep);
  }

  /** `s.split(c)` for a one-character separator: always at least one piece. */
  function Split(s: string, c: char): (r: seq<string>)
    ensures |r| >= 1
    ensures forall k :: 0 <= k < |r| ==> c !in r[k]
  {
    if |s| == 0 then [""]
    else
      var rest := Split(s[1..], c);
      if s[0] == c then [""] + rest else [[s[0]] + rest[0]] + rest[1..]
  }

  lemma {:induction false} SplitWithout(a: string, c: char)
    requires c !in a
    ensures Split(a, c) == [a]
  {
    if |a| > 0 {
      SplitWithout(a[1..], c);
      assert [a[0]] + a[1..] == a;
    }
  }

  lemma {:induction false} SplitAt(a: string, b: string, c: char)
    requires c !in a
    ensures Split(a + [c] + b, c) == [a] + Split(b, c)
  {
    if |a| == 0 {
      assert a + [c] + b == [c] + b;
      assert ([c] + b)[1..] == b;
    } else {
      var s := a + [c] + b;
      assert s[1..] == a[1..] + [c] + b;
      SplitAt(a[1..], b, c);
      assert [a[0]] + a[1..] == a;
    }
  }

  /** Splitting on the separator undoes joining with it, as long as no piece
      contains the separator: the cell token's cross-language round trip. */
  lemma {:induction false} SplitJoin(parts: seq<string>, c: char)
    requires |parts| >= 1
    requires forall k :: 0 <= k < |parts| ==> c !in parts[k]
    ensures Split(Join(parts, [c]), c) == parts
  {
    if |parts| == 1 {
      SplitWithout(parts[0], c);
    } else {
      SplitJoin(parts[1..], c);
      assert Join(parts, [c]) == parts[0] + [c] + Join(parts[1..], [c]);
      SplitAt(parts[0], Join(parts[1..], [c]), c);
      assert [parts[0]] + parts[1..] == parts;
    }
  }

  /** Joining the pieces of a split with the separator gives the string back. */
  lemma {:induction false} JoinSplit(s: string, c: char)
    ensures Join(Split(s, c), [c]) == s
  {
    if |s| > 0 {
      var rest := Split(s[1..], c);
      JoinSplit(s[1..], c);
      if s[0] == c {
        assert Split(s, c) == [""] + rest;
        assert ([""] + rest)[1..] == rest;
        assert Join(Split(s, c), [c]) == "" + [c] + Join(rest, [c]);
        assert [s[0]] + s[1..] == s;
      } else {
        var parts := [[s[0]] + rest[0]] + rest[1..];
        assert Split(s, c) == parts;
        if |rest| == 1 {
          assert Join(rest, [c]) == rest[0];
          assert [s[0]] + s[1..] == s;
        } else {
          assert parts[1..] == rest[1..];
          assert Join(rest, [c]) == rest[0] + [c] + Join(rest[1..], [c]);
          assert Join(parts, [c]) == [s[0]] + rest[0] + [c] + Join(rest[1..], [c]);
          assert [s[0]] + s[1..] == s;
        }
      }
    }
  }

  /** Python's `s.split()` with no argument, written with an accumulator for the
      word being read: maximal runs of non-blank characters. */
  function WordsFrom(s: string, cur: string): (r: seq<string>)
    requires forall i :: 0 <= i < |cur| ==> !IsSpace(cur[i])
    ensures forall k :: 0 <= k < |r| ==> |r[k]| > 0
    ensures forall k, i :: 0 <= k < |r| && 0 <= i < |r[k]| ==> !IsSpace(r[k][i])
    decreases |s|
  {
    if |s| == 0 then (if cur == "" then [] else [cur])
    else if IsSpace(s[0]) then
      (if cur == "" then [] else [cur]) + WordsFrom(s[1..], "")
    else WordsFrom(s[1..], cur + [s[0]])
  }

  function Words(s: string): (r: seq<string>)
    ensures forall k :: 0 <= k < |r| ==> |r[k]| > 0
    ensures forall k, i :: 0 <= k < |r| && 0 <= i < |r[k]| ==> !IsSpace(r[k][i])
  {
    WordsFrom(s, "")
  }

  predicate BlankFree(w: string) {
    forall i :: 0 <= i < |w| ==> !IsSpace(w[i])
  }

  lemma {:induction false} WordsFromRun(w: string, s: string, cur: string)
    requires BlankFree(w) && BlankFree(cur)
    ensures BlankFree(cur + w)
    ensures WordsFrom(w + s, cur) == WordsFrom(s, cur + w)
    decreases |w|
  {
    if |w| == 0 {
      assert w + s == s && cur + w == cur;
    } else {
      var t := w + s;
      assert t[0] == w[0] && t[1..] == w[1..] + s;
      var cur' := cur + [w[0]];
      assert cur' + w[1..] == cur + w;
      WordsFromRun(w[1..], s, cur');
    }
  }

  /** A text without blanks is one word. */
  lemma WordsOfWord(w: string)
    requires |w| > 0 && BlankFree(w)
    ensures Words(w) == [w]
  {
    WordsFromRun(w, "", "");
    assert w + "" == w && "" + w == w;
  }

  /** Blanks before the first word are skipped. */
  lemma WordsSkipsBlank(b: char, s: string)
    requires IsSpace(b)
    ensures Words([b] + s) == Words(s)
  {
    assert ([b] + s)[1..] == s;
  }

  /** A word ends at the first blank after it. */
  lemma WordsCutsAtBlank(w: string, b: char, s: string)
    requires |w| > 0 && BlankFree(w) && IsSpace(b)
    ensures Words(w + [b] + s) == [w] + Words(s)
  {
    assert w + [b] + s == w + ([b] + s);
    WordsFromRun(w, [b] + s, "");
    assert "" + w == w;
    assert ([b] + s)[1..] == s;
  }

  /** `" ".join(ws).split() == ws` for words that are non-empty and blank-free. */
  lemma {:induction false} WordsJoin(ws: seq<string>)
    requires forall k :: 0 <= k < |ws| ==> |ws[k]| > 0 && BlankFree(ws[k])
    ensures Words(Join(ws, " ")) == ws
  {
    if |ws| == 1 {
      WordsOfWord(ws[0]);
    } else if |ws| > 1 {
      WordsJoin(ws[1..]);
      assert Join(ws, " ") == ws[0] + [' '] + Join(ws[1..], " ");
      WordsCutsAtBlank(ws[0], ' ', Join(ws[1..], " "));
      assert ws == [ws[0]] + ws[1..];
    }
  }

  predicate StartsWith(s: string, prefix: string) {
    |prefix| <= |s| && s[..|prefix|] == prefix
  }

  predicate EndsWith(s: string, suffix: string) {
    |suffix| <= |s| && s[|s| - |suffix|..] == suffix
  }

  lemma EndsWithAppend(s: string, suffix: string)
    ensures EndsWith(s + suffix, suffix) && StartsWith(s + suffix, s)
  {
    assert (s + suffix)[|s|..] == suffix;
    assert (s + suffix)[..|s|] == s;
  }
}
