/** The road-label unmangler of scripts/unmangle.py: abbreviations in road
    names from the MP files are expanded token by token, and motorway exit
    labels are split into a label, an exit number and an exit name. */
module Unmangle {
  import opened Wrappers
  import opened Text
  import opened Seqs

  // ---------------------------------------------------------------------------
  // The abbreviation tables

  /** `ABBREV_DIRECTIONS`. */
  const Directions: map<string, string> := map[
    "N" := "North", "S" := "South", "E" := "East", "W" := "West",
    "Ctrl" := "Central", "Ext" := "Extension", "Lwr" := "Lower", "Upr" := "Upper",
    "Extn" := "Extension", "Access" := "Access"]

  /** `ABBREV_STREET_TYPES`. */
  const StreetTypes: map<string, string> := map[
    "Accs" := "Access", "Ave" := "Avenue", "Bch" := "Beach", "Blvd" := "Boulevard",
    "Bnd" := "Bend", "Brg" := "Bridge", "By-pass" := "Bypass", "Cir" := "Circle",
    "Cl" := "Close", "Cmn" := "Common", "Crcs" := "Circus", "Cres" := "Crescent",
    "Crst" := "Crest", "Crt" := "Court", "Ctr" := "Centre", "Dr" := "Drive",
    "Dve" := "Drive", "Esp" := "Esplanade", "Exit" := "Exit", "Fawy" := "Fairway",
    "Gdns" := "Gardens", "Gld" := "Glade", "Gln" := "Glen", "Gr" := "Grove",
    "Grn" := "Green", "Grv" := "Grove", "Hts" := "Heights", "Hwy" := "Highway",
    "Ledr" := "Leader", "Ln" := "Lane", "Lwr" := "Lower", "Mwy" := "Motorway",
    "Pde" := "Parade", "Pk" := "Park", "Pl" := "Place", "Prom" := "Promenade",
    "Pt" := "Point", "Qy" := "Quay", "Rd" := "Road", "Rds" := "Roads",
    "Sq" := "Square", "St" := "Street", "Strd" := "Strand", "Tce" := "Terrace",
    "Tk" := "Track", "Trk" := "Track", "Vis" := "Vista", "Vlg" := "Village",
    "Vly" := "Valley", "Walkay" := "Walkway", "Walway" := "Walway", "Wlk" := "Walk",
    "Wy" := "Way"]

  /** `ABBREV_GENERAL`, looked up by the capitalised token. */
  const General: map<string, string> := map[
    "4wd" := "4WD", "Mtb" := "Mountain Bike", "Statehighway" := "State Highway",
    "Mountainbike" := "Mountain Bike", "Hwy" := "Highway", "Mwy" := "Motorway"]

  /** `ABBREV_START`, expanded only at the start of a name. */
  const StartWords: map<string, string> := map[
    "Qe" := "Queen Elizabeth", "Pt" := "Point", "No" := "Number", "Mt" := "Mount",
    "St" := "Saint", "Sh" := "State Highway"]

  // ---------------------------------------------------------------------------
  // The token patterns

  /** The length of the run of decimal digits that starts `s`. */
  function LeadingDigits(s: string): (n: nat)
    ensures n <= |s|
    ensures AllDigits(s[..n])
    ensures n < |s| ==> !IsDigit(s[n])
  {
    if |s| == 0 || !IsDigit(s[0]) then 0 else 1 + LeadingDigits(s[1..])
  }

  /** `^[0-9]+[A-Za-z]*$` (`NUMBERISH`, and the number of `SH_NO`). */
  predicate Numberish(s: string) {
    var n := LeadingDigits(s);
    n >= 1 && AllLetters(s[n..])
  }

  /** `Numberish` is the pattern: some non-empty run of digits followed by
      nothing but letters. */
  lemma NumberishSplit(s: string)
    ensures Numberish(s) <==> exists k :: 1 <= k <= |s| && AllDigits(s[..k]) && AllLetters(s[k..])
  {
    var n := LeadingDigits(s);
    if Numberish(s) {
      assert AllDigits(s[..n]) && AllLetters(s[n..]);
    }
  }

  /** `^([A-Za-z]\.)+([A-Za-z])?$` (`A_C_R_O_N_Y_M`): letter-dot pairs, then
      perhaps one more letter. */
  predicate Acronym(s: string)
    decreases |s|
  {
    |s| >= 2 && IsLetter(s[0]) && s[1] == '.'
    && (|s| == 2 || (|s| == 3 && IsLetter(s[2])) || Acronym(s[2..]))
  }

  /** Letters at the even positions, dots at the odd ones. */
  predicate Alternating(s: string) {
    forall i :: 0 <= i < |s| ==> if i % 2 == 0 then IsLetter(s[i]) else s[i] == '.'
  }

  /** The acronym pattern is exactly an alternation of letters and dots, at
      least one pair long. */
  lemma {:induction false} AcronymAlternating(s: string)
    ensures Acronym(s) <==> |s| >= 2 && Alternating(s)
    decreases |s|
  {
    if |s| >= 2 {
      var t := s[2..];
      assert forall i :: 0 <= i < |t| ==> t[i] == s[i + 2];
      if |s| > 3 {
        AcronymAlternating(t);
        if Alternating(s) {
          forall i | 0 <= i < |t|
            ensures if i % 2 == 0 then IsLetter(t[i]) else t[i] == '.'
          {
            assert (i + 2) % 2 == i % 2;
          }
        }
        if Acronym(s) {
          forall i | 0 <= i < |s|
            ensures if i % 2 == 0 then IsLetter(s[i]) else s[i] == '.'
          {
            if i >= 2 {
              assert (i - 2) % 2 == i % 2;
              assert s[i] == t[i - 2];
            }
          }
        }
      } else if |s| == 3 {
        assert !Acronym(t);
      }
    }
  }

  /** `SH_NO`: "Sh" followed by a number. */
  predicate StateHighwayNumber(t: string) {
    StartsWith(t, "Sh") && Numberish(t[2..])
  }

  // ---------------------------------------------------------------------------
  // clean_token

  /** No blank at either end: what `strip()` leaves. */
  predicate Trimmed(s: string) {
    |s| > 0 ==> !IsSpace(s[0]) && !IsSpace(s[|s| - 1])
  }

  lemma StripTrimmed(s: string)
    ensures Trimmed(Strip(s))
  {
  }

  /** Upper-casing never makes or removes a blank. */
  lemma UpperTrimmed(s: string)
    requires Trimmed(s)
    ensures Trimmed(Upper(s))
  {
  }

  /** `clean_token`: strip the token, then the first rule that applies. */
  function CleanToken(arg: string): (r: string)
    ensures Trimmed(r)
    ensures Strip(arg) == "" <==> r == ""
  {
    var t := Strip(arg);
    StripTrimmed(arg);
    if StateHighwayNumber(t) then StateHighway(t[2..])
    else if Numberish(t) then UpperTrimmed(t); Upper(t)
    else if Acronym(t) then UpperTrimmed(t); Upper(t)
    else if Capitalize(t) in General then Expansion(Capitalize(t))
    else t
  }

  /** "State Highway %s" of a highway number. */
  function StateHighway(number: string): (r: string)
    requires Numberish(number)
    ensures Trimmed(r) && |r| > |"State Highway "|
    ensures r[..|"State Highway "|] == "State Highway "
  {
    "State Highway " + number
  }

  /** An `ABBREV_GENERAL` expansion: a non-empty word or phrase. */
  function Expansion(key: string): (r: string)
    requires key in General
    ensures r == General[key]
    ensures |r| > 0 && Trimmed(r)
  {
    General[key]
  }

  // ---------------------------------------------------------------------------
  // clean_token rule by rule

  /** A stripped token that fits none of the patterns. */
  predicate NoPattern(t: string) {
    !StateHighwayNumber(t) && !Numberish(t) && !Acronym(t)
  }

  lemma CleanStateHighway(arg: string)
    requires StateHighwayNumber(Strip(arg))
    ensures CleanToken(arg) == StateHighway(Strip(arg)[2..])
  {
  }

  lemma CleanNumber(arg: string)
    requires !StateHighwayNumber(Strip(arg)) && Numberish(Strip(arg))
    ensures CleanToken(arg) == Upper(Strip(arg))
  {
  }

  lemma CleanAcronym(arg: string)
    requires !StateHighwayNumber(Strip(arg)) && !Numberish(Strip(arg)) && Acronym(Strip(arg))
    ensures CleanToken(arg) == Upper(Strip(arg))
  {
  }

  lemma CleanGeneral(arg: string)
    requires NoPattern(Strip(arg)) && Capitalize(Strip(arg)) in General
    ensures CleanToken(arg) == General[Capitalize(Strip(arg))]
  {
  }

  lemma CleanKept(arg: string)
    requires NoPattern(Strip(arg)) && Capitalize(Strip(arg)) !in General
    ensures CleanToken(arg) == Strip(arg)
  {
  }

  // ---------------------------------------------------------------------------
  // Facts behind the idempotence of clean_token

  /** The digit run is the only prefix of digits followed by a non-digit. */
  lemma LeadingDigitsUnique(s: string, n: nat)
    requires n <= |s| && AllDigits(s[..n])
    requires n < |s| ==> !IsDigit(s[n])
    ensures LeadingDigits(s) == n
  {
    var m := LeadingDigits(s);
    assert forall i :: 0 <= i < n ==> s[..n][i] == s[i];
    assert forall i :: 0 <= i < m ==> s[..m][i] == s[i];
  }

  /** Upper-casing twice is upper-casing once. */
  lemma UpperUpper(s: string)
    ensures Upper(Upper(s)) == Upper(s)
  {
  }

  /** Upper-casing a number keeps it a number. */
  lemma UpperNumberish(s: string)
    requires Numberish(s)
    ensures Numberish(Upper(s))
  {
    var n := LeadingDigits(s);
    var u := Upper(s);
    assert u[..n] == Upper(s[..n]);
    LeadingDigitsUnique(u, n);
    assert forall i :: 0 <= i < |u| - n ==> u[n..][i] == UpperChar(s[n..][i]);
  }

  /** Upper-casing an acronym keeps it an acronym. */
  lemma UpperAcronym(s: string)
    requires Acronym(s)
    ensures Acronym(Upper(s))
  {
    AcronymAlternating(s);
    AcronymAlternating(Upper(s));
  }

  /** A string opening with a letter is not a number. */
  lemma LetterNotNumberish(s: string)
    requires |s| > 0 && IsLetter(s[0])
    ensures !Numberish(s)
  {
  }

  /** A word that opens with a letter, fits no pattern, and has neither three
      nor twelve characters (so its capitalised form is no general key) is
      kept as it is. */
  lemma KeptWord(v: string)
    requires Trimmed(v) && |v| >= 2 && IsLetter(v[0]) && v[1] != '.' && v[1] != 'h'
    requires |v| != 3 && |v| != 12
    ensures CleanToken(v) == v
  {
    StripNoBlankEnds(v);
    LetterNotNumberish(v);
    if Capitalize(v) in General {
      GeneralKeyLengths(Capitalize(v));
    }
    CleanKept(v);
  }

  /** The expansions of `ABBREV_GENERAL` are left alone by `clean_token`. */
  lemma ExpansionsClean(k: string)
    requires k in General
    ensures CleanToken(General[k]) == General[k]
  {
    var v := General[k];
    ExpansionValues(k);
    if v == "4WD" {
      assert v[0] == '4' && v[1] == 'W' && v[2] == 'D';
      FourWdClean(v);
    } else {
      KeptWord(v);
    }
  }

  /** The expansions: "4WD", or words that fit no pattern and are no key. */
  lemma ExpansionValues(k: string)
    requires k in General
    ensures var v := General[k];
      v == "4WD" ||
      (Trimmed(v) && |v| >= 2 && IsLetter(v[0]) && v[1] != '.' && v[1] != 'h' && |v| != 3 && |v| != 12)
  {
  }

  /** A digit followed by capital letters is a number already upper-cased. */
  lemma FourWdClean(v: string)
    requires |v| == 3 && IsDigit(v[0]) && 'A' <= v[1] <= 'Z' && 'A' <= v[2] <= 'Z'
    ensures CleanToken(v) == v
  {
    StripNoBlankEnds(v);
    LeadingDigitsUnique(v, 1);
    assert AllLetters(v[1..]);
    NotStateHighway(v);
    CleanNumber(v);
    UpperFixed(v);
  }

  /** Text with no lower-case letter is its own upper case. */
  lemma UpperFixed(v: string)
    requires forall i :: 0 <= i < |v| ==> !('a' <= v[i] <= 'z')
    ensures Upper(v) == v
  {
  }

  /** Upper-casing character by character. */
  lemma UpperIs(t: string, u: string)
    requires |t| == |u| && forall i :: 0 <= i < |t| ==> u[i] == UpperChar(t[i])
    ensures Upper(t) == u
  {
  }

  /** `clean_token` is idempotent: a cleaned token cleans to itself. */
  lemma CleanTokenIdempotent(arg: string)
    ensures CleanToken(CleanToken(arg)) == CleanToken(arg)
  {
    var t := Strip(arg);
    if StateHighwayNumber(t) {
      StateHighwayIdempotent(arg);
    } else if Numberish(t) {
      NumberIdempotent(arg);
    } else if Acronym(t) {
      AcronymIdempotent(arg);
    } else if Capitalize(t) in General {
      CleanGeneral(arg);
      ExpansionsClean(Capitalize(t));
    } else {
      KeptIdempotent(arg);
    }
  }

  lemma StateHighwayIdempotent(arg: string)
    requires StateHighwayNumber(Strip(arg))
    ensures CleanToken(CleanToken(arg)) == CleanToken(arg)
  {
    CleanStateHighway(arg);
    StateHighwayKept(Strip(arg)[2..]);
  }

  /** A spelled-out state highway is kept as it is. */
  lemma StateHighwayKept(number: string)
    requires Numberish(number)
    ensures CleanToken(StateHighway(number)) == StateHighway(number)
  {
    var r := StateHighway(number);
    assert r[0] == r[..|"State Highway "|][0] == 'S';
    assert r[1] == r[..|"State Highway "|][1] == 't';
    KeptWord(r);
  }

  lemma NumberIdempotent(arg: string)
    requires !StateHighwayNumber(Strip(arg)) && Numberish(Strip(arg))
    ensures CleanToken(CleanToken(arg)) == CleanToken(arg)
  {
    CleanNumber(arg);
    StripTrimmed(arg);
    UpperNumberClean(Strip(arg));
  }

  /** An upper-cased number cleans to itself. */
  lemma UpperNumberClean(t: string)
    requires Trimmed(t) && Numberish(t)
    ensures CleanToken(Upper(t)) == Upper(t)
  {
    var r := Upper(t);
    UpperTrimmed(t);
    TrimmedStrip(r);
    UpperNumberShape(t);
    CleanNumber(r);
    UpperUpper(t);
  }

  lemma UpperNumberShape(t: string)
    requires Numberish(t)
    ensures Numberish(Upper(t)) && !StateHighwayNumber(Upper(t))
  {
    UpperNumberish(t);
    var n := LeadingDigits(t);
    assert IsDigit(t[0]) by {
      assert t[..n][0] == t[0];
    }
    NotStateHighway(Upper(t));
  }

  /** A token that does not open with "Sh" names no state highway. */
  lemma NotStateHighway(u: string)
    requires |u| >= 1 && (u[0] != 'S' || (|u| >= 2 && u[1] != 'h'))
    ensures !StateHighwayNumber(u)
  {
    if |u| >= 2 {
      assert u[..2][0] == u[0] && u[..2][1] == u[1];
    }
  }

  lemma AcronymIdempotent(arg: string)
    requires !StateHighwayNumber(Strip(arg)) && !Numberish(Strip(arg)) && Acronym(Strip(arg))
    ensures CleanToken(CleanToken(arg)) == CleanToken(arg)
  {
    CleanAcronym(arg);
    StripTrimmed(arg);
    UpperAcronymClean(Strip(arg));
  }

  /** An upper-cased acronym cleans to itself. */
  lemma UpperAcronymClean(t: string)
    requires Trimmed(t) && Acronym(t)
    ensures CleanToken(Upper(t)) == Upper(t)
  {
    var r := Upper(t);
    UpperTrimmed(t);
    TrimmedStrip(r);
    UpperAcronymShape(t);
    CleanAcronym(r);
    UpperUpper(t);
  }

  lemma UpperAcronymShape(t: string)
    requires Acronym(t)
    ensures Acronym(Upper(t)) && !Numberish(Upper(t)) && !StateHighwayNumber(Upper(t))
  {
    var r := Upper(t);
    UpperAcronym(t);
    assert r[1] == '.' && IsLetter(r[0]);
    LetterNotNumberish(r);
  }

  lemma TrimmedStrip(s: string)
    requires Trimmed(s)
    ensures Strip(s) == s
  {
    StripNoBlankEnds(s);
  }

  lemma KeptIdempotent(arg: string)
    requires NoPattern(Strip(arg)) && Capitalize(Strip(arg)) !in General
    ensures CleanToken(CleanToken(arg)) == CleanToken(arg)
  {
    var t := Strip(arg);
    CleanKept(arg);
    StripTrimmed(arg);
    StripNoBlankEnds(t);
    CleanKept(t);
  }

  /** The keys of `ABBREV_GENERAL` have three or twelve characters. */
  lemma GeneralKeyLengths(k: string)
    requires k in General
    ensures |k| == 3 || |k| == 12
  {
  }

  /** "Sh" and a digit name a state highway: "Sh2" cleans to
      "State Highway 2". */
  lemma StateHighwayExample(d: char)
    requires IsDigit(d)
    ensures CleanToken(['S', 'h', d]) == "State Highway " + [d]
  {
    var t := ['S', 'h', d];
    ShNumber(t);
    CleanStateHighway(t);
    assert t[2..] == [d];
  }

  lemma ShNumber(t: string)
    requires |t| == 3 && t[0] == 'S' && t[1] == 'h' && IsDigit(t[2])
    ensures Strip(t) == t && StateHighwayNumber(t)
  {
    StripNoBlankEnds(t);
    assert t[..2] == "Sh";
    LeadingDigitsUnique(t[2..], 1);
  }

  /** A house or exit number is upper-cased: "12b" cleans to "12B". */
  lemma NumberExample(a: char, b: char, c: char)
    requires IsDigit(a) && IsDigit(b) && IsLower(c)
    ensures CleanToken([a, b, c]) == [a, b, UpperChar(c)]
  {
    var t := [a, b, c];
    DigitsThenLetter(t);
    CleanNumber(t);
    UpperIs(t, [a, b, UpperChar(c)]);
  }

  lemma DigitsThenLetter(t: string)
    requires |t| == 3 && IsDigit(t[0]) && IsDigit(t[1]) && IsLetter(t[2])
    ensures Strip(t) == t && !StateHighwayNumber(t) && Numberish(t)
  {
    StripNoBlankEnds(t);
    NotStateHighway(t);
    LeadingDigitsUnique(t, 2);
  }

  /** A dotted acronym is upper-cased: "a.b." cleans to "A.B.". */
  lemma AcronymExample(x: char, y: char)
    requires IsLetter(x) && IsLetter(y)
    ensures CleanToken([x, '.', y, '.']) == [UpperChar(x), '.', UpperChar(y), '.']
  {
    var t := [x, '.', y, '.'];
    TwoLetterAcronym(t);
    CleanAcronym(t);
    UpperIs(t, [UpperChar(x), '.', UpperChar(y), '.']);
  }

  lemma TwoLetterAcronym(t: string)
    requires |t| == 4 && IsLetter(t[0]) && t[1] == '.' && IsLetter(t[2]) && t[3] == '.'
    ensures Strip(t) == t && !StateHighwayNumber(t) && !Numberish(t) && Acronym(t)
  {
    StripNoBlankEnds(t);
    NotStateHighway(t);
    LetterNotNumberish(t);
    assert Acronym(t[2..]);
  }

  /** A general abbreviation is looked up whatever its case: "mtb", "MTB"
      and "mTb" all clean to "Mountain Bike". */
  lemma GeneralExample(t: string)
    requires |t| == 3 && UpperChar(t[0]) == 'M' && LowerChar(t[1]) == 't' && LowerChar(t[2]) == 'b'
    ensures CleanToken(t) == "Mountain Bike"
  {
    PlainWord(t);
    assert Capitalize(t) == "Mtb" by {
      assert Capitalize(t)[1..] == Lower(t[1..]);
    }
    assert "Mtb" in General && General["Mtb"] == "Mountain Bike";
    CleanGeneral(t);
  }

  /** A word opening with a letter, whose second character is neither a dot
      nor the "h" of "Sh", fits no pattern. */
  lemma PlainWord(t: string)
    requires |t| >= 2 && IsLetter(t[0]) && t[1] != '.' && t[1] != 'h' && !IsSpace(t[|t| - 1])
    ensures Strip(t) == t && NoPattern(t)
  {
    StripNoBlankEnds(t);
    LetterNotNumberish(t);
    NotStateHighway(t);
  }

  /** Any other word is kept as it is. */
  lemma KeptExample()
    ensures CleanToken("Main") == "Main"
  {
    KeptWord("Main");
  }

  // ---------------------------------------------------------------------------
  // unmangle_tokens

  /** The length of the run of elements of `keys` that starts `s`. */
  function LeadRun(s: seq<string>, keys: set<string>): (n: nat)
    ensures n <= |s|
    ensures forall i :: 0 <= i < n ==> s[i] in keys
    ensures n < |s| ==> s[n] !in keys
  {
    if |s| == 0 || s[0] !in keys then 0 else 1 + LeadRun(s[1..], keys)
  }

  /** The length of the run of elements of `keys` that ends `s`. */
  function TrailRun(s: seq<string>, keys: set<string>): (n: nat)
    ensures n <= |s|
    ensures forall i :: |s| - n <= i < |s| ==> s[i] in keys
    ensures n < |s| ==> s[|s| - 1 - n] !in keys
  {
    if |s| == 0 || s[|s| - 1] !in keys then 0 else 1 + TrailRun(s[..|s| - 1], keys)
  }

  /** A run is determined by its two defining facts. */
  lemma LeadRunUnique(s: seq<string>, keys: set<string>, n: nat)
    requires n <= |s| && forall i :: 0 <= i < n ==> s[i] in keys
    requires n < |s| ==> s[n] !in keys
    ensures LeadRun(s, keys) == n
  {
  }

  /** The run that starts a reversal is the run that ends the original. */
  lemma {:induction false} LeadRunReverse(s: seq<string>, keys: set<string>)
    ensures LeadRun(Reverse(s), keys) == TrailRun(s, keys)
  {
    LeadRunUnique(Reverse(s), keys, TrailRun(s, keys));
  }

  /** The tables `unmangle_tokens` reads, passed explicitly so that the facts
      below hold whatever the tables say. */
  datatype Tables = Tables(start: map<string, string>, directions: map<string, string>,
                           directionValues: set<string>, streetTypes: map<string, string>)

  /** The tables of the script; `ABBREV_DIRECTIONS_VALUES` is what the
      directions stand for. */
  const Abbreviations := Tables(StartWords, Directions, Directions.Values, StreetTypes)

  /** The words the direction pass accepts: the abbreviations and the
      direction values. */
  function DirectionWordsOf(a: Tables): set<string> {
    a.directions.Keys + a.directionValues
  }

  /** Pass one: start words are expanded until the first token that is not
      one; the rest is copied. */
  function PassOne(tokens: seq<string>, start: map<string, string>): (r: seq<string>)
    ensures |r| == |tokens|
  {
    if |tokens| == 0 then []
    else if tokens[0] in start then [start[tokens[0]]] + PassOne(tokens[1..], start)
    else tokens
  }

  /** Pass one expands exactly the leading run of start words. */
  lemma {:induction false} PassOneAt(tokens: seq<string>, start: map<string, string>, i: nat)
    requires i < |tokens|
    ensures i < LeadRun(tokens, start.Keys) ==> PassOne(tokens, start)[i] == start[tokens[i]]
    ensures i >= LeadRun(tokens, start.Keys) ==> PassOne(tokens, start)[i] == tokens[i]
  {
    if tokens[0] in start && i > 0 {
      PassOneAt(tokens[1..], start, i - 1);
    }
  }

  /** What pass two does to one token. */
  datatype Role = DirectionRole | StreetTypeRole | OtherRole

  function Expand(t: string, role: Role, a: Tables): string {
    match role
    case DirectionRole => if t in a.directions then a.directions[t] else t
    case StreetTypeRole => if t in a.streetTypes then a.streetTypes[t] else t
    case OtherRole => CleanToken(t)
  }

  /** Pass two's handling of one token: what it appends, and the two flags
      `directions_completed` and `types_completed` afterwards. */
  datatype Visit = Visit(out: string, dirsDone: bool, typesDone: bool)

  function VisitToken(t: string, a: Tables, dirsDone: bool, typesDone: bool): Visit {
    if !dirsDone && t in a.directions then Visit(a.directions[t], false, typesDone)
    else if !dirsDone && t in a.directionValues then Visit(t, false, typesDone)
    else if !typesDone && t in a.streetTypes then Visit(a.streetTypes[t], true, false)
    else Visit(CleanToken(t), true, true)
  }

  /** Pass two over the reversed tokens; the output is in the order the tokens
      were visited. */
  function PassTwo(rs: seq<string>, a: Tables, dirsDone: bool, typesDone: bool): (r: seq<string>)
    ensures |r| == |rs|
  {
    if |rs| == 0 then []
    else
      var v := VisitToken(rs[0], a, dirsDone, typesDone);
      [v.out] + PassTwo(rs[1..], a, v.dirsDone, v.typesDone)
  }

  /** One step of pass two. */
  lemma {:induction false} PassTwoStep(rs: seq<string>, a: Tables, dirsDone: bool, typesDone: bool, i: nat)
    requires 0 < i < |rs|
    ensures var v := VisitToken(rs[0], a, dirsDone, typesDone);
      PassTwo(rs, a, dirsDone, typesDone)[i] == PassTwo(rs[1..], a, v.dirsDone, v.typesDone)[i - 1]
  {
  }

  /** The role of the token visited `i`-th when the first `d` visited tokens
      are directions and the `m` after them street types. */
  function RoleIn(i: nat, d: nat, m: nat): Role {
    if i < d then DirectionRole else if i < d + m then StreetTypeRole else OtherRole
  }

  function DirsAhead(rs: seq<string>, a: Tables, dirsDone: bool): (d: nat)
    ensures d <= |rs|
  {
    if dirsDone then 0 else LeadRun(rs, DirectionWordsOf(a))
  }

  function TypesAhead(rs: seq<string>, a: Tables, dirsDone: bool, typesDone: bool): nat {
    if typesDone then 0 else LeadRun(rs[DirsAhead(rs, a, dirsDone)..], a.streetTypes.Keys)
  }

  /** Pass two expands the leading run of direction words, then the run of
      street types after it, and cleans everything else. */
  lemma {:induction false} PassTwoAt(rs: seq<string>, a: Tables, dirsDone: bool, typesDone: bool, i: nat)
    requires i < |rs|
    ensures PassTwo(rs, a, dirsDone, typesDone)[i]
      == Expand(rs[i], RoleIn(i, DirsAhead(rs, a, dirsDone), TypesAhead(rs, a, dirsDone, typesDone)), a)
    decreases |rs|, 1
  {
    var t := rs[0];
    if !dirsDone && t in DirectionWordsOf(a) {
      PassTwoDirection(rs, a, typesDone, i);
    } else if !typesDone && t in a.streetTypes {
      PassTwoStreetType(rs, a, dirsDone, i);
    } else {
      PassTwoOther(rs, a, dirsDone, typesDone, i);
    }
  }

  lemma {:induction false} PassTwoDirection(rs: seq<string>, a: Tables, typesDone: bool, i: nat)
    requires i < |rs| && rs[0] in DirectionWordsOf(a)
    ensures PassTwo(rs, a, false, typesDone)[i]
      == Expand(rs[i], RoleIn(i, DirsAhead(rs, a, false), TypesAhead(rs, a, false, typesDone)), a)
    decreases |rs|, 0
  {
    var d := DirsAhead(rs, a, false);
    var m := TypesAhead(rs, a, false, typesDone);
    DirectionRunStep(rs, a, typesDone);
    VisitDirection(rs[0], a, typesDone);
    if i > 0 {
      PassTwoAt(rs[1..], a, false, typesDone, i - 1);
      PassTwoStep(rs, a, false, typesDone, i);
      assert RoleIn(i, d, m) == RoleIn(i - 1, d - 1, m);
    }
  }

  /** A direction word at the front lengthens the direction run by one and
      leaves the street-type run after it alone. */
  lemma DirectionRunStep(rs: seq<string>, a: Tables, typesDone: bool)
    requires |rs| > 0 && rs[0] in DirectionWordsOf(a)
    ensures DirsAhead(rs, a, false) == 1 + DirsAhead(rs[1..], a, false)
    ensures TypesAhead(rs, a, false, typesDone) == TypesAhead(rs[1..], a, false, typesDone)
  {
    var d := DirsAhead(rs, a, false);
    assert rs[1..][d - 1..] == rs[d..];
  }

  /** Pass two expands a direction word while directions are still open. */
  lemma VisitDirection(t: string, a: Tables, typesDone: bool)
    requires t in DirectionWordsOf(a)
    ensures VisitToken(t, a, false, typesDone) == Visit(Expand(t, DirectionRole, a), false, typesDone)
  {
  }

  lemma {:induction false} PassTwoStreetType(rs: seq<string>, a: Tables, dirsDone: bool, i: nat)
    requires i < |rs| && rs[0] in a.streetTypes
    requires dirsDone || rs[0] !in DirectionWordsOf(a)
    ensures PassTwo(rs, a, dirsDone, false)[i]
      == Expand(rs[i], RoleIn(i, DirsAhead(rs, a, dirsDone), TypesAhead(rs, a, dirsDone, false)), a)
    decreases |rs|, 0
  {
    assert DirsAhead(rs, a, dirsDone) == 0;
    assert TypesAhead(rs, a, dirsDone, false) == 1 + TypesAhead(rs[1..], a, true, false);
    assert VisitToken(rs[0], a, dirsDone, false) == Visit(a.streetTypes[rs[0]], true, false);
    if i > 0 {
      PassTwoAt(rs[1..], a, true, false, i - 1);
      PassTwoStep(rs, a, dirsDone, false, i);
    }
  }

  lemma {:induction false} PassTwoOther(rs: seq<string>, a: Tables, dirsDone: bool, typesDone: bool, i: nat)
    requires i < |rs|
    requires dirsDone || rs[0] !in DirectionWordsOf(a)
    requires typesDone || rs[0] !in a.streetTypes
    ensures PassTwo(rs, a, dirsDone, typesDone)[i]
      == Expand(rs[i], RoleIn(i, DirsAhead(rs, a, dirsDone), TypesAhead(rs, a, dirsDone, typesDone)), a)
    decreases |rs|, 0
  {
    OtherRunsEmpty(rs, a, dirsDone, typesDone);
    VisitOther(rs[0], a, dirsDone, typesDone);
    if i > 0 {
      PassTwoAt(rs[1..], a, true, true, i - 1);
      PassTwoStep(rs, a, dirsDone, typesDone, i);
    }
  }

  /** A token that is neither an open direction nor an open street type
      starts no run. */
  lemma OtherRunsEmpty(rs: seq<string>, a: Tables, dirsDone: bool, typesDone: bool)
    requires |rs| > 0
    requires dirsDone || rs[0] !in DirectionWordsOf(a)
    requires typesDone || rs[0] !in a.streetTypes
    ensures DirsAhead(rs, a, dirsDone) == 0 && TypesAhead(rs, a, dirsDone, typesDone) == 0
  {
  }

  /** Pass two cleans such a token and closes both runs. */
  lemma VisitOther(t: string, a: Tables, dirsDone: bool, typesDone: bool)
    requires dirsDone || t !in DirectionWordsOf(a)
    requires typesDone || t !in a.streetTypes
    ensures VisitToken(t, a, dirsDone, typesDone) == Visit(CleanToken(t), true, true)
  {
  }

  /** The items `unmangle_tokens` joins, in token order. */
  function ItemsWith(tokens: seq<string>, a: Tables): (r: seq<string>)
    ensures |r| == |tokens|
  {
    PassTwoInOrder(PassOne(tokens, a.start), a)
  }

  /** Pass two: the tokens after pass one are reversed, visited, and the
      output reversed back. */
  function PassTwoInOrder(p: seq<string>, a: Tables): (r: seq<string>)
    ensures |r| == |p|
  {
    Reverse(PassTwo(Reverse(p), a, |p| <= 2, |p| <= 1))
  }

  /** `unmangle_tokens`: one item per token, joined by single spaces. */
  function UnmangleTokens(tokens: seq<string>): (r: string)
    ensures tokens == [] ==> r == ""
  {
    Join(ItemsWith(tokens, Abbreviations), " ")
  }

  /** The trailing run of direction words, counted only when there are more
      than two tokens. */
  function DirectionRun(p: seq<string>, a: Tables): (d: nat)
    ensures d <= |p|
  {
    if |p| > 2 then TrailRun(p, DirectionWordsOf(a)) else 0
  }

  /** The run of street types before the direction run, counted only when
      there is more than one token. */
  function StreetTypeRun(p: seq<string>, a: Tables): (m: nat)
    ensures DirectionRun(p, a) + m <= |p|
  {
    if |p| > 1 then TrailRun(p[..|p| - DirectionRun(p, a)], a.streetTypes.Keys) else 0
  }

  /** The role of token `j` of `p`, read from the end of the name. */
  function RoleAt(p: seq<string>, a: Tables, j: nat): Role
    requires j < |p|
  {
    RoleIn(|p| - 1 - j, DirectionRun(p, a), StreetTypeRun(p, a))
  }

  /** Each item of `unmangle_tokens` is its token after pass one, expanded as
      a direction in the trailing direction run, as a street type in the run
      before it, and cleaned otherwise. */
  lemma {:induction false} UnmangledItemsAt(tokens: seq<string>, a: Tables, j: nat)
    requires j < |tokens|
    ensures ItemsWith(tokens, a)[j] == Expand(PassOne(tokens, a.start)[j], RoleAt(PassOne(tokens, a.start), a, j), a)
  {
    PassTwoInOrderAt(PassOne(tokens, a.start), a, j);
  }

  /** Pass two, read back in token order. */
  lemma {:induction false} PassTwoInOrderAt(p: seq<string>, a: Tables, j: nat)
    requires j < |p|
    ensures PassTwoInOrder(p, a)[j] == Expand(p[j], RoleAt(p, a, j), a)
  {
    var x := PassTwo(Reverse(p), a, |p| <= 2, |p| <= 1)[|p| - 1 - j];
    assert PassTwoInOrder(p, a)[j] == x;
    PassTwoReversedAt(p, a, j);
  }

  lemma {:induction false} PassTwoReversedAt(p: seq<string>, a: Tables, j: nat)
    requires j < |p|
    ensures PassTwo(Reverse(p), a, |p| <= 2, |p| <= 1)[|p| - 1 - j] == Expand(p[j], RoleAt(p, a, j), a)
  {
    var n := |p|;
    PassTwoAt(Reverse(p), a, n <= 2, n <= 1, n - 1 - j);
    DirectionRunReversed(p, a);
    StreetTypeRunReversed(p, a);
  }

  /** The direction run pass two finds in the reversed tokens is the trailing
      run of direction words. */
  lemma {:induction false} DirectionRunReversed(p: seq<string>, a: Tables)
    ensures DirsAhead(Reverse(p), a, |p| <= 2) == DirectionRun(p, a)
  {
    if |p| > 2 {
      LeadRunReverse(p, DirectionWordsOf(a));
    }
  }

  /** Likewise for the street-type run before it. */
  lemma {:induction false} StreetTypeRunReversed(p: seq<string>, a: Tables)
    ensures TypesAhead(Reverse(p), a, |p| <= 2, |p| <= 1) == StreetTypeRun(p, a)
  {
    var d := DirectionRun(p, a);
    DirectionRunReversed(p, a);
    ReverseDrop(p, d);
    if |p| > 1 {
      LeadRunReverse(p[..|p| - d], a.streetTypes.Keys);
    }
  }

  /** With two tokens or fewer no direction is expanded; with one token the
      token is only cleaned. */
  lemma {:induction false} ShortNames(tokens: seq<string>, a: Tables)
    ensures |tokens| <= 2 ==> forall j :: 0 <= j < |tokens| ==> RoleAt(PassOne(tokens, a.start), a, j) != DirectionRole
    ensures |tokens| == 1 ==> ItemsWith(tokens, a)[0] == CleanToken(PassOne(tokens, a.start)[0])
  {
    if |tokens| == 1 {
      UnmangledItemsAt(tokens, a, 0);
    }
  }

  /** `unmangle_exit_tokens`: every token cleaned, joined by single spaces. */
  function CleanAll(tokens: seq<string>): (r: seq<string>)
    ensures |r| == |tokens|
    ensures forall i :: 0 <= i < |tokens| ==> r[i] == CleanToken(tokens[i])
  {
    if |tokens| == 0 then [] else [CleanToken(tokens[0])] + CleanAll(tokens[1..])
  }

  function UnmangleExitTokens(tokens: seq<string>): string {
    Join(CleanAll(tokens), " ")
  }

  // ---------------------------------------------------------------------------
  // The exit patterns

  /** `[0-9]+[a-z]?`: digits, then perhaps one lower-case letter. */
  predicate ExitNumber(x: string) {
    (|x| >= 1 && AllDigits(x)) || (|x| >= 2 && AllDigits(x[..|x| - 1]) && IsLower(x[|x| - 1]))
  }

  /** Where the greedy `[0-9]+[a-z]?` stops when started on `v`. */
  function NumberEnd(v: string): (q: nat)
    ensures q <= |v|
  {
    var k := LeadingDigits(v);
    if k < |v| && IsLower(v[k]) then k + 1 else k
  }

  /** The number pattern run on a number followed by a blank or by nothing
      stops exactly at the blank. */
  lemma NumberEndOf(x: string, t: string)
    requires ExitNumber(x) && (t == "" || t[0] == ' ')
    ensures LeadingDigits(x + t) >= 1 && NumberEnd(x + t) == |x|
  {
    var v := x + t;
    var k := if AllDigits(x) then |x| else |x| - 1;
    assert v[..k] == x[..k];
    assert AllDigits(x[..k]);
    LeadingDigitsUnique(v, k);
  }

  /** What the greedy number pattern takes is a number. */
  lemma NumberEndNumber(v: string)
    requires LeadingDigits(v) >= 1
    ensures ExitNumber(v[..NumberEnd(v)])
  {
    var k := LeadingDigits(v);
    var x := v[..NumberEnd(v)];
    assert x[..k] == v[..k];
    if NumberEnd(v) == k + 1 {
      assert x[..|x| - 1] == v[..k];
    }
  }

  lemma StartsWithConcat(v: string, a: string, b: string)
    requires StartsWith(v, a) && StartsWith(v[|a|..], b)
    ensures StartsWith(v, a + b)
  {
    assert v[..|a| + |b|] == v[..|a|] + v[|a|..][..|b|];
  }

  /** The two exit patterns. */
  datatype ExitPattern = ExitTo | ExitNo

  /** The text the `exit` group matched, and the `number` group if it matched. */
  datatype ExitPart = ExitPart(text: string, number: Option<string>)

  /** `(?P<exit>Exit (?P<number>[0-9]+[a-z]? )?To)` of `EXIT_TO`. */
  predicate ExitToForm(e: ExitPart) {
    match e.number
    case None => e.text == "Exit To"
    case Some(n) =>
      |n| >= 2 && n[|n| - 1] == ' ' && ExitNumber(n[..|n| - 1]) && e.text == "Exit " + n + "To"
  }

  /** `( [A-Za-z]-*[A-Za-z])?` at the end of `EXIT_NO`. */
  predicate ExitSuffix(w: string) {
    w == "" || (|w| >= 3 && w[0] == ' ' && IsLetter(w[1]) && IsLetter(w[|w| - 1])
                && forall i :: 2 <= i < |w| - 1 ==> w[i] == '-')
  }

  /** `(?P<exit>Exit(?P<number> [0-9]+[a-z]?)?( [A-Za-z]-*[A-Za-z])?)$` of
      `EXIT_NO`. */
  predicate ExitNoForm(e: ExitPart) {
    StartsWith(e.text, "Exit") &&
    var w := e.text[4..];
    match e.number
    case None => ExitSuffix(w)
    case Some(n) =>
      |n| >= 2 && n[0] == ' ' && ExitNumber(n[1..]) && StartsWith(w, n) && ExitSuffix(w[|n|..])
  }

  predicate ExitForm(k: ExitPattern, e: ExitPart) {
    match k
    case ExitTo => ExitToForm(e)
    case ExitNo => ExitNoForm(e)
  }

  /** Where an exit can start: `EXIT_TO`'s exit is followed by anything,
      `EXIT_NO`'s reaches the end of the label. */
  predicate ExitFits(k: ExitPattern, s: string, p: nat, e: ExitPart)
    requires p <= |s|
  {
    ExitForm(k, e) && match k
    case ExitTo => StartsWith(s[p..], e.text)
    case ExitNo => s[p..] == e.text
  }

  /** The `EXIT_TO` exit starting at `p`, read the way the regular expression
      engine reads it. */
  function ExitToAt(s: string, p: nat): (r: Option<ExitPart>)
    requires p <= |s|
    ensures r.Some? ==> ExitFits(ExitTo, s, p, r.value)
  {
    var v := s[p..];
    if !StartsWith(v, "Exit ") then None
    else
      var w := v[5..];
      if StartsWith(w, "To") then Some(ExitPart("Exit To", None))
      else
        var q := NumberEnd(w);
        if LeadingDigits(w) >= 1 && StartsWith(w[q..], " To") then
          NumberedExitFits(v);
          var n := w[..q + 1];
          Some(ExitPart("Exit " + n + "To", Some(n)))
        else None
  }

  /** "Exit ", then what the greedy number pattern takes, a blank and "To",
      is an `EXIT_TO` exit. */
  lemma NumberedExitFits(v: string)
    requires StartsWith(v, "Exit ")
    requires LeadingDigits(v[5..]) >= 1 && StartsWith(v[5..][NumberEnd(v[5..])..], " To")
    ensures NumberEnd(v[5..]) + 1 <= |v[5..]|
    ensures var w := v[5..]; var n := w[..NumberEnd(w) + 1];
      ExitToForm(ExitPart("Exit " + n + "To", Some(n))) && StartsWith(v, "Exit " + n + "To")
  {
    var w := v[5..];
    var q := NumberEnd(w);
    var n := w[..q + 1];
    NumberEndNumber(w);
    assert n[..|n| - 1] == w[..q];
    assert |n| == q + 1;
    assert w[q..][..3] == " To";
    assert w[|n|..][..2] == w[q..][..3][1..];
    StartsWithConcat(w, n, "To");
    StartsWithConcat(v, "Exit ", n + "To");
    assert "Exit " + (n + "To") == "Exit " + n + "To";
  }

  /** The `EXIT_NO` exit starting at `p`. */
  function ExitNoAt(s: string, p: nat): (r: Option<ExitPart>)
    requires p <= |s|
    ensures r.Some? ==> ExitFits(ExitNo, s, p, r.value)
  {
    var v := s[p..];
    if !StartsWith(v, "Exit") then None
    else
      var w := v[4..];
      if |w| >= 2 && w[0] == ' ' && IsDigit(w[1]) then
        var q := 1 + NumberEnd(w[1..]);
        if ExitSuffix(w[q..]) then
          NumberedExitNoFits(v);
          Some(ExitPart(v, Some(w[..q])))
        else None
      else if ExitSuffix(w) then Some(ExitPart(v, None))
      else None
  }

  /** "Exit", a blank, what the greedy number pattern takes and a suffix
      make up an `EXIT_NO` exit. */
  lemma NumberedExitNoFits(v: string)
    requires StartsWith(v, "Exit")
    requires |v[4..]| >= 2 && v[4..][0] == ' ' && IsDigit(v[4..][1])
    requires ExitSuffix(v[4..][1 + NumberEnd(v[4..][1..])..])
    ensures ExitNoForm(ExitPart(v, Some(v[4..][..1 + NumberEnd(v[4..][1..])])))
  {
    var w := v[4..];
    var q := 1 + NumberEnd(w[1..]);
    var n := w[..q];
    NumberEndNumber(w[1..]);
    assert n[1..] == w[1..][..q - 1];
  }

  function ExitAt(k: ExitPattern, s: string, p: nat): (r: Option<ExitPart>)
    requires p <= |s|
    ensures r.Some? ==> ExitFits(k, s, p, r.value)
  {
    match k
    case ExitTo => ExitToAt(s, p)
    case ExitNo => ExitNoAt(s, p)
  }

  /** The last position at or before `p` where an exit starts: the greedy
      `(?P<pre>.*)` gives up characters from the end until the rest matches. */
  function LastExit(k: ExitPattern, s: string, p: nat): (r: Option<nat>)
    requires p <= |s|
    ensures r.Some? ==> r.value <= p && ExitAt(k, s, r.value).Some?
    ensures r.None? ==> forall q :: 0 <= q <= p ==> ExitAt(k, s, q).None?
    ensures r.Some? ==> forall q :: r.value < q <= p ==> ExitAt(k, s, q).None?
  {
    LastTrue(ExitStarts(k, s), p)
  }

  /** Whether an exit starts at each position of the label, the end
      included. */
  function ExitStarts(k: ExitPattern, s: string): (r: seq<bool>)
    ensures |r| == |s| + 1
    ensures forall q :: 0 <= q <= |s| ==> r[q] == ExitAt(k, s, q).Some?
  {
    seq(|s| + 1, q requires 0 <= q <= |s| => ExitAt(k, s, q).Some?)
  }

  /** The last index at or before `p` where `b` holds. */
  function LastTrue(b: seq<bool>, p: nat): (r: Option<nat>)
    requires p < |b|
    ensures r.Some? ==> r.value <= p && b[r.value]
    ensures r.None? ==> forall q :: 0 <= q <= p ==> !b[q]
    ensures r.Some? ==> forall q :: r.value < q <= p ==> !b[q]
  {
    if b[p] then Some(p)
    else if p == 0 then None
    else LastTrue(b, p - 1)
  }

  /** A match: the `pre` group, the exit, and the `post` group. */
  datatype ExitMatch = ExitMatch(pre: string, exit: ExitPart, post: string)

  /** `EXIT_TO.match(label)` or `EXIT_NO.match(label)`. `.` does not match a
      newline, so a label holding one matches neither. */
  function MatchExit(k: ExitPattern, s: string): (r: Option<ExitMatch>)
    ensures r.Some? ==> s == r.value.pre + r.value.exit.text + r.value.post
    ensures r.Some? ==> ExitForm(k, r.value.exit) && '\n' !in s
    ensures r.Some? && k == ExitNo ==> r.value.post == ""
    ensures r.Some? ==> forall q :: |r.value.pre| < q <= |s| ==> ExitAt(k, s, q).None?
    ensures r.Some? ==> ExitAt(k, s, |r.value.pre|) == Some(r.value.exit)
    ensures r.None? && '\n' !in s ==> forall q :: 0 <= q <= |s| ==> ExitAt(k, s, q).None?
  {
    if '\n' in s then None
    else
      match LastExit(k, s, |s|)
      case None => None
      case Some(p) =>
        var e := ExitAt(k, s, p).value;
        SplitAtExit(s, p, e.text);
        Some(ExitMatch(s[..p], e, s[p + |e.text|..]))
  }

  /** A label cut around text that starts at `p`. */
  lemma SplitAtExit(s: string, p: nat, text: string)
    requires p <= |s| && StartsWith(s[p..], text)
    ensures p + |text| <= |s| && s == s[..p] + text + s[p + |text|..]
    ensures s[p..] == text ==> s[p + |text|..] == ""
  {
    assert s == s[..p] + s[p..];
    assert s[p..] == text + s[p + |text|..];
  }

  /** A number starts with a digit. */
  lemma ExitNumberDigit(x: string)
    requires ExitNumber(x)
    ensures IsDigit(x[0])
  {
    if !AllDigits(x) {
      assert x[..|x| - 1][0] == x[0];
    }
  }

  /** The exit the engine reads at `p` is the only exit of the pattern's form
      that fits there. */
  lemma ExitAtComplete(k: ExitPattern, s: string, p: nat, e: ExitPart)
    requires p <= |s| && ExitFits(k, s, p, e)
    ensures ExitAt(k, s, p) == Some(e)
  {
    match k
    case ExitTo => ExitToComplete(s, p, e);
    case ExitNo => ExitNoComplete(s, p, e);
  }

  lemma ExitToComplete(s: string, p: nat, e: ExitPart)
    requires p <= |s| && ExitFits(ExitTo, s, p, e)
    ensures ExitToAt(s, p) == Some(e)
  {
    match e.number
    case None => BareExitToComplete(s[p..]);
    case Some(n) => NumberedExitToAt(s, p, n);
  }

  lemma BareExitToComplete(v: string)
    requires StartsWith(v, "Exit To")
    ensures ExitToAt(v, 0) == Some(ExitPart("Exit To", None))
  {
    assert v[..5] == "Exit ";
    assert v[5..][..2] == "To";
  }

  /** "Exit ", a number, a blank and "To" at `p` are read as such. */
  lemma NumberedExitToAt(s: string, p: nat, n: string)
    requires p <= |s| && |n| >= 2 && n[|n| - 1] == ' ' && ExitNumber(n[..|n| - 1])
    requires StartsWith(s[p..], "Exit " + n + "To")
    ensures ExitToAt(s, p) == Some(ExitPart("Exit " + n + "To", Some(n)))
  {
    var v := s[p..];
    var text := "Exit " + n + "To";
    var w := v[5..];
    assert v[..5] == text[..5] == "Exit ";
    assert w[..|n| + 2] == text[5..] == n + "To";
    NumberedExitTo(w, n);
  }

  /** After "Exit ", a number, a blank and "To" are read as such. */
  lemma NumberedExitTo(w: string, n: string)
    requires |n| >= 2 && n[|n| - 1] == ' ' && ExitNumber(n[..|n| - 1])
    requires StartsWith(w, n + "To")
    ensures !StartsWith(w, "To") && LeadingDigits(w) >= 1
    ensures NumberEnd(w) == |n| - 1 && StartsWith(w[|n| - 1..], " To") && w[..|n|] == n
  {
    var x := n[..|n| - 1];
    var t := w[|x|..];
    ExitNumberDigit(x);
    assert w[..|n| + 2] == n + "To";
    assert w[0] == x[0] && w[|x|] == ' ';
    assert w[..2][0] == w[0];
    assert w == x + t;
    NumberEndOf(x, t);
    assert t[..3] == " To";
    assert w[..|n|] == n;
  }

  lemma ExitNoComplete(s: string, p: nat, e: ExitPart)
    requires p <= |s| && ExitFits(ExitNo, s, p, e)
    ensures ExitNoAt(s, p) == Some(e)
  {
    var w := s[p..][4..];
    if e.number.Some? {
      NumberedExitNo(w, e.number.value);
    }
  }

  /** After "Exit", a blank and a number followed by the end or a blank are
      read as such. */
  lemma NumberedExitNo(w: string, n: string)
    requires |n| >= 2 && n[0] == ' ' && ExitNumber(n[1..]) && StartsWith(w, n)
    requires |w| == |n| || w[|n|] == ' '
    ensures |w| >= 2 && w[0] == ' ' && IsDigit(w[1])
    ensures 1 + NumberEnd(w[1..]) == |n| && w[..|n|] == n
  {
    var x := n[1..];
    var t := w[|n|..];
    ExitNumberDigit(x);
    assert w[..|n|] == n;
    assert w[1] == x[0];
    assert w[1..] == x + t;
    NumberEndOf(x, t);
  }

  /** The greedy `pre` group: after the exit that was matched, no exit of the
      pattern's form starts anywhere later in the label. */
  lemma ExitIsLast(k: ExitPattern, s: string, q: nat, e: ExitPart)
    requires MatchExit(k, s).Some? && |MatchExit(k, s).value.pre| < q <= |s|
    ensures !ExitFits(k, s, q, e)
  {
    if ExitFits(k, s, q, e) {
      ExitAtComplete(k, s, q, e);
    }
  }

  /** When neither pattern matches a label without newlines, it holds no exit
      of the pattern's form anywhere. */
  lemma NoExitAnywhere(k: ExitPattern, s: string, q: nat, e: ExitPart)
    requires MatchExit(k, s).None? && '\n' !in s && q <= |s|
    ensures !ExitFits(k, s, q, e)
  {
    if ExitFits(k, s, q, e) {
      ExitAtComplete(k, s, q, e);
    }
  }

  // ---------------------------------------------------------------------------
  // interpret_label

  /** What `interpret_label` is handed: a byte string, or any other value
      (a unicode string, a number, `None`), which it hands back untouched. */
  datatype Label<T> = StrLabel(text: string) | OtherLabel(value: T)

  /** The dictionary `interpret_label` returns: `label` always, `exit_ref`
      and `exit_name` only when the label names an exit; `cleaned` is the
      `label` entry. */
  datatype Interpreted<T> = Interpreted(cleaned: Label<T>, exitRef: Option<string>, exitName: Option<string>)

  /** No blank anywhere. */
  predicate Solid(x: string) {
    forall i :: 0 <= i < |x| ==> !IsSpace(x[i])
  }

  /** An exit number is a solid, number-like token. */
  lemma ExitNumberToken(x: string)
    requires ExitNumber(x)
    ensures |x| >= 1 && Solid(x) && Numberish(x) && !StateHighwayNumber(x)
  {
    ExitNumberDigit(x);
    var k := if AllDigits(x) then |x| else |x| - 1;
    assert x[..k] == x[..k];
    LeadingDigitsUnique(x, k);
    if |x| >= 2 {
      assert x[..2][0] == x[0];
    }
  }

  lemma StripLeftSolid(a: string)
    requires |a| >= 1 && !IsSpace(a[0])
    ensures StripLeft(a) == a
  {
    var l := StripLeft(a);
  }

  lemma StripRightSolid(a: string)
    requires |a| >= 1 && !IsSpace(a[|a| - 1])
    ensures StripRight(a) == a
  {
    var r := StripRight(a);
  }

  lemma StripRightBlank(x: string)
    requires |x| >= 1 && Solid(x)
    ensures StripRight(x + " ") == x
  {
    var a := x + " ";
    var r := StripRight(a);
  }

  lemma StripLeftBlank(x: string)
    requires |x| >= 1 && Solid(x)
    ensures StripLeft(" " + x) == x
  {
    var b := " " + x;
    var l := StripLeft(b);
  }

  /** `strip()` removes the one blank the patterns capture beside the number. */
  lemma StripPadded(x: string)
    requires |x| >= 1 && Solid(x)
    ensures Strip(x + " ") == x && Strip(" " + x) == x
  {
    StripLeftSolid(x + " ");
    StripRightBlank(x);
    StripLeftBlank(x);
    StripRightSolid(x);
  }

  /** The number a matched `number` group holds, without its blank. */
  function CapturedNumber(k: ExitPattern, n: string): string
    requires |n| >= 1
  {
    match k
    case ExitTo => n[..|n| - 1]
    case ExitNo => n[1..]
  }

  /** The `number` group of a match, with its blank. */
  predicate NumberGroup(k: ExitPattern, n: string) {
    |n| >= 2 &&
    match k
    case ExitTo => n[|n| - 1] == ' ' && ExitNumber(n[..|n| - 1])
    case ExitNo => n[0] == ' ' && ExitNumber(n[1..])
  }

  lemma NumberGroupOf(k: ExitPattern, e: ExitPart)
    requires ExitForm(k, e) && e.number.Some?
    ensures NumberGroup(k, e.number.value)
  {
  }

  /** A number with a blank beside it cleans to the number upper-cased. */
  lemma CleanPadded(x: string, n: string)
    requires ExitNumber(x) && (n == x + " " || n == " " + x)
    ensures CleanToken(n) == Upper(x)
  {
    ExitNumberToken(x);
    StripPadded(x);
    CleanNumber(n);
  }

  lemma CleanNumberGroup(k: ExitPattern, n: string)
    requires NumberGroup(k, n)
    ensures ExitNumber(CapturedNumber(k, n)) && CleanToken(n) == Upper(CapturedNumber(k, n))
  {
    var x := CapturedNumber(k, n);
    match k
    case ExitTo =>
      assert n == x + " ";
      CleanPadded(x, n);
    case ExitNo =>
      assert n == " " + x;
      CleanPadded(x, n);
  }

  /** `clean_token(m.group('number'))`, present when the group matched: the
      number without its blank, upper-cased. */
  function ExitRef(k: ExitPattern, e: ExitPart): (r: Option<string>)
    requires ExitForm(k, e)
    ensures r.Some? <==> e.number.Some?
    ensures r.Some? ==> |e.number.value| >= 2 && ExitNumber(CapturedNumber(k, e.number.value))
    ensures r.Some? ==> r.value == Upper(CapturedNumber(k, e.number.value))
  {
    match e.number
    case None => None
    case Some(n) =>
      NumberGroupOf(k, e);
      CleanNumberGroup(k, n);
      Some(CleanToken(n))
  }

  /** The label holds an exit of either pattern. */
  predicate HasExit(s: string) {
    '\n' !in s && exists q :: 0 <= q <= |s| && (ExitAt(ExitTo, s, q).Some? || ExitAt(ExitNo, s, q).Some?)
  }

  /** One of the patterns matches exactly when the label holds an exit. */
  lemma MatchIffExit(s: string)
    ensures (MatchExit(ExitTo, s).Some? || MatchExit(ExitNo, s).Some?) <==> HasExit(s)
  {
    if MatchExit(ExitTo, s).Some? {
      assert ExitAt(ExitTo, s, |MatchExit(ExitTo, s).value.pre|).Some?;
    } else if MatchExit(ExitNo, s).Some? {
      assert ExitAt(ExitNo, s, |MatchExit(ExitNo, s).value.pre|).Some?;
    }
  }

  /** `interpret_label`: an `Exit [number] To` exit splits the label into the
      text before, the exit and the destination after it, which names the
      exit; failing that a trailing `Exit [number] [letter-letter]` exit
      names the exit after the text before it; failing both the label is
      unmangled as it stands. */
  function InterpretLabel<T>(x: Label<T>): (r: Interpreted<T>)
    ensures x.OtherLabel? ==> r == Interpreted(x, None, None)
    ensures x.StrLabel? ==> r.cleaned.StrLabel?
    ensures x.StrLabel? ==> (r.exitName.Some? <==> HasExit(Strip(x.text)))
    ensures r.exitRef.Some? ==> r.exitName.Some?
  {
    match x
    case OtherLabel(_) => Interpreted(x, None, None)
    case StrLabel(text) =>
      var s := Strip(text);
      MatchIffExit(s);
      match MatchExit(ExitTo, s)
      case Some(m) =>
        var pre := UnmangleTokens(Words(m.pre));
        var exit := UnmangleExitTokens(Words(m.exit.text));
        var post := UnmangleTokens(Words(m.post));
        Interpreted(StrLabel(Strip(pre + " " + exit + " " + post)), ExitRef(ExitTo, m.exit), Some(post))
      case None =>
        match MatchExit(ExitNo, s)
        case Some(m) =>
          var pre := UnmangleTokens(Words(m.pre));
          var exit := UnmangleExitTokens(Words(m.exit.text));
          Interpreted(StrLabel(Strip(pre + " " + exit)), ExitRef(ExitNo, m.exit), Some(pre))
        case None =>
          Interpreted(StrLabel(UnmangleTokens(Words(s))), None, None)
  }

  lemma InterpretExitTo<T>(text: string, m: ExitMatch)
    requires MatchExit(ExitTo, Strip(text)) == Some(m)
    ensures InterpretLabel<T>(StrLabel(text)).exitName == Some(UnmangleTokens(Words(m.post)))
    ensures InterpretLabel<T>(StrLabel(text)).exitRef == ExitRef(ExitTo, m.exit)
  {
  }

  lemma InterpretExitNo<T>(text: string, m: ExitMatch)
    requires MatchExit(ExitTo, Strip(text)).None? && MatchExit(ExitNo, Strip(text)) == Some(m)
    ensures InterpretLabel<T>(StrLabel(text)).exitName == Some(UnmangleTokens(Words(m.pre)))
    ensures InterpretLabel<T>(StrLabel(text)).exitRef == ExitRef(ExitNo, m.exit)
  {
  }

  lemma NoMatchWithoutExit(k: ExitPattern, s: string)
    requires forall q :: 0 <= q <= |s| ==> ExitAt(k, s, q).None?
    ensures MatchExit(k, s).None?
  {
  }

  /** The match the engine returns starts at the last exit of the label. */
  lemma MatchAtLastExit(k: ExitPattern, s: string, q: nat, e: ExitPart)
    requires q <= |s| && '\n' !in s && ExitAt(k, s, q) == Some(e)
    requires forall q' :: q < q' <= |s| ==> ExitAt(k, s, q').None?
    ensures MatchExit(k, s) == Some(ExitMatch(s[..q], e, s[q + |e.text|..]))
  {
    var m := MatchExit(k, s).value;
    assert |m.pre| == q;
    assert s[..q] == m.pre;
  }

  /** With an `Exit [number] To` exit in the label, the last one is the
      exit: its destination, unmangled, is the exit's name, and its number,
      cleaned, the exit's reference. */
  lemma ExitToNamesDestination<T>(text: string, q: nat, e: ExitPart)
    requires q <= |Strip(text)| && '\n' !in Strip(text) && ExitAt(ExitTo, Strip(text), q) == Some(e)
    requires forall q' :: q < q' <= |Strip(text)| ==> ExitAt(ExitTo, Strip(text), q').None?
    ensures ExitForm(ExitTo, e)
    ensures InterpretLabel<T>(StrLabel(text)).exitName == Some(UnmangleTokens(Words(Strip(text)[q + |e.text|..])))
    ensures InterpretLabel<T>(StrLabel(text)).exitRef == ExitRef(ExitTo, e)
  {
    var s := Strip(text);
    MatchAtLastExit(ExitTo, s, q, e);
    InterpretExitTo<T>(text, ExitMatch(s[..q], e, s[q + |e.text|..]));
  }

  /** With no `Exit [number] To` exit, the last trailing exit names the
      exit after the text before it. */
  lemma ExitNoNamesOrigin<T>(text: string, q: nat, e: ExitPart)
    requires q <= |Strip(text)| && '\n' !in Strip(text) && ExitAt(ExitNo, Strip(text), q) == Some(e)
    requires forall q' :: 0 <= q' <= |Strip(text)| ==> ExitAt(ExitTo, Strip(text), q').None?
    requires forall q' :: q < q' <= |Strip(text)| ==> ExitAt(ExitNo, Strip(text), q').None?
    ensures ExitForm(ExitNo, e) && Strip(text)[q..] == e.text
    ensures InterpretLabel<T>(StrLabel(text)).exitName == Some(UnmangleTokens(Words(Strip(text)[..q])))
    ensures InterpretLabel<T>(StrLabel(text)).exitRef == ExitRef(ExitNo, e)
  {
    var s := Strip(text);
    NoMatchWithoutExit(ExitTo, s);
    MatchAtLastExit(ExitNo, s, q, e);
    InterpretExitNo<T>(text, ExitMatch(s[..q], e, s[q + |e.text|..]));
  }
}
