/**
  The country resolver of the earthquake service: free-text location in,
  upper-case country token out. It splits on the last comma, tests an ordered
  table of fifteen case-insensitive patterns (the first hit wins), and falls
  back to the segment itself or to UNKNOWN.
*/
module CountryResolver {
  import opened Wrappers
  import opened Text

  /** A country token and the literal alternatives of its regular expression. */
  datatype CountryPattern = CountryPattern(token: string, alternatives: seq<string>)

  const Unknown: string := "UNKNOWN"

  /**
    The pattern table in declaration order. The service writes it out twice,
    once per branch, with the same entries; it is one constant here.
  */
  const CountryTable: seq<CountryPattern> := [
    CountryPattern("CHILE", ["chile"]),
    CountryPattern("PERU", ["peru", "per\U{FA}"]),
    CountryPattern("MEXICO", ["mexico", "m\U{E9}xico"]),
    CountryPattern("COLOMBIA", ["colombia"]),
    CountryPattern("ECUADOR", ["ecuador"]),
    CountryPattern("ARGENTINA", ["argentina"]),
    CountryPattern("BOLIVIA", ["bolivia"]),
    CountryPattern("VENEZUELA", ["venezuela"]),
    CountryPattern("JAPAN", ["japan"]),
    CountryPattern("INDONESIA", ["indonesia"]),
    CountryPattern("ROMANIA", ["romania"]),
    CountryPattern("HAWAII", ["hawaii"]),
    CountryPattern("SLOVENIA", ["slovenia"]),
    CountryPattern("TURKEY", ["turkey"]),
    CountryPattern("AFRICA", ["africa"])
  ]

  /** Some alternative of `a|b|…` occurs in `text`, ignoring case. */
  predicate AnyOccurs(text: string, alternatives: seq<string>)
    decreases |alternatives|
  {
    alternatives != [] && (ContainsCI(text, alternatives[0]) || AnyOccurs(text, alternatives[1..]))
  }

  /** `pattern.test(text)` for one table entry. */
  predicate PatternMatches(p: CountryPattern, text: string) {
    AnyOccurs(text, p.alternatives)
  }

  /** Entry `i` is the first entry of `table` that matches `text`. */
  ghost predicate IsFirstMatch(table: seq<CountryPattern>, text: string, i: nat) {
    i < |table| && PatternMatches(table[i], text)
    && forall j :: 0 <= j < i ==> !PatternMatches(table[j], text)
  }

  ghost predicate NoMatch(table: seq<CountryPattern>, text: string) {
    forall j :: 0 <= j < |table| ==> !PatternMatches(table[j], text)
  }

  /** The index of the first entry that matches, if any. */
  function FirstMatch(table: seq<CountryPattern>, text: string): (r: Option<nat>)
    ensures r.Some? ==> IsFirstMatch(table, text, r.value)
    ensures r.None? ==> NoMatch(table, text)
    decreases |table|
  {
    if table == [] then None
    else if PatternMatches(table[0], text) then Some(0)
    else match FirstMatch(table[1..], text)
      case None => None
      case Some(i) => Some(i + 1)
  }

  /** At most one entry is the first match. */
  lemma FirstMatchUnique(table: seq<CountryPattern>, text: string, i: nat, j: nat)
    requires IsFirstMatch(table, text, i) && IsFirstMatch(table, text, j)
    ensures i == j
  {
  }

  /** The token of the first entry of `table` that matches, if any. */
  function TableToken(table: seq<CountryPattern>, text: string): (r: Option<string>)
    ensures r.Some? ==> exists i: nat :: IsFirstMatch(table, text, i) && r.value == table[i].token
    ensures r.None? ==> NoMatch(table, text)
  {
    match FirstMatch(table, text)
    case None => None
    case Some(i) => Some(table[i].token)
  }

  /** The token of the first matching entry of the country table. */
  function TokenOf(text: string): Option<string> {
    TableToken(CountryTable, text)
  }

  /** `parts[parts.length - 1].trim().toUpperCase()`. */
  function Candidate(location: string): string {
    UpperString(Trim(LastSegment(location)))
  }

  /**
    What `extractCountryFromLocation` returns: UNKNOWN, a token of the table,
    or, only when the text has a comma, its trimmed upper-cased last segment.
  */
  function Resolve(location: string): (r: string)
    ensures location == [] ==> r == Unknown
    ensures r == Unknown || (exists i :: 0 <= i < |CountryTable| && r == CountryTable[i].token)
            || (',' in location && r == Candidate(location))
  {
    if location == [] then Unknown
    else if ',' in location then
      var c := Candidate(location);
      TokenOf(c).GetOr(c)
    else
      TokenOf(location).GetOr(Unknown)
  }

  /**
    With a comma, the result is the token of the first table entry matching
    the trimmed, upper-cased last segment, or that segment itself when no
    entry matches.
  */
  lemma ResolveWithComma(location: string, i: nat)
    requires ',' in location
    ensures IsFirstMatch(CountryTable, Candidate(location), i) ==> Resolve(location) == CountryTable[i].token
    ensures NoMatch(CountryTable, Candidate(location)) ==> Resolve(location) == Candidate(location)
  {
    var r := FirstMatch(CountryTable, Candidate(location));
    if r.Some? && IsFirstMatch(CountryTable, Candidate(location), i) {
      FirstMatchUnique(CountryTable, Candidate(location), r.value, i);
    }
  }

  /**
    Without a comma (empty text included), the result is the token of the
    first table entry matching the whole text, or exactly UNKNOWN.
  */
  lemma ResolveWithoutComma(location: string, i: nat)
    requires ',' !in location
    ensures IsFirstMatch(CountryTable, location, i) ==> Resolve(location) == CountryTable[i].token
    ensures NoMatch(CountryTable, location) ==> Resolve(location) == Unknown
  {
    if location == [] {
      ShortTextMatchesNothing(location);
    }
    var r := FirstMatch(CountryTable, location);
    if r.Some? && IsFirstMatch(CountryTable, location, i) {
      FirstMatchUnique(CountryTable, location, r.value, i);
    }
  }

  /** Every token of the table is already upper case. */
  lemma TableTokensUpper()
    ensures forall i :: 0 <= i < |CountryTable| ==> UpperString(CountryTable[i].token) == CountryTable[i].token
  {
    forall i | 0 <= i < |CountryTable|
      ensures UpperString(CountryTable[i].token) == CountryTable[i].token
    {
      var t := CountryTable[i].token;
      assert forall k :: 0 <= k < |t| ==> 'A' <= t[k] <= 'Z';
      UpperOfUpperAscii(t);
    }
  }

  /** A token found in the table is upper case. */
  lemma TokenUpper(text: string)
    ensures TokenOf(text).Some? ==> UpperString(TokenOf(text).value) == TokenOf(text).value
  {
    var m := FirstMatch(CountryTable, text);
    if m.Some? {
      TableTokensUpper();
      assert TokenOf(text).value == CountryTable[m.value].token;
    }
  }

  /** The resolver always returns a normalised, upper-case country token. */
  lemma ResolveIsUpperCase(location: string)
    ensures UpperString(Resolve(location)) == Resolve(location)
  {
    if ',' in location {
      CandidateUpper(location);
    } else {
      PlainUpper(location);
    }
  }

  /** Without a comma, the token found or UNKNOWN is upper case. */
  lemma PlainUpper(location: string)
    requires ',' !in location
    ensures UpperString(Resolve(location)) == Resolve(location)
  {
    UnknownUpper();
    if location != [] {
      TokenUpper(location);
      assert Resolve(location) == TokenOf(location).GetOr(Unknown);
    }
  }

  /** The placeholder country is its own upper case. */
  lemma UnknownUpper()
    ensures UpperString(Unknown) == Unknown
  {
    UpperOfUpperAscii(Unknown);
  }

  /** With a comma, the token found or the candidate itself is upper case. */
  lemma CandidateUpper(location: string)
    requires ',' in location
    ensures UpperString(Resolve(location)) == Resolve(location)
  {
    var c := Candidate(location);
    TokenUpper(c);
    if TokenOf(c).None? {
      UpperStringIdempotent(Trim(LastSegment(location)));
    }
  }

  /** Every alternative in the table is at least four characters long. */
  lemma TableAlternativesLong()
    ensures forall j, a :: 0 <= j < |CountryTable| && a in CountryTable[j].alternatives ==> |a| >= 4
  {
  }

  /** The candidate of `prefix, name` is the upper-cased name. */
  lemma CandidateAfterComma(prefix: string, name: string)
    requires name != [] && ',' !in name
    requires !IsWhitespace(name[0]) && !IsWhitespace(name[|name| - 1])
    ensures ',' in prefix + ([','] + ([' '] + name))
    ensures Candidate(prefix + ([','] + ([' '] + name))) == UpperString(name)
  {
    var loc := prefix + ([','] + ([' '] + name));
    assert loc == prefix + [','] + ([' '] + name);
    assert loc[|prefix|] == ',';
    assert ',' !in [' '] + name;
    LastSegmentAfterComma(prefix, [' '] + name);
    TrimLeadingSpace(name);
  }

  lemma ChileIsFirst()
    ensures TokenOf("CHILE") == Some("CHILE")
  {
    assert PatternMatches(CountryTable[0], "CHILE");
  }

  /** Text shorter than every alternative matches no entry. */
  lemma ShortTextMatchesNothing(text: string)
    requires |text| < 4
    ensures NoMatch(CountryTable, text)
  {
    TableAlternativesLong();
    forall j | 0 <= j < |CountryTable| ensures !PatternMatches(CountryTable[j], text) {
      var alts := CountryTable[j].alternatives;
      forall a | a in alts ensures !ContainsCI(text, a) {
        NoRoomNoMatch(text, a);
      }
      NoAlternativeOccurs(text, alts);
    }
  }

  /**
    Entries are tried in declaration order, so a comma-free text that mentions
    Chile resolves to CHILE whatever other country it also mentions.
  */
  lemma ResolveChileFirst(location: string)
    requires ',' !in location && ContainsCI(location, "chile")
    ensures Resolve(location) == "CHILE"
  {
    assert PatternMatches(CountryTable[0], location);
    if location == [] {
      ShortTextMatchesNothing(location);
    }
  }

  /** When no entry matches, there is no token. */
  lemma NoMatchNoToken(text: string)
    requires NoMatch(CountryTable, text)
    ensures TokenOf(text) == None
  {
  }

  lemma UpperChile()
    ensures UpperString("Chile") == "CHILE"
  {
  }

  lemma UpperFoo()
    ensures UpperString("Foo") == "FOO"
  {
  }

  /** Whatever precedes it, a location ending in ", Chile" resolves to CHILE. */
  lemma ResolveExampleChile(prefix: string)
    ensures Resolve(prefix + ", Chile") == "CHILE"
  {
    CandidateChile(prefix);
    ChileIsFirst();
  }

  lemma CandidateChile(prefix: string)
    ensures ',' in prefix + ", Chile"
    ensures Candidate(prefix + ", Chile") == "CHILE"
  {
    assert ", Chile" == [','] + ([' '] + "Chile");
    CandidateAfterComma(prefix, "Chile");
    UpperChile();
  }

  /** A name after the last comma that no pattern knows is returned upper-cased. */
  lemma ResolveExampleUnlisted(prefix: string)
    ensures Resolve(prefix + ", Foo") == "FOO"
  {
    CandidateFoo(prefix);
    ShortTextMatchesNothing("FOO");
    NoMatchNoToken("FOO");
  }

  lemma CandidateFoo(prefix: string)
    ensures ',' in prefix + ", Foo"
    ensures Candidate(prefix + ", Foo") == "FOO"
  {
    assert ", Foo" == [','] + ([' '] + "Foo");
    CandidateAfterComma(prefix, "Foo");
    UpperFoo();
  }

  lemma {:induction false} NoRoomNoMatch(text: string, pat: string)
    requires |pat| > |text|
    ensures !ContainsCI(text, pat)
    decreases |text|
  {
    NoRoomNoStart(text, pat);
    if text != [] {
      NoRoomNoMatch(text[1..], pat);
    }
  }

  lemma {:induction false} NoRoomNoStart(text: string, pat: string)
    requires |pat| > |text|
    ensures !StartsWithCI(text, pat)
    decreases |pat|
  {
    if text != [] {
      NoRoomNoStart(text[1..], pat[1..]);
    }
  }

  lemma {:induction false} NoAlternativeOccurs(text: string, alts: seq<string>)
    requires forall a :: a in alts ==> !ContainsCI(text, a)
    ensures !AnyOccurs(text, alts)
    decreases |alts|
  {
    if alts != [] {
      NoAlternativeOccurs(text, alts[1..]);
    }
  }

  /**
    `extractCountryFromLocation`'s `for…of` over the table: return the first
    token whose pattern matches `text`.
  */
  method SearchTable(text: string) returns (token: Option<string>)
    ensures token == TokenOf(text)
  {
    var i := ScanTable(CountryTable, text);
    token := if i.None? then None else Some(CountryTable[i.value].token);
  }

  /** The loop of the search over any table: the index of the first entry that matches. */
  method ScanTable(table: seq<CountryPattern>, text: string) returns (r: Option<nat>)
    ensures r == FirstMatch(table, text)
  {
    for i := 0 to |table|
      invariant forall j :: 0 <= j < i ==> !PatternMatches(table[j], text)
    {
      if PatternMatches(table[i], text) {
        assert IsFirstMatch(table, text, i);
        var m := FirstMatch(table, text);
        FirstMatchUnique(table, text, m.value, i);
        return Some(i);
      }
    }
    return None;
  }

  /** `extractCountryFromLocation`. */
  method ExtractCountryFromLocation(location: string) returns (country: string)
    ensures country == Resolve(location)
  {
    if location == [] {
      return Unknown;
    }
    var parts := LastSegment(location);
    if |parts| < |location| {
      LastSegmentShorterIffComma(location);
      var possibleCountry := UpperString(Trim(parts));
      var found := SearchTable(possibleCountry);
      if found.Some? {
        return found.value;
      }
      return possibleCountry;
    }
    LastSegmentShorterIffComma(location);
    var found := SearchTable(location);
    if found.Some? {
      return found.value;
    }
    return Unknown;
  }
}
