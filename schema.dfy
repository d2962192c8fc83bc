/**
  The stored earthquake record: the validation rules every persisted record
  satisfies, the casting Mongoose applies to submitted data (defaults and
  trim/uppercase setters), the pre-save hook that fills a missing country,
  the `findByCountry` static (filter, date-descending sort, limit) and the
  `toProjectFormat` projection.
*/
module EarthquakeSchema {
  import opened Wrappers
  import opened Text
  import opened Seqs

  datatype Source = USGS | EMSC | DB
  datatype Alert = Green | Yellow | Orange | Red

  /** The `source` enum; an omitted source defaults to DB. */
  function ParseSource(s: string): (r: Option<Source>)
    ensures r == Some(USGS) <==> s == "USGS"
    ensures r == Some(EMSC) <==> s == "EMSC"
    ensures r == Some(DB) <==> s == "DB"
  {
    if s == "USGS" then Some(USGS) else if s == "EMSC" then Some(EMSC) else if s == "DB" then Some(DB) else None
  }

  function SourceName(s: Source): string {
    match s
    case USGS => "USGS"
    case EMSC => "EMSC"
    case DB => "DB"
  }

  /** The `alert` enum (null is allowed separately). */
  function ParseAlert(a: string): (r: Option<Alert>)
    ensures r.Some? <==> a in {"green", "yellow", "orange", "red"}
  {
    if a == "green" then Some(Green) else if a == "yellow" then Some(Yellow)
    else if a == "orange" then Some(Orange) else if a == "red" then Some(Red) else None
  }

  function AlertName(a: Alert): string {
    match a
    case Green => "green"
    case Yellow => "yellow"
    case Orange => "orange"
    case Red => "red"
  }

  lemma SourceNameRoundTrip(s: Source)
    ensures ParseSource(SourceName(s)) == Some(s)
  {
  }

  lemma AlertNameRoundTrip(a: Alert)
    ensures ParseAlert(AlertName(a)) == Some(a)
  {
  }

  /** Milliseconds per day: `toISOString().split('T')[0]` keeps the UTC day. */
  const MsPerDay: int := 86400000

  /** The UTC day (days since the epoch) of a millisecond timestamp. */
  function DayOf(ms: int): (d: int)
    ensures d * MsPerDay <= ms < (d + 1) * MsPerDay
  {
    ms / MsPerDay
  }

  /** The GeoJSON point subdocument: its `type` (None for null) and its `[longitude, latitude]` array. */
  datatype GeoPoint = GeoPoint(kind: Option<string>, components: seq<real>)

  /** The coordinates validator: exactly two components, longitude then latitude, each in range. */
  predicate CoordinatePair(c: seq<real>) {
    |c| == 2 && -180.0 <= c[0] <= 180.0 && -90.0 <= c[1] <= 90.0
  }

  predicate MagnitudeInRange(m: real) { 0.0 <= m <= 10.0 }
  predicate DepthInRange(d: real) { 0.0 <= d <= 1000.0 }
  predicate SignificanceInRange(s: real) { 0.0 <= s <= 1000.0 }

  /** A JSON property that a default can fill: absent, explicitly null, or given. */
  datatype Nullable<T> = Absent | Null | Given(value: T)

  /** Mongoose applies a default only to an absent property; an explicit null stays null. */
  function Defaulted(v: Nullable<string>, default: string): (r: Option<string>)
    ensures v.Absent? ==> r == Some(default)
    ensures v.Null? ==> r == None
    ensures v.Given? ==> r == Some(v.value)
  {
    match v
    case Absent => Some(default)
    case Null => None
    case Given(x) => Some(x)
  }

  /** The `coordinates` object of submitted data: a Point, or a legacy `{latitude, longitude}` pair. */
  datatype RawCoordinates = RawCoordinates(
    kind: Nullable<string>, components: Option<seq<real>>,
    latitude: Option<real>, longitude: Option<real>)

  /**
    The plain object handed to `new Earthquake(data)`. Absent and null
    properties are None, except where a default tells them apart; numbers
    and dates arrive already typed (dates as milliseconds).
  */
  datatype Submission = Submission(
    location: Option<string>, magnitude: Option<real>, depth: Option<real>, date: Option<int>,
    country: Option<string>, source: Nullable<string>, title: Option<string>,
    coordinates: Option<RawCoordinates>, latitude: Option<real>, longitude: Option<real>,
    eventId: Option<string>, region: Option<string>, alert: Option<string>, significance: Option<real>)

  /** A document as Mongoose holds it before validation: defaults and setters applied. */
  datatype Document = Document(
    location: Option<string>, magnitude: Option<real>, depth: Option<real>, date: Option<int>,
    country: Option<string>, source: Option<string>, title: Option<string>, coordinates: GeoPoint,
    eventId: Option<string>, region: Option<string>, alert: Option<string>, significance: Option<real>)

  function TrimOpt(s: Option<string>): (r: Option<string>)
    ensures r.Some? <==> s.Some?
    ensures s.Some? ==> r.value == Trim(s.value)
  {
    match s
    case None => None
    case Some(v) => Some(Trim(v))
  }

  /**
    Casting: `trim` on location, country, title, eventId and region,
    `uppercase` on country, an absent `source` defaulting to DB, an absent
    `coordinates.type` to Point and the component array to empty; a null
    source or type stays null. Properties outside the schema
    (top-level latitude/longitude, legacy pair fields) are dropped.
  */
  function Cast(s: Submission): (d: Document)
    ensures d.location == TrimOpt(s.location) && d.title == TrimOpt(s.title)
    ensures d.eventId == TrimOpt(s.eventId) && d.region == TrimOpt(s.region)
    ensures d.country.Some? <==> s.country.Some?
    ensures s.country.Some? ==> d.country.value == UpperString(Trim(s.country.value))
    ensures s.source.Absent? ==> d.source == Some("DB")
    ensures s.source.Null? ==> d.source == None
    ensures s.source.Given? ==> d.source == Some(s.source.value)
    ensures s.coordinates.None? ==> d.coordinates == GeoPoint(Some("Point"), [])
    ensures s.coordinates.Some? ==>
              (d.coordinates.kind == Defaulted(s.coordinates.value.kind, "Point")
               && d.coordinates.components == s.coordinates.value.components.GetOr([]))
    ensures (d.magnitude, d.depth, d.date, d.alert, d.significance)
         == (s.magnitude, s.depth, s.date, s.alert, s.significance)
  {
    var coords := match s.coordinates
      case None => GeoPoint(Some("Point"), [])
      case Some(c) => GeoPoint(Defaulted(c.kind, "Point"), c.components.GetOr([]));
    Document(
      TrimOpt(s.location), s.magnitude, s.depth, s.date,
      match s.country { case None => None case Some(c) => Some(UpperString(Trim(c))) },
      Defaulted(s.source, "DB"), TrimOpt(s.title), coords,
      TrimOpt(s.eventId), TrimOpt(s.region), s.alert, s.significance)
  }

  /** The schema paths a validation error can name. */
  datatype Field =
    | LocationPath | MagnitudePath | DepthPath | DatePath | CountryPath | SourcePath
    | TitlePath | CoordinatesTypePath | CoordinatesPath | AlertPath | SignificancePath

  const AllFields: set<Field> := {
    LocationPath, MagnitudePath, DepthPath, DatePath, CountryPath, SourcePath,
    TitlePath, CoordinatesTypePath, CoordinatesPath, AlertPath, SignificancePath
  }

  /**
    The validator of path `f` rejects `d` when the clock reads `now`. A
    required string rejects absent and empty text; a required number or date
    rejects only absence; an optional path accepts absence.
  */
  predicate Violates(d: Document, now: int, f: Field) {
    match f
    case LocationPath => !Truthy(d.location) || Utf16Length(d.location.value) > 500
    case MagnitudePath => d.magnitude.None? || !MagnitudeInRange(d.magnitude.value)
    case DepthPath => d.depth.None? || !DepthInRange(d.depth.value)
    case DatePath => d.date.None? || d.date.value > now
    case CountryPath => !Truthy(d.country) || Utf16Length(d.country.value) > 100
    case SourcePath => d.source.None? || ParseSource(d.source.value).None?
    case TitlePath => d.title.Some? && Utf16Length(d.title.value) > 300
    case CoordinatesTypePath => d.coordinates.kind != Some("Point")
    case CoordinatesPath => !CoordinatePair(d.coordinates.components)
    case AlertPath => d.alert.Some? && ParseAlert(d.alert.value).None?
    case SignificancePath => d.significance.Some? && !SignificanceInRange(d.significance.value)
  }

  lemma AllFieldsComplete()
    ensures forall f: Field :: f in AllFields
  {
    forall f: Field ensures f in AllFields {
      match f
      case LocationPath =>
      case MagnitudePath =>
      case DepthPath =>
      case DatePath =>
      case CountryPath =>
      case SourcePath =>
      case TitlePath =>
      case CoordinatesTypePath =>
      case CoordinatesPath =>
      case AlertPath =>
      case SignificancePath =>
    }
  }

  /** The paths `validate()` reports. */
  function Violations(d: Document, now: int): (v: set<Field>)
    ensures forall f :: f in v <==> Violates(d, now, f)
  {
    AllFieldsComplete();
    set f | f in AllFields && Violates(d, now, f)
  }

  /** Every validator accepts `d`. */
  predicate Accepted(d: Document, now: int) {
    Truthy(d.location) && Utf16Length(d.location.value) <= 500
    && d.magnitude.Some? && MagnitudeInRange(d.magnitude.value)
    && d.depth.Some? && DepthInRange(d.depth.value)
    && d.date.Some? && d.date.value <= now
    && Truthy(d.country) && Utf16Length(d.country.value) <= 100
    && d.source.Some? && ParseSource(d.source.value).Some?
    && (d.title.Some? ==> Utf16Length(d.title.value) <= 300)
    && d.coordinates.kind == Some("Point") && CoordinatePair(d.coordinates.components)
    && (d.alert.Some? ==> ParseAlert(d.alert.value).Some?)
    && (d.significance.Some? ==> SignificanceInRange(d.significance.value))
  }

  /** No path is reported exactly when every validator accepts. */
  lemma NoViolationsIffAccepted(d: Document, now: int)
    ensures Violations(d, now) == {} <==> Accepted(d, now)
  {
    var v := Violations(d, now);
    if v == {} {
      assert !Violates(d, now, LocationPath) && !Violates(d, now, MagnitudePath);
      assert !Violates(d, now, DepthPath) && !Violates(d, now, DatePath);
      assert !Violates(d, now, CountryPath) && !Violates(d, now, SourcePath);
      assert !Violates(d, now, TitlePath) && !Violates(d, now, CoordinatesTypePath);
      assert !Violates(d, now, CoordinatesPath) && !Violates(d, now, AlertPath);
      assert !Violates(d, now, SignificancePath);
    }
    if Accepted(d, now) {
      assert forall f :: !Violates(d, now, f);
    }
  }

  /** A persisted record with its store identifier. */
  datatype Earthquake = Earthquake(
    id: nat, location: string, magnitude: real, depth: real, date: int, country: string,
    source: Source, title: Option<string>, coordinates: GeoPoint, eventId: Option<string>,
    region: Option<string>, alert: Option<Alert>, significance: Option<real>)

  /** What the validators guarantee of every stored record. */
  predicate ValidRecord(e: Earthquake) {
    e.location != "" && Utf16Length(e.location) <= 500
    && MagnitudeInRange(e.magnitude) && DepthInRange(e.depth)
    && e.country != "" && Utf16Length(e.country) <= 100
    && (e.title.Some? ==> Utf16Length(e.title.value) <= 300)
    && e.coordinates.kind == Some("Point") && CoordinatePair(e.coordinates.components)
    && (e.significance.Some? ==> SignificanceInRange(e.significance.value))
  }

  /** The record a document becomes once every validator accepts it. */
  function ToRecord(d: Document, id: nat, now: int): (e: Earthquake)
    requires Violations(d, now) == {}
    ensures ValidRecord(e) && e.date <= now && e.id == id
  {
    NoViolationsIffAccepted(d, now);
    Earthquake(
      id, d.location.value, d.magnitude.value, d.depth.value, d.date.value, d.country.value,
      ParseSource(d.source.value).value, d.title, d.coordinates, d.eventId, d.region,
      match d.alert { case None => None case Some(a) => ParseAlert(a) },
      d.significance)
  }

  /** The document of a stored record, as Mongoose would hold it. */
  function AsDocument(e: Earthquake): Document {
    Document(
      Some(e.location), Some(e.magnitude), Some(e.depth), Some(e.date), Some(e.country),
      Some(SourceName(e.source)), e.title, e.coordinates, e.eventId, e.region,
      match e.alert { case None => None case Some(a) => Some(AlertName(a)) },
      e.significance)
  }

  /**
    The validators accept exactly the documents of valid records: every valid
    record that is not dated in the future passes, and turns back into itself.
  */
  lemma ValidRecordPasses(e: Earthquake, now: int)
    requires ValidRecord(e) && e.date <= now
    ensures Violations(AsDocument(e), now) == {}
    ensures ToRecord(AsDocument(e), e.id, now) == e
  {
    SourceNameRoundTrip(e.source);
    if e.alert.Some? {
      AlertNameRoundTrip(e.alert.value);
    }
    NoViolationsIffAccepted(AsDocument(e), now);
  }

  /** …and every accepted document is the document of the record it becomes. */
  lemma AcceptedIsRecord(d: Document, id: nat, now: int)
    requires Violations(d, now) == {}
    ensures AsDocument(ToRecord(d, id, now)) == d
  {
    NoViolationsIffAccepted(d, now);
    var s := ParseSource(d.source.value).value;
    assert SourceName(s) == d.source.value;
    if d.alert.Some? {
      var a := ParseAlert(d.alert.value).value;
      assert AlertName(a) == d.alert.value;
    }
  }

  /** The country the `pre('save')` hook would assign, if it fires. */
  predicate HookFires(country: Option<string>, location: Option<string>) {
    !Truthy(country) && Truthy(location) && ',' in location.value
  }

  /** `new Earthquake(data)`: a document whose paths `save()` validates and the hook updates. */
  class EarthquakeDocument {
    var location: Option<string>
    var magnitude: Option<real>
    var depth: Option<real>
    var date: Option<int>
    var country: Option<string>
    var source: Option<string>
    var title: Option<string>
    var coordinates: GeoPoint
    var eventId: Option<string>
    var region: Option<string>
    var alert: Option<string>
    var significance: Option<real>

    function Snapshot(): Document
      reads this
    {
      Document(location, magnitude, depth, date, country, source, title, coordinates,
               eventId, region, alert, significance)
    }

    constructor (d: Document)
      ensures Snapshot() == d
    {
      location, magnitude, depth, date := d.location, d.magnitude, d.depth, d.date;
      country, source, title, coordinates := d.country, d.source, d.title, d.coordinates;
      eventId, region, alert, significance := d.eventId, d.region, d.alert, d.significance;
    }

    /**
      The `pre('save')` hook: when country is falsy and location has a comma,
      country becomes the trimmed, upper-cased text after the last comma;
      otherwise nothing changes.
    */
    method PreSave()
      modifies this`country
      ensures HookFires(old(country), location) ==> country == Some(UpperString(Trim(LastSegment(location.value))))
      ensures !HookFires(old(country), location) ==> country == old(country)
    {
      if !Truthy(country) && Truthy(location) {
        var parts := LastSegment(location.value);
        LastSegmentShorterIffComma(location.value);
        if |parts| < |location.value| {
          country := Some(UpperString(Trim(parts)));
        }
      }
    }

    /**
      What `save()` does before the insert: run the validators, then the
      `pre('save')` hook when they all passed. The hook never changes a
      document that passed.
    */
    method ValidateAndHook(now: int) returns (v: set<Field>)
      modifies this`country
      ensures v == Violations(old(Snapshot()), now)
      ensures Snapshot() == old(Snapshot())
    {
      v := Violations(Snapshot(), now);
      if v == {} {
        HookInertAfterValidation(Snapshot(), now);
        PreSave();
      }
    }
  }

  /**
    Validation runs before the `pre('save')` hooks, and it requires a
    non-empty country, so on a document that passes validation the hook
    never fires.
  */
  lemma HookInertAfterValidation(d: Document, now: int)
    requires Violations(d, now) == {}
    ensures !HookFires(d.country, d.location)
  {
    assert CountryPath !in Violations(d, now);
  }

  /**
    A default fills only an absent source: an explicit null reaches
    validation as null and fails `required`, an absent one becomes DB.
  */
  lemma NullSourceNotDefaulted(s: Submission, now: int)
    ensures s.source.Null? ==> SourcePath in Violations(Cast(s), now)
    ensures s.source.Absent? ==> SourcePath !in Violations(Cast(s), now)
  {
    var d := Cast(s);
    SourceViolation(d, now);
    if s.source.Absent? {
      assert d.source == Some("DB");
      assert ParseSource("DB") == Some(DB);
    }
  }

  /** The same holds for the Point type: null fails, absent becomes Point. */
  lemma NullTypeNotDefaulted(s: Submission, now: int)
    ensures s.coordinates.Some? && s.coordinates.value.kind.Null? ==> CoordinatesTypePath in Violations(Cast(s), now)
    ensures s.coordinates.None? || s.coordinates.value.kind.Absent? ==> CoordinatesTypePath !in Violations(Cast(s), now)
  {
    var d := Cast(s);
    TypeViolation(d, now);
  }

  lemma SourceViolation(d: Document, now: int)
    ensures SourcePath in Violations(d, now) <==> d.source.None? || ParseSource(d.source.value).None?
  {
    assert Violates(d, now, SourcePath) <==> d.source.None? || ParseSource(d.source.value).None?;
  }

  lemma TypeViolation(d: Document, now: int)
    ensures CoordinatesTypePath in Violations(d, now) <==> d.coordinates.kind != Some("Point")
  {
    assert Violates(d, now, CoordinatesTypePath) <==> d.coordinates.kind != Some("Point");
  }

  /** The order `sort({date: -1})` produces. */
  ghost predicate DateDescending(s: seq<Earthquake>) {
    forall i, j :: 0 <= i < j < |s| ==> s[i].date >= s[j].date
  }

  function InsertByDate(e: Earthquake, s: seq<Earthquake>): (r: seq<Earthquake>)
    requires DateDescending(s)
    ensures DateDescending(r)
    ensures forall x :: x in r ==> x == e || x in s
    ensures multiset(r) == multiset(s) + multiset{e}
    decreases |s|
  {
    if s == [] || e.date >= s[0].date then
      (if s != [] then HeadIsNewest(s); PrependNewest(e, s); [e] + s else [e])
    else
      assert s == [s[0]] + s[1..];
      TailDescending(s);
      var rest := InsertByDate(e, s[1..]);
      HeadIsNewest(s);
      PrependNewest(s[0], rest);
      ConsKeepsContents(s[0], s[1..], rest, e);
      [s[0]] + rest
  }

  /** Putting the same head before a sequence and before its insertion keeps them one insertion apart. */
  lemma ConsKeepsContents(h: Earthquake, t: seq<Earthquake>, rest: seq<Earthquake>, e: Earthquake)
    requires multiset(rest) == multiset(t) + multiset{e}
    requires forall x :: x in rest ==> x == e || x in t
    ensures multiset([h] + rest) == multiset([h] + t) + multiset{e}
    ensures forall x :: x in [h] + rest ==> x == e || x in [h] + t
  {
  }

  lemma HeadIsNewest(s: seq<Earthquake>)
    requires s != [] && DateDescending(s)
    ensures forall x :: x in s ==> x.date <= s[0].date
  {
  }

  lemma TailDescending(s: seq<Earthquake>)
    requires s != [] && DateDescending(s)
    ensures DateDescending(s[1..])
  {
    assert forall i :: 0 <= i < |s| - 1 ==> s[1..][i] == s[i + 1];
  }

  lemma PrependNewest(h: Earthquake, t: seq<Earthquake>)
    requires DateDescending(t) && forall x :: x in t ==> x.date <= h.date
    ensures DateDescending([h] + t)
  {
    var r := [h] + t;
    forall i, j | 0 <= i < j < |r| ensures r[i].date >= r[j].date {
      assert r[j] == t[j - 1];
      if i > 0 {
        assert r[i] == t[i - 1];
      }
    }
  }

  /**
    Records newest first. Mongo leaves the order of records of the same date
    unspecified; this model keeps their store order, and the contract says
    nothing about ties.
  */
  function SortByDateDesc(s: seq<Earthquake>): (r: seq<Earthquake>)
    ensures DateDescending(r)
    ensures multiset(r) == multiset(s)
    decreases |s|
  {
    if s == [] then []
    else
      assert s == [s[0]] + s[1..];
      InsertByDate(s[0], SortByDateDesc(s[1..]))
  }

  /** `cursor.limit(n)`: zero means no limit and a negative limit counts as its magnitude. */
  function MongoLimit(s: seq<Earthquake>, n: int): (r: seq<Earthquake>)
    ensures |r| <= |s| && r == s[..|r|]
    ensures n == 0 || |s| <= (if n < 0 then -n else n) ==> r == s
    ensures n != 0 && |s| > (if n < 0 then -n else n) ==> |r| == (if n < 0 then -n else n)
  {
    var k := if n < 0 then -n else n;
    if n == 0 || |s| <= k then s else s[..k]
  }

  /** The `{country: new RegExp(country, 'i')}` query. */
  predicate CountryMatches(e: Earthquake, country: string) {
    ContainsCI(e.country, country)
  }

  /** The query as the test the store applies to each record. */
  function Matcher(country: string): Earthquake -> bool {
    (e: Earthquake) => CountryMatches(e, country)
  }

  /** The stored records the query matches, in store order. */
  function Matching(records: seq<Earthquake>, country: string): (m: seq<Earthquake>)
    ensures forall e :: e in m <==> e in records && CountryMatches(e, country)
    ensures |m| <= |records|
  {
    Filter(records, Matcher(country))
  }

  /** `findByCountry(country, limit)`: matching records, newest first, at most `limit` of them. */
  function FindByCountry(records: seq<Earthquake>, country: string, limit: int): (r: seq<Earthquake>)
    ensures forall e :: e in r ==> e in records && CountryMatches(e, country)
    ensures |r| <= |Matching(records, country)|
  {
    var sorted := SortByDateDesc(Matching(records, country));
    var r := MongoLimit(sorted, limit);
    assert |multiset(sorted)| == |multiset(Matching(records, country))|;
    assert forall e :: e in r ==> e in multiset(sorted) by {
      forall e | e in r ensures e in multiset(sorted) {
        var i :| 0 <= i < |r| && r[i] == e;
        assert sorted[i] == e;
      }
    }
    r
  }

  /**
    `findByCountry` returns records of the store whose country contains the
    query, newest first, none twice more often than it is stored. With a
    zero limit, or with no more matches than the limit allows, it returns
    every match; otherwise exactly as many as the limit's magnitude.
  */
  lemma FindByCountryShape(records: seq<Earthquake>, country: string, limit: int)
    ensures var r := FindByCountry(records, country, limit);
      var m := Matching(records, country);
      var k := if limit < 0 then -limit else limit;
      DateDescending(r)
      && multiset(r) <= multiset(m) <= multiset(records)
      && (limit == 0 || |m| <= k ==> multiset(r) == multiset(m))
      && (limit != 0 ==> |r| == (if |m| < k then |m| else k))
      && (forall e, x :: e in m && e !in r && x in r ==> x.date >= e.date)
  {
    var matching := Matching(records, country);
    var sorted := SortByDateDesc(matching);
    var r := MongoLimit(sorted, limit);
    LimitKeepsNewest(matching, limit);
    assert |multiset(sorted)| == |multiset(matching)|;
    forall i, j | 0 <= i < j < |r| ensures r[i].date >= r[j].date {
      assert r[i] == sorted[i] && r[j] == sorted[j];
    }
    SubMultiset(records, Matcher(country));
    PrefixSubMultiset(sorted, |r|);
  }

  /**
    Every matching record left out by a non-zero limit is no newer than
    every record returned.
  */
  lemma FindByCountryNewest(records: seq<Earthquake>, country: string, limit: int, e: Earthquake)
    requires limit != 0
    requires e in records && CountryMatches(e, country) && e !in FindByCountry(records, country, limit)
    ensures forall x :: x in FindByCountry(records, country, limit) ==> x.date >= e.date
  {
    LimitKeepsNewest(Matching(records, country), limit);
  }

  /**
    Sorting newest first and then applying `.limit` keeps only given records,
    and every record the limit leaves out is no newer than any record kept.
  */
  lemma LimitKeepsNewest(s: seq<Earthquake>, limit: int)
    ensures var r := MongoLimit(SortByDateDesc(s), limit);
      multiset(r) <= multiset(s)
      && forall e, x :: e in s && e !in r && x in r ==> x.date >= e.date
  {
    var sorted := SortByDateDesc(s);
    var r := MongoLimit(sorted, limit);
    PrefixSubMultiset(sorted, |r|);
    forall e, x | e in s && e !in r && x in r ensures x.date >= e.date {
      assert e in multiset(sorted);
      var j :| 0 <= j < |sorted| && sorted[j] == e;
      var i :| 0 <= i < |r| && r[i] == x;
      assert sorted[i] == x;
    }
  }


  lemma {:induction false} SubMultiset<T>(s: seq<T>, p: T -> bool)
    ensures multiset(Filter(s, p)) <= multiset(s)
    decreases |s|
  {
    if s != [] {
      SubMultiset(s[1..], p);
      assert s == [s[0]] + s[1..];
    }
  }

  lemma PrefixSubMultiset<T>(s: seq<T>, k: nat)
    requires k <= |s|
    ensures multiset(s[..k]) <= multiset(s)
  {
    assert s == s[..k] + s[k..];
  }

  /** The `toProjectFormat` projection, with the date cut to its UTC day. */
  datatype ProjectRow = ProjectRow(
    magnitude: real, depth: real, location: string, day: int, country: string, source: Source)

  function ToProjectFormat(e: Earthquake): (r: ProjectRow)
    ensures r.day * MsPerDay <= e.date < (r.day + 1) * MsPerDay
    ensures (r.magnitude, r.depth, r.location, r.country, r.source)
         == (e.magnitude, e.depth, e.location, e.country, e.source)
  {
    ProjectRow(e.magnitude, e.depth, e.location, DayOf(e.date), e.country, e.source)
  }
}
