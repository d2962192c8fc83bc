/**
  The query side of the earthquake service: the country post-filter, the
  no-data marker, the `slice(0, limit)` post-processing of each feed, the
  case-insensitive source dispatch, the local-store queries and the lookups
  of one event by identifier. A provider response is an input value; a
  transport failure is one of its cases.
*/
module QueryFacade {
  import opened Wrappers
  import opened Text
  import opened Seqs
  import opened EarthquakeSchema
  import opened FeedAdapters

  const DefaultLimit: int := 10
  const HistoryDefaultLimit: int := 50
  const RecentLookupLimit: int := 100
  const NoRecords: string := "No hay registros s\U{ED}smicos"
  const UsgsConnectionError: string := "Error conectando con USGS"
  const EmscConnectionError: string := "Error conectando con EMSC"

  /** What a provider call yields: a transport failure, or a body whose `features` may be missing. */
  datatype Fetched<F> = TransportFailure | Received(features: Option<seq<F>>)

  /** The `createNoDataResponse` marker. */
  datatype NoData = NoData(message: string, country: string, error: Option<string>)

  /** What a feed or store query returns. */
  datatype Outcome = Events(events: seq<Event>) | Rows(rows: seq<ProjectRow>) | Empty(marker: NoData)

  /** `createNoDataResponse(country, error)`. */
  function CreateNoDataResponse(country: Option<string>, error: Option<string>): (m: NoData)
    ensures m.message == NoRecords && m.error == error
    ensures Truthy(country) ==> m.country == country.value
    ensures !Truthy(country) ==> m.country == "ALL"
  {
    NoData(NoRecords, if Truthy(country) then country.value else "ALL", error)
  }

  /** The test `filterByCountry` applies to each event. */
  predicate MentionsCountry(e: Event, country: string) {
    ContainsCI(e.country, country) || ContainsCI(e.location, country)
  }

  /** The filter as the test `Array.prototype.filter` applies to each event. */
  function Mentioner(country: string): Event -> bool {
    (e: Event) => MentionsCountry(e, country)
  }

  /** `filterByCountry`. */
  function FilterByCountry(events: seq<Event>, country: string): (r: seq<Event>)
    ensures forall e :: e in r <==> e in events && MentionsCountry(e, country)
    ensures |r| <= |events|
  {
    Filter(events, Mentioner(country))
  }

  /**
    `filterByCountry` keeps an order-preserving subsequence of its input:
    exactly the events whose country or location contains the filter,
    ignoring case.
  */
  lemma FilterByCountrySubsequence(events: seq<Event>, country: string) returns (idx: seq<nat>)
    ensures var r := FilterByCountry(events, country);
      |idx| == |r| && Increasing(idx)
      && (forall k :: 0 <= k < |idx| ==> idx[k] < |events| && r[k] == events[idx[k]])
      && (forall i :: 0 <= i < |events| ==> (MentionsCountry(events[i], country) <==> i in idx))
  {
    idx := FilterSelects(events, Mentioner(country));
  }

  /** `Array.prototype.slice(0, limit)`: a negative limit counts from the end. */
  function Slice(s: seq<Event>, limit: int): (r: seq<Event>)
    ensures |r| <= |s| && r == s[..|r|]
    ensures limit >= 0 ==> |r| == (if limit < |s| then limit else |s|)
    ensures limit < 0 ==> |r| == (if |s| + limit > 0 then |s| + limit else 0)
  {
    var end := if limit >= 0 then (if limit < |s| then limit else |s|)
               else (if |s| + limit > 0 then |s| + limit else 0);
    s[..end]
  }

  /** The mapped events that pass the country filter; all of them when no country is given. */
  function Passing(mapped: seq<Event>, country: Option<string>): (m: seq<Event>)
    ensures forall e :: e in m <==> e in mapped && (Truthy(country) ==> MentionsCountry(e, country.value))
    ensures |m| <= |mapped|
  {
    if Truthy(country) then FilterByCountry(mapped, country.value) else mapped
  }

  /** The events a feed keeps: mapped, filtered when a country is given, then sliced. */
  function FeedEvents(mapped: seq<Event>, country: Option<string>, limit: int): (r: seq<Event>)
    ensures |r| <= |Passing(mapped, country)| && r == Passing(mapped, country)[..|r|]
    ensures limit >= 0 ==> |r| <= limit
  {
    Slice(Passing(mapped, country), limit)
  }

  /**
    The post-processing shared by `getFromUSGS` and `getFromEMSC`: the
    marker, with the connection error, after a transport failure; the
    marker without error when nothing is kept; the kept events otherwise.
  */
  function FeedOutcome(received: Option<seq<Event>>, failed: bool, country: Option<string>, limit: int, failure: string): (r: Outcome)
    ensures r.Events? || r.Empty?
    ensures r.Empty? <==> failed || received.None? || FeedEvents(received.value, country, limit) == []
    ensures r.Empty? ==> r.marker == CreateNoDataResponse(country, if failed then Some(failure) else None)
    ensures r.Events? ==> r.events == FeedEvents(received.value, country, limit)
  {
    if failed then Empty(CreateNoDataResponse(country, Some(failure)))
    else if received.None? || received.value == [] then Empty(CreateNoDataResponse(country, None))
    else
      var kept := FeedEvents(received.value, country, limit);
      if |kept| > 0 then Events(kept) else Empty(CreateNoDataResponse(country, None))
  }

  function MappedUsgs(fetched: Fetched<UsgsFeature>): (r: Option<seq<Event>>)
    ensures r.Some? <==> fetched.Received? && fetched.features.Some?
    ensures r.Some? ==> r.value == MapUSGSData(fetched.features.value)
  {
    if fetched.Received? && fetched.features.Some? then Some(MapUSGSData(fetched.features.value)) else None
  }

  function MappedEmsc(fetched: Fetched<EmscFeature>): (r: Option<seq<Event>>)
    ensures r.Some? <==> fetched.Received? && fetched.features.Some?
    ensures r.Some? ==> r.value == MapEMSCData(fetched.features.value)
  {
    if fetched.Received? && fetched.features.Some? then Some(MapEMSCData(fetched.features.value)) else None
  }

  /**
    What `getFromUSGS(country, limit)` returns for a given provider response:
    USGS events only, and the marker carries the USGS connection error
    exactly when the transport failed.
  */
  function UsgsOutcome(fetched: Fetched<UsgsFeature>, country: Option<string>, limit: int): (r: Outcome)
    ensures r.Events? || r.Empty?
    ensures r.Events? ==> r.events != [] && forall e :: e in r.events ==> e.source == USGS
    ensures r.Empty? && r.marker.error.Some? <==> fetched.TransportFailure?
    ensures r.Empty? && r.marker.error.Some? ==> r.marker.error == Some(UsgsConnectionError)
  {
    var r := FeedOutcome(MappedUsgs(fetched), fetched.TransportFailure?, country, limit, UsgsConnectionError);
    FeedOutcomeShape(MappedUsgs(fetched), fetched.TransportFailure?, country, limit, UsgsConnectionError);
    if MappedUsgs(fetched).Some? then MappedEventsWellFormed(fetched.features.value, []); r else r
  }

  /**
    What `getFromEMSC(country, limit)` returns for a given provider response:
    EMSC events only, and the marker carries the EMSC connection error
    exactly when the transport failed.
  */
  function EmscOutcome(fetched: Fetched<EmscFeature>, country: Option<string>, limit: int): (r: Outcome)
    ensures r.Events? || r.Empty?
    ensures r.Events? ==> r.events != [] && forall e :: e in r.events ==> e.source == EMSC
    ensures r.Empty? && r.marker.error.Some? <==> fetched.TransportFailure?
    ensures r.Empty? && r.marker.error.Some? ==> r.marker.error == Some(EmscConnectionError)
  {
    var r := FeedOutcome(MappedEmsc(fetched), fetched.TransportFailure?, country, limit, EmscConnectionError);
    FeedOutcomeShape(MappedEmsc(fetched), fetched.TransportFailure?, country, limit, EmscConnectionError);
    if MappedEmsc(fetched).Some? then MappedEventsWellFormed([], fetched.features.value); r else r
  }

  /**
    A feed either returns a non-empty list of at most `limit` events (for a
    non-negative limit), each a received event that passes the country
    filter, or the no-data marker echoing the filter, whose error is set
    exactly when the transport failed.
  */
  lemma FeedOutcomeShape(received: Option<seq<Event>>, failed: bool, country: Option<string>, limit: int, failure: string)
    ensures var r := FeedOutcome(received, failed, country, limit, failure);
      && (r.Events? ==> !failed && received.Some? && r.events != [] && (limit >= 0 ==> |r.events| <= limit)
                        && forall e :: e in r.events ==> e in received.value && (Truthy(country) ==> MentionsCountry(e, country.value)))
      && (r.Empty? ==> (r.marker.error.Some? <==> failed))
  {
    var r := FeedOutcome(received, failed, country, limit, failure);
    if r.Events? {
      var passing := Passing(received.value, country);
      forall e | e in r.events ensures e in passing {
        var i :| 0 <= i < |r.events| && r.events[i] == e;
        assert passing[i] == e;
      }
    }
  }

  /**
    With a positive limit and a response that arrived, the feed returns the
    first `limit` events that pass the filter, in provider order, all of them
    when fewer pass, and the marker without error exactly when none passes.
  */
  lemma FeedReturnsFirstMatches(received: seq<Event>, country: Option<string>, limit: int, failure: string)
    requires limit > 0
    ensures var m := Passing(received, country);
      FeedOutcome(Some(received), false, country, limit, failure)
         == if m == [] then Empty(CreateNoDataResponse(country, None))
            else Events(m[..if limit < |m| then limit else |m|])
  {
  }

  /**
    `getFromUSGS`: map the features, filter them by country when one is
    given, keep the first `limit`, and answer the marker when nothing is left.
  */
  method GetFromUSGS(fetched: Fetched<UsgsFeature>, country: Option<string>, limit: int) returns (r: Outcome)
    ensures r == UsgsOutcome(fetched, country, limit)
  {
    if fetched.TransportFailure? {
      return Empty(CreateNoDataResponse(country, Some(UsgsConnectionError)));
    }
    if fetched.features.None? || fetched.features.value == [] {
      return Empty(CreateNoDataResponse(country, None));
    }
    var earthquakes := MapUSGSData(fetched.features.value);
    if Truthy(country) {
      earthquakes := FilterByCountry(earthquakes, country.value);
    }
    earthquakes := Slice(earthquakes, limit);
    if |earthquakes| > 0 {
      return Events(earthquakes);
    }
    return Empty(CreateNoDataResponse(country, None));
  }

  /** `getFromEMSC`, the same post-processing over the EMSC mapping. */
  method GetFromEMSC(fetched: Fetched<EmscFeature>, country: Option<string>, limit: int) returns (r: Outcome)
    ensures r == EmscOutcome(fetched, country, limit)
  {
    if fetched.TransportFailure? {
      return Empty(CreateNoDataResponse(country, Some(EmscConnectionError)));
    }
    if fetched.features.None? || fetched.features.value == [] {
      return Empty(CreateNoDataResponse(country, None));
    }
    var earthquakes := MapEMSCData(fetched.features.value);
    if Truthy(country) {
      earthquakes := FilterByCountry(earthquakes, country.value);
    }
    earthquakes := Slice(earthquakes, limit);
    if |earthquakes| > 0 {
      return Events(earthquakes);
    }
    return Empty(CreateNoDataResponse(country, None));
  }

  /** The records the query selects: those matching the country, or all of them when none is given. */
  function QueryTargets(records: seq<Earthquake>, country: Option<string>): (m: seq<Earthquake>)
    ensures forall e :: e in m <==> e in records && (Truthy(country) ==> CountryMatches(e, country.value))
    ensures |m| <= |records|
  {
    if Truthy(country) then Matching(records, country.value) else records
  }

  /** The records `find(query).sort({date: -1}).limit(limit)` yields. */
  function StoreQuery(records: seq<Earthquake>, country: Option<string>, limit: int): (r: seq<Earthquake>)
    ensures forall e :: e in r ==> e in QueryTargets(records, country)
    ensures |r| <= |QueryTargets(records, country)|
  {
    if Truthy(country) then FindByCountry(records, country.value, limit)
    else
      var sorted := SortByDateDesc(records);
      var r := MongoLimit(sorted, limit);
      assert |multiset(sorted)| == |multiset(records)|;
      assert forall e :: e in r ==> e in multiset(sorted) by {
        forall e | e in r ensures e in multiset(sorted) {
          var i :| 0 <= i < |r| && r[i] == e;
          assert sorted[i] == e;
        }
      }
      r
  }

  function ProjectRows(es: seq<Earthquake>): (rows: seq<ProjectRow>)
    ensures |rows| == |es| && forall i :: 0 <= i < |es| ==> rows[i] == ToProjectFormat(es[i])
  {
    seq(|es|, i requires 0 <= i < |es| => ToProjectFormat(es[i]))
  }

  /** `getFromDatabase(country, limit)`. */
  function GetFromDatabase(records: seq<Earthquake>, country: Option<string>, limit: int): (r: Outcome)
    ensures r.Rows? || r.Empty?
    ensures r.Empty? <==> StoreQuery(records, country, limit) == []
    ensures r.Empty? ==> r.marker == CreateNoDataResponse(country, None)
    ensures r.Rows? ==> r.rows == ProjectRows(StoreQuery(records, country, limit))
  {
    var found := StoreQuery(records, country, limit);
    if found == [] then Empty(CreateNoDataResponse(country, None)) else Rows(ProjectRows(found))
  }

  /**
    The rows of `getFromDatabase` come from the records the query selects,
    newest first. With a zero limit, or no more selected records than the
    limit allows, every selected record is returned; otherwise exactly as
    many as the limit's magnitude. So the no-data marker appears exactly
    when no stored record is selected.
  */
  lemma DatabaseRowsShape(records: seq<Earthquake>, country: Option<string>, limit: int)
    ensures var found := StoreQuery(records, country, limit);
      var m := QueryTargets(records, country);
      var k := if limit < 0 then -limit else limit;
      DateDescending(found)
      && multiset(found) <= multiset(m)
      && (forall e, x :: e in m && e !in found && x in found ==> x.date >= e.date)
      && (limit == 0 || |m| <= k ==> multiset(found) == multiset(m))
      && (limit != 0 ==> |found| == (if |m| < k then |m| else k))
      && (found == [] <==> forall e :: e in records ==> Truthy(country) && !CountryMatches(e, country.value))
  {
    var m := QueryTargets(records, country);
    var found := StoreQuery(records, country, limit);
    if Truthy(country) {
      FindByCountryShape(records, country.value, limit);
    } else {
      var sorted := SortByDateDesc(records);
      LimitKeepsNewest(records, limit);
      assert |multiset(sorted)| == |multiset(records)|;
      forall i, j | 0 <= i < j < |found| ensures found[i].date >= found[j].date {
        assert found[i] == sorted[i] && found[j] == sorted[j];
      }
    }
    if m != [] {
      assert |multiset(m)| > 0;
      assert found != [];
      assert m[0] in records && (Truthy(country) ==> CountryMatches(m[0], country.value));
    } else {
      forall e | e in records ensures Truthy(country) && !CountryMatches(e, country.value) {
        assert e !in m;
      }
    }
  }

  /** The dispatch error of `getEarthquakeData`. */
  function InvalidSource(source: string): (r: string)
    ensures |r| > |source| && r[|r| - |source|..] == source
  {
    "Fuente no v\U{E1}lida: " + source
  }

  /** What `getEarthquakeData(source, country, limit)` returns; an omitted limit is 10. */
  function EarthquakeData(
    source: string, country: Option<string>, limit: Option<int>,
    usgs: Fetched<UsgsFeature>, emsc: Fetched<EmscFeature>, records: seq<Earthquake>): (r: Result<Outcome, string>)
    ensures r.Err? <==> UpperString(source) !in {"USGS", "EMSC", "DB"}
    ensures r.Err? ==> r.error == InvalidSource(source)
    ensures r.Ok? && r.value.Rows? ==> UpperString(source) == "DB"
    ensures r.Ok? && r.value.Events? ==> forall e :: e in r.value.events ==> SourceName(e.source) == UpperString(source)
    ensures UpperString(source) == "USGS" ==> r == Ok(UsgsOutcome(usgs, country, limit.GetOr(DefaultLimit)))
    ensures UpperString(source) == "EMSC" ==> r == Ok(EmscOutcome(emsc, country, limit.GetOr(DefaultLimit)))
    ensures UpperString(source) == "DB" ==> r == Ok(GetFromDatabase(records, country, limit.GetOr(DefaultLimit)))
  {
    var n := limit.GetOr(DefaultLimit);
    var key := UpperString(source);
    if key == "USGS" then Ok(UsgsOutcome(usgs, country, n))
    else if key == "EMSC" then Ok(EmscOutcome(emsc, country, n))
    else if key == "DB" then Ok(GetFromDatabase(records, country, n))
    else Err(InvalidSource(source))
  }

  /**
    The dispatch ignores case: every spelling of a source name reaches the
    same backend, and any other name is rejected with an error naming it.
  */
  lemma DispatchIgnoresCase(
    a: string, b: string, country: Option<string>, limit: Option<int>,
    usgs: Fetched<UsgsFeature>, emsc: Fetched<EmscFeature>, records: seq<Earthquake>)
    requires UpperString(a) == UpperString(b)
    ensures EarthquakeData(a, country, limit, usgs, emsc, records).Ok?
        <==> EarthquakeData(b, country, limit, usgs, emsc, records).Ok?
    ensures EarthquakeData(a, country, limit, usgs, emsc, records).Ok?
        ==> EarthquakeData(a, country, limit, usgs, emsc, records) == EarthquakeData(b, country, limit, usgs, emsc, records)
    ensures EarthquakeData(a, country, limit, usgs, emsc, records).Err?
        ==> EarthquakeData(a, country, limit, usgs, emsc, records).error == InvalidSource(a)
  {
  }

  /** Only the three source names, in any case, are accepted. */
  lemma DispatchAccepts(
    source: string, country: Option<string>, limit: Option<int>,
    usgs: Fetched<UsgsFeature>, emsc: Fetched<EmscFeature>, records: seq<Earthquake>)
    ensures EarthquakeData(source, country, limit, usgs, emsc, records).Ok?
        <==> UpperString(source) in {"USGS", "EMSC", "DB"}
  {
  }

  /** `getEarthquakeData`: dispatch on the upper-cased source name. */
  method GetEarthquakeData(
    source: string, country: Option<string>, limit: Option<int>,
    usgs: Fetched<UsgsFeature>, emsc: Fetched<EmscFeature>, records: seq<Earthquake>)
    returns (r: Result<Outcome, string>)
    ensures r == EarthquakeData(source, country, limit, usgs, emsc, records)
  {
    var n := limit.GetOr(DefaultLimit);
    var key := UpperString(source);
    if key == "USGS" {
      var o := GetFromUSGS(usgs, country, n);
      return Ok(o);
    } else if key == "EMSC" {
      var o := GetFromEMSC(emsc, country, n);
      return Ok(o);
    } else if key == "DB" {
      return Ok(GetFromDatabase(records, country, n));
    }
    return Err(InvalidSource(source));
  }

  /** One row of `getHistoryByCountry`. */
  datatype HistoryRow = HistoryRow(id: nat, magnitude: real, depth: real, location: string, day: int, source: Source)

  /** The `getHistoryByCountry` response: `message` is present only when `data` is empty. */
  datatype History = History(country: string, message: Option<string>, data: seq<HistoryRow>)

  function HistoryRowOf(e: Earthquake): (h: HistoryRow)
    ensures h.id == e.id && h.day == DayOf(e.date)
    ensures (h.magnitude, h.depth, h.location, h.source) == (e.magnitude, e.depth, e.location, e.source)
  {
    HistoryRow(e.id, e.magnitude, e.depth, e.location, DayOf(e.date), e.source)
  }

  /** `getHistoryByCountry(country, limit)`; an omitted limit is 50. */
  function HistoryByCountry(records: seq<Earthquake>, country: string, limit: Option<int>): (h: History)
    ensures h.country == UpperString(country)
    ensures var found := FindByCountry(records, country, limit.GetOr(HistoryDefaultLimit));
      && |h.data| == |found|
      && (forall i :: 0 <= i < |found| ==> h.data[i] == HistoryRowOf(found[i]))
      && (h.message.Some? <==> found == [])
      && (found == [] ==> h.message == Some(NoRecords))
  {
    var found := FindByCountry(records, country, limit.GetOr(HistoryDefaultLimit));
    var rows := seq(|found|, i requires 0 <= i < |found| => HistoryRowOf(found[i]));
    History(UpperString(country), if found == [] then Some(NoRecords) else None, rows)
  }

  /** Against an empty store the history is the upper-cased country with no rows. */
  lemma HistoryOfEmptyStore(country: string, limit: Option<int>)
    ensures HistoryByCountry([], country, limit) == History(UpperString(country), Some(NoRecords), [])
  {
    var n := limit.GetOr(HistoryDefaultLimit);
    assert FindByCountry([], country, n) == [];
  }

  /** The history rows come newest first. */
  lemma HistoryNewestFirst(records: seq<Earthquake>, country: string, limit: Option<int>)
    ensures var d := HistoryByCountry(records, country, limit).data;
      forall i, j :: 0 <= i < j < |d| ==> d[i].day >= d[j].day
  {
    var found := FindByCountry(records, country, limit.GetOr(HistoryDefaultLimit));
    FindByCountryShape(records, country, limit.GetOr(HistoryDefaultLimit));
    var d := HistoryByCountry(records, country, limit).data;
    forall i, j | 0 <= i < j < |d| ensures d[i].day >= d[j].day {
      DayMonotone(found[j].date, found[i].date);
    }
  }

  lemma DayMonotone(a: int, b: int)
    requires a <= b
    ensures DayOf(a) <= DayOf(b)
  {
  }

  /** `events.find(ev => ev.eventId === eventId)`. */
  function FindByEventId(events: seq<Event>, eventId: string): (r: Option<Event>)
    ensures r.Some? ==> r.value in events && r.value.eventId == Some(eventId)
    ensures r.None? <==> forall e :: e in events ==> e.eventId != Some(eventId)
    decreases |events|
  {
    if events == [] then None
    else if events[0].eventId == Some(eventId) then Some(events[0])
    else FindByEventId(events[1..], eventId)
  }

  /** The first event carrying the identifier is the one found. */
  lemma {:induction false} FindByEventIdFirst(events: seq<Event>, eventId: string, i: nat)
    requires i < |events| && events[i].eventId == Some(eventId)
    requires forall j :: 0 <= j < i ==> events[j].eventId != Some(eventId)
    ensures FindByEventId(events, eventId) == Some(events[i])
    decreases i
  {
    if i > 0 {
      FindByEventIdFirst(events[1..], eventId, i - 1);
    }
  }

  /** The recent-list fallback: look the identifier up in the outcome when it is a list. */
  function FindInOutcome(o: Outcome, eventId: string): (r: Option<Event>)
    ensures r.Some? ==> o.Events? && r.value in o.events && r.value.eventId == Some(eventId)
    ensures r.None? <==> !o.Events? || forall e :: e in o.events ==> e.eventId != Some(eventId)
  {
    if o.Events? then FindByEventId(o.events, eventId) else None
  }

  /**
    What `getUSGSEventById` returns: the first mapped feature of a non-empty
    direct answer, else the matching event among the 100 most recent, else
    null; a failed direct query is null.
  */
  function UsgsEventById(eventId: string, direct: Fetched<UsgsFeature>, recent: Fetched<UsgsFeature>): (r: Option<Event>)
    ensures direct.TransportFailure? ==> r.None?
    ensures direct.Received? && direct.features.Some? && direct.features.value != [] ==>
              r == Some(MapUsgsFeature(direct.features.value[0]))
    ensures r.Some? ==> r.value.source == USGS
  {
    if direct.TransportFailure? then None
    else if direct.features.Some? && |direct.features.value| > 0 then Some(MapUsgsFeature(direct.features.value[0]))
    else FindInOutcome(UsgsOutcome(recent, None, RecentLookupLimit), eventId)
  }

  /** What `getEMSCEventById` returns: the matching event among the 100 most recent, else null. */
  function EmscEventById(eventId: string, recent: Fetched<EmscFeature>): (r: Option<Event>)
    ensures recent.TransportFailure? ==> r.None?
    ensures r.Some? ==> r.value.eventId == Some(eventId) && r.value.source == EMSC
  {
    FindInOutcome(EmscOutcome(recent, None, RecentLookupLimit), eventId)
  }

  /**
    An event found through the recent list carries the identifier asked for
    and is a mapping of one of the first 100 features; nothing is found only
    when none of those carries it.
  */
  lemma EmscLookupSound(eventId: string, recent: Fetched<EmscFeature>)
    ensures var r := EmscEventById(eventId, recent);
      && (r.Some? ==> r.value.eventId == Some(eventId) && recent.Received? && recent.features.Some?
                      && r.value in MapEMSCData(recent.features.value)[..(if |recent.features.value| < 100 then |recent.features.value| else 100)])
      && (r.None? && recent.Received? && recent.features.Some? ==>
            forall e :: e in MapEMSCData(recent.features.value)[..(if |recent.features.value| < 100 then |recent.features.value| else 100)]
                        ==> e.eventId != Some(eventId))
  {
    if recent.Received? && recent.features.Some? && recent.features.value != [] {
      var mapped := MapEMSCData(recent.features.value);
      assert FeedEvents(mapped, None, RecentLookupLimit) == mapped[..(if |mapped| < 100 then |mapped| else 100)];
    }
  }

  /**
    A USGS lookup whose direct query answers no feature falls back to the
    recent list: what it finds carries the identifier asked for and is a
    mapping of one of the first 100 recent features; nothing is found only
    when none of those carries it.
  */
  lemma UsgsFallbackSound(eventId: string, direct: Fetched<UsgsFeature>, recent: Fetched<UsgsFeature>)
    requires direct.Received? && (direct.features.None? || direct.features.value == [])
    ensures var r := UsgsEventById(eventId, direct, recent);
      && (r.Some? ==> r.value.eventId == Some(eventId) && recent.Received? && recent.features.Some?
                      && r.value in MapUSGSData(recent.features.value)[..(if |recent.features.value| < 100 then |recent.features.value| else 100)])
      && (r.None? && recent.Received? && recent.features.Some? ==>
            forall e :: e in MapUSGSData(recent.features.value)[..(if |recent.features.value| < 100 then |recent.features.value| else 100)]
                        ==> e.eventId != Some(eventId))
  {
    if recent.Received? && recent.features.Some? && recent.features.value != [] {
      var mapped := MapUSGSData(recent.features.value);
      assert FeedEvents(mapped, None, RecentLookupLimit) == mapped[..(if |mapped| < 100 then |mapped| else 100)];
    }
  }

  /** `getUSGSEventById`: the direct query first, then the recent list. */
  method GetUSGSEventById(eventId: string, direct: Fetched<UsgsFeature>, recent: Fetched<UsgsFeature>)
    returns (r: Option<Event>)
    ensures r == UsgsEventById(eventId, direct, recent)
  {
    if direct.TransportFailure? {
      return None;
    }
    if direct.features.Some? && |direct.features.value| > 0 {
      var mapped := MapUSGSData(direct.features.value);
      return Some(mapped[0]);
    }
    var o := GetEarthquakeData("USGS", None, Some(RecentLookupLimit), recent, TransportFailure, []);
    assert UpperString("USGS") == "USGS";
    if o.Ok? && o.value.Events? {
      return FindByEventId(o.value.events, eventId);
    }
    return None;
  }

  /** `getEMSCEventById`: search the 100 most recent EMSC events. */
  method GetEMSCEventById(eventId: string, recent: Fetched<EmscFeature>) returns (r: Option<Event>)
    ensures r == EmscEventById(eventId, recent)
  {
    var o := GetEarthquakeData("EMSC", None, Some(RecentLookupLimit), TransportFailure, recent, []);
    assert UpperString("EMSC") == "EMSC";
    if o.Ok? && o.value.Events? {
      return FindByEventId(o.value.events, eventId);
    }
    return None;
  }
}
