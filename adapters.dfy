/**
  The two feed adapters: `mapUSGSData` and `mapEMSCData` turn provider
  features into the service's canonical event, with the fallback chains of
  the source (`||` on falsy values, `!= null` on absent ones).
*/
module FeedAdapters {
  import opened Wrappers
  import opened Text
  import opened CountryResolver
  import opened EarthquakeSchema

  /** The location text used when a feature names no place. */
  const UnknownPlace: string := "Ubicaci\U{F3}n desconocida"

  /**
    A canonical event as the adapters build it. `coordinates` is the
    `[longitude, latitude]` array of a GeoJSON Point, None standing for null;
    `day` is the UTC day of the event time, or None for null.
  */
  datatype Event = Event(
    magnitude: real, depth: real, location: string, day: Option<int>, country: string,
    source: Source, url: Option<string>, title: Option<string>, coordinates: seq<Option<real>>,
    eventId: Option<string>, alert: Option<string>, significance: Option<real>)

  /** A GeoJSON geometry; JSON null components are None. */
  datatype Geometry = Geometry(coordinates: Option<seq<Option<real>>>)

  datatype UsgsProperties = UsgsProperties(
    mag: Option<real>, place: Option<string>, time: Option<int>, url: Option<string>,
    title: Option<string>, code: Option<string>, alert: Option<string>, sig: Option<real>)

  datatype UsgsFeature = UsgsFeature(id: Option<string>, properties: Option<UsgsProperties>, geometry: Option<Geometry>)

  datatype EmscProperties = EmscProperties(
    mag: Option<real>, depth: Option<real>, flynnRegion: Option<string>, description: Option<string>,
    time: Option<int>, unid: Option<string>)

  datatype EmscFeature = EmscFeature(id: Option<string>, properties: Option<EmscProperties>, geometry: Option<Geometry>)

  /** `a || b` on optional text. */
  function OrElse(a: Option<string>, b: Option<string>): (r: Option<string>)
    ensures Truthy(a) ==> r == a
    ensures !Truthy(a) ==> r == b
  {
    if Truthy(a) then a else b
  }

  /** `n || 0` on an optional number (0 and absence both give 0). */
  function NumOrZero(n: Option<real>): (r: real)
    ensures n.Some? ==> r == n.value
    ensures n.None? ==> r == 0.0
  {
    n.GetOr(0.0)
  }

  /** `n || null` on an optional number: zero becomes null. */
  function NumOrNull(n: Option<real>): (r: Option<real>)
    ensures r.Some? <==> n.Some? && n.value != 0.0
    ensures r.Some? ==> r == n
  {
    if n.Some? && n.value != 0.0 then n else None
  }

  /** `coords[k] !== undefined ? coords[k] : null`. */
  function Component(coords: seq<Option<real>>, k: nat): (r: Option<real>)
    ensures k < |coords| ==> r == coords[k]
    ensures k >= |coords| ==> r == None
  {
    if k < |coords| then coords[k] else None
  }

  /** `time ? new Date(time).toISOString().split('T')[0] : null`. */
  function DayOrNull(time: Option<int>): (r: Option<int>)
    ensures r.Some? <==> time.Some? && time.value != 0
    ensures r.Some? ==> r.value * MsPerDay <= time.value < (r.value + 1) * MsPerDay
  {
    if time.Some? && time.value != 0 then Some(DayOf(time.value)) else None
  }

  /** The Point's two components, in order. */
  function PointOf(coords: seq<Option<real>>): (r: seq<Option<real>>)
    ensures |r| == 2 && r[0] == Component(coords, 0) && r[1] == Component(coords, 1)
  {
    [Component(coords, 0), Component(coords, 1)]
  }

  const NoUsgsProperties := UsgsProperties(None, None, None, None, None, None, None, None)
  const NoEmscProperties := EmscProperties(None, None, None, None, None, None)

  /** `geometry && geometry.coordinates ? geometry.coordinates : []`. */
  function UsgsCoords(f: UsgsFeature): seq<Option<real>> {
    if f.geometry.Some? && f.geometry.value.coordinates.Some? then f.geometry.value.coordinates.value else []
  }

  /** `Array.isArray(geom.coordinates) ? geom.coordinates : [null, null, null]`. */
  function EmscCoords(f: EmscFeature): seq<Option<real>> {
    if f.geometry.Some? && f.geometry.value.coordinates.Some? then f.geometry.value.coordinates.value else [None, None, None]
  }

  /**
    The USGS mapping of one feature: the coordinates are the first two
    geometry components (null where missing), the identifier is the global
    `id`, else the `code`, else null, and the country is the resolution of
    the place, or UNKNOWN when there is none.
  */
  function MapUsgsFeature(f: UsgsFeature): (e: Event)
    ensures e.source == USGS
    ensures var c := UsgsCoords(f);
      |e.coordinates| == 2 && forall k :: 0 <= k < 2 ==> e.coordinates[k] == (if k < |c| then c[k] else None)
    ensures var p := f.properties.GetOr(NoUsgsProperties);
      && (Truthy(f.id) ==> e.eventId == f.id)
      && (!Truthy(f.id) && Truthy(p.code) ==> e.eventId == p.code)
      && (!Truthy(f.id) && !Truthy(p.code) ==> e.eventId == None)
      && e.magnitude == p.mag.GetOr(0.0)
      && e.depth == (if 2 < |UsgsCoords(f)| && UsgsCoords(f)[2].Some? then UsgsCoords(f)[2].value else 0.0)
      && (Truthy(p.place) ==> e.location == p.place.value && e.country == Resolve(p.place.value))
      && (!Truthy(p.place) ==> e.location == UnknownPlace && e.country == Unknown)
      && (e.day.Some? <==> p.time.Some? && p.time.value != 0)
      && (e.day.Some? ==> e.day.value * MsPerDay <= p.time.value < (e.day.value + 1) * MsPerDay)
      && (e.significance.Some? <==> p.sig.Some? && p.sig.value != 0.0)
      && (e.significance.Some? ==> e.significance == p.sig)
      && (Truthy(p.url) ==> e.url == p.url) && (!Truthy(p.url) ==> e.url == None)
      && (Truthy(p.title) ==> e.title == p.title) && (!Truthy(p.title) ==> e.title == None)
      && (Truthy(p.alert) ==> e.alert == p.alert) && (!Truthy(p.alert) ==> e.alert == None)
  {
    var p := f.properties.GetOr(NoUsgsProperties);
    var coords := UsgsCoords(f);
    var place := OrElse(p.place, None);
    Event(
      NumOrZero(p.mag), NumOrZero(Component(coords, 2)),
      OrElse(p.place, Some(UnknownPlace)).value,
      DayOrNull(p.time),
      Resolve(place.GetOr("")),
      USGS, OrElse(p.url, None), OrElse(p.title, None), PointOf(coords),
      OrElse(f.id, OrElse(p.code, None)), OrElse(p.alert, None), NumOrNull(p.sig))
  }

  /** The EMSC depth chain: `props.depth`, else the third coordinate, else 0. */
  function EmscDepth(p: EmscProperties, coords: seq<Option<real>>): (d: real)
    ensures p.depth.Some? ==> d == p.depth.value
    ensures p.depth.None? && Component(coords, 2).Some? ==> d == Component(coords, 2).value
    ensures p.depth.None? && Component(coords, 2).None? ==> d == 0.0
  {
    if p.depth.Some? then p.depth.value
    else if Component(coords, 2).Some? then Component(coords, 2).value
    else 0.0
  }

  /**
    The EMSC mapping of one feature: coordinates as for USGS but defaulting
    to three nulls, the identifier is `id`, else `unid`, else null, the
    depth is `depth`, else the third coordinate, else 0, and the location is
    the Flinn-Engdahl region, else the description, else the placeholder.
  */
  function MapEmscFeature(f: EmscFeature): (e: Event)
    ensures e.source == EMSC
    ensures var c := EmscCoords(f);
      |e.coordinates| == 2 && forall k :: 0 <= k < 2 ==> e.coordinates[k] == (if k < |c| then c[k] else None)
    ensures e.alert == None && e.significance == None && e.url == None && e.title == None
    ensures var p := f.properties.GetOr(NoEmscProperties);
      var region := OrElse(p.flynnRegion, p.description);
      && (Truthy(f.id) ==> e.eventId == f.id)
      && (!Truthy(f.id) && Truthy(p.unid) ==> e.eventId == p.unid)
      && (!Truthy(f.id) && !Truthy(p.unid) ==> e.eventId == None)
      && e.depth == EmscDepth(p, EmscCoords(f))
      && e.magnitude == p.mag.GetOr(0.0)
      && (Truthy(p.flynnRegion) ==> e.location == p.flynnRegion.value)
      && (!Truthy(p.flynnRegion) && Truthy(p.description) ==> e.location == p.description.value)
      && (Truthy(region) ==> e.country == Resolve(e.location))
      && (!Truthy(region) ==> e.location == UnknownPlace && e.country == Unknown)
      && (e.day.Some? <==> p.time.Some? && p.time.value != 0)
      && (e.day.Some? ==> e.day.value * MsPerDay <= p.time.value < (e.day.value + 1) * MsPerDay)
  {
    var p := f.properties.GetOr(NoEmscProperties);
    var coords := EmscCoords(f);
    var region := OrElse(p.flynnRegion, p.description);
    Event(
      NumOrZero(p.mag), EmscDepth(p, coords),
      OrElse(region, Some(UnknownPlace)).value,
      DayOrNull(p.time),
      Resolve(region.GetOr("")),
      EMSC, None, None, PointOf(coords),
      OrElse(f.id, OrElse(p.unid, None)), None, None)
  }

  /** `mapUSGSData`: one event per feature, in feature order. */
  function MapUSGSData(fs: seq<UsgsFeature>): (es: seq<Event>)
    ensures |es| == |fs|
    ensures forall i :: 0 <= i < |fs| ==> es[i] == MapUsgsFeature(fs[i])
  {
    seq(|fs|, i requires 0 <= i < |fs| => MapUsgsFeature(fs[i]))
  }

  /** `mapEMSCData`: one event per feature, in feature order. */
  function MapEMSCData(fs: seq<EmscFeature>): (es: seq<Event>)
    ensures |es| == |fs|
    ensures forall i :: 0 <= i < |fs| ==> es[i] == MapEmscFeature(fs[i])
  {
    seq(|fs|, i requires 0 <= i < |fs| => MapEmscFeature(fs[i]))
  }

  /** An event's identifier, when present, is never empty text. */
  predicate IdentifierNonEmpty(e: Event) {
    e.eventId.Some? ==> e.eventId.value != ""
  }

  /**
    Every mapped event carries its provider tag and a two-component point,
    its identifier is either absent or non-empty, and its country is the
    resolution of the location it reports (unless that is the placeholder).
  */
  lemma MappedEventsWellFormed(us: seq<UsgsFeature>, em: seq<EmscFeature>)
    ensures forall e :: e in MapUSGSData(us) ==> e.source == USGS && |e.coordinates| == 2 && IdentifierNonEmpty(e)
    ensures forall e :: e in MapEMSCData(em) ==> e.source == EMSC && |e.coordinates| == 2 && IdentifierNonEmpty(e)
    ensures forall e :: e in MapUSGSData(us) + MapEMSCData(em) && e.location != UnknownPlace ==>
              e.country == Resolve(e.location)
  {
  }

  /** Mapping a concatenation of USGS feature lists maps each list, keeping its order. */
  lemma MapUsgsAppend(a: seq<UsgsFeature>, b: seq<UsgsFeature>)
    ensures MapUSGSData(a + b) == MapUSGSData(a) + MapUSGSData(b)
  {
    var whole, parts := MapUSGSData(a + b), MapUSGSData(a) + MapUSGSData(b);
    forall i | 0 <= i < |whole| ensures whole[i] == parts[i] {
      if i < |a| {
        assert (a + b)[i] == a[i];
      } else {
        assert (a + b)[i] == b[i - |a|];
      }
    }
  }

  /** Mapping a concatenation of EMSC feature lists maps each list, keeping its order. */
  lemma MapEmscAppend(a: seq<EmscFeature>, b: seq<EmscFeature>)
    ensures MapEMSCData(a + b) == MapEMSCData(a) + MapEMSCData(b)
  {
    var whole, parts := MapEMSCData(a + b), MapEMSCData(a) + MapEMSCData(b);
    forall i | 0 <= i < |whole| ensures whole[i] == parts[i] {
      if i < |a| {
        assert (a + b)[i] == a[i];
      } else {
        assert (a + b)[i] == b[i - |a|];
      }
    }
  }
}
