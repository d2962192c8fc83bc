/**
  Reconciliation on save and removal by id. `saveEarthquake` completes the
  submitted data step by step (country, coordinates, identifier), refuses
  an identifier the store already holds, lets the schema validate, and
  inserts one record; `deleteEarthquake` removes the record with an id.
  The clock and the random source are parameters.
*/
module Reconciliation {
  import opened Wrappers
  import opened Text
  import opened Seqs
  import opened CountryResolver
  import opened EarthquakeSchema

  const DuplicateCode: int := 11000
  const DuplicateMessage: string := "Duplicate eventId"
  const SavedMessage: string := "Terremoto guardado exitosamente"
  const NotFoundMessage: string := "Terremoto no encontrado"

  /** The country step: resolve it from the location only when it is missing. */
  function FillCountry(d: Submission): (r: Submission)
    ensures !Truthy(d.country) && Truthy(d.location) ==> r == d.(country := Some(Resolve(d.location.value)))
    ensures Truthy(d.country) || !Truthy(d.location) ==> r == d
  {
    if !Truthy(d.country) && Truthy(d.location) then d.(country := Some(Resolve(d.location.value))) else d
  }

  /** A submitted GeoJSON Point. */
  function PointCoordinates(longitude: real, latitude: real): RawCoordinates {
    RawCoordinates(Given("Point"), Some([longitude, latitude]), None, None)
  }

  /** The coordinates object carries a numeric latitude and longitude. */
  predicate IsLegacyPair(c: Option<RawCoordinates>) {
    c.Some? && c.value.latitude.Some? && c.value.longitude.Some?
  }

  /** The legacy step: `{latitude, longitude}` becomes the Point `[longitude, latitude]`. */
  function LegacyToPoint(d: Submission): (r: Submission)
    ensures IsLegacyPair(d.coordinates) ==>
              r == d.(coordinates := Some(PointCoordinates(d.coordinates.value.longitude.value, d.coordinates.value.latitude.value)))
    ensures !IsLegacyPair(d.coordinates) ==> r == d
  {
    if IsLegacyPair(d.coordinates) then
      d.(coordinates := Some(PointCoordinates(d.coordinates.value.longitude.value, d.coordinates.value.latitude.value)))
    else d
  }

  /** The bare-fields step: top-level longitude and latitude are used only when there are no coordinates. */
  function BareToPoint(d: Submission): (r: Submission)
    ensures d.coordinates.None? && d.longitude.Some? && d.latitude.Some? ==>
              r == d.(coordinates := Some(PointCoordinates(d.longitude.value, d.latitude.value)))
    ensures d.coordinates.Some? || d.longitude.None? || d.latitude.None? ==> r == d
  {
    if d.coordinates.None? && d.longitude.Some? && d.latitude.Some? then
      d.(coordinates := Some(PointCoordinates(d.longitude.value, d.latitude.value)))
    else d
  }

  /** `Math.floor(Math.random() * 10000)`. */
  function Suffix(random: real): (n: nat)
    requires 0.0 <= random < 1.0
    ensures n < 10000 && n as real <= random * 10000.0 < n as real + 1.0
  {
    (random * 10000.0).Floor
  }

  /** The identifier synthesised for a local record: `LOCAL-<now>-<suffix>`. */
  function LocalId(now: nat, suffix: nat): (r: string)
    ensures |r| >= 9 && r[..6] == "LOCAL-"
    ensures forall k :: 6 <= k < |r| ==> '0' <= r[k] <= '9' || r[k] == '-'
  {
    "LOCAL-" + NatToString(now) + "-" + NatToString(suffix)
  }

  /** The identifier step: synthesise one only when none is given. */
  function AssignEventId(d: Submission, now: nat, suffix: nat): (r: Submission)
    ensures Truthy(d.eventId) ==> r == d
    ensures !Truthy(d.eventId) ==> r == d.(eventId := Some(LocalId(now, suffix)))
  {
    if Truthy(d.eventId) then d else d.(eventId := Some(LocalId(now, suffix)))
  }

  /** The submission as `saveEarthquake` hands it on, after the four steps in order. */
  function Prepare(d: Submission, now: nat, suffix: nat): (r: Submission)
    ensures Truthy(r.eventId)
    ensures r.(country := d.country, coordinates := d.coordinates, eventId := d.eventId) == d
  {
    AssignEventId(BareToPoint(LegacyToPoint(FillCountry(d))), now, suffix)
  }

  /**
    The country is filled only when absent and the identifier only when
    absent; a given identifier is kept, and afterwards there always is one.
  */
  lemma PrepareFillsOnlyMissing(d: Submission, now: nat, suffix: nat)
    ensures var p := Prepare(d, now, suffix);
      && (Truthy(d.country) ==> p.country == d.country)
      && (!Truthy(d.country) && Truthy(d.location) ==> p.country == Some(Resolve(d.location.value)))
      && (!Truthy(d.country) && !Truthy(d.location) ==> p.country == d.country)
      && (Truthy(d.eventId) ==> p.eventId == d.eventId)
      && (!Truthy(d.eventId) ==> p.eventId == Some(LocalId(now, suffix)))
      && Truthy(p.eventId)
      && (p.location, p.magnitude, p.depth, p.date, p.source, p.title, p.region, p.alert, p.significance)
         == (d.location, d.magnitude, d.depth, d.date, d.source, d.title, d.region, d.alert, d.significance)
  {
    assert "LOCAL-" + NatToString(now) + "-" + NatToString(suffix) != "";
  }

  /**
    Coordinate normalisation: a legacy pair becomes `[longitude, latitude]`,
    bare fields are used only when no coordinates are given, and any other
    coordinates object is left as it is.
  */
  lemma PrepareNormalisesCoordinates(d: Submission, now: nat, suffix: nat)
    ensures var c := Prepare(d, now, suffix).coordinates;
      && (IsLegacyPair(d.coordinates) ==>
            c == Some(PointCoordinates(d.coordinates.value.longitude.value, d.coordinates.value.latitude.value)))
      && (d.coordinates.Some? && !IsLegacyPair(d.coordinates) ==> c == d.coordinates)
      && (d.coordinates.None? && d.longitude.Some? && d.latitude.Some? ==>
            c == Some(PointCoordinates(d.longitude.value, d.latitude.value)))
      && (d.coordinates.None? && (d.longitude.None? || d.latitude.None?) ==> c == None)
  {
  }

  /** Preparing twice is preparing once. */
  lemma PrepareIdempotent(d: Submission, now: nat, suffix: nat)
    ensures Prepare(Prepare(d, now, suffix), now, suffix) == Prepare(d, now, suffix)
  {
    PrepareFillsOnlyMissing(d, now, suffix);
    var f := FillCountry(d);
    var p := Prepare(d, now, suffix);
    assert p.location == d.location;
    if !Truthy(d.country) && Truthy(d.location) && !Truthy(p.country) {
      assert FillCountry(p) == p;
    }
  }

  /** A legacy `{latitude: -33.4, longitude: -70.6}` is stored as the Point `[-70.6, -33.4]`. */
  lemma LegacyPairExample(d: Submission, now: nat, suffix: nat)
    requires d.coordinates == Some(RawCoordinates(Absent, None, Some(-33.4), Some(-70.6)))
    ensures Cast(Prepare(d, now, suffix)).coordinates == GeoPoint(Some("Point"), [-70.6, -33.4])
  {
  }

  /** Text ending in a separator followed by separator-free parts splits one way only. */
  lemma {:induction false} SplitAtDash(a: string, b: string, c: string, e: string)
    requires '-' !in a && '-' !in c
    requires a + "-" + b == c + "-" + e
    ensures a == c && b == e
  {
    var x, y := a + "-" + b, c + "-" + e;
    assert x[|a|] == '-' && y[|c|] == '-';
    if |a| < |c| {
      assert false;
    } else if |c| < |a| {
      assert false;
    }
    assert a == x[..|a|] == c;
    assert b == x[|a| + 1..] == e;
  }

  lemma NoDashInDigits(n: nat)
    ensures '-' !in NatToString(n)
  {
  }

  /**
    Distinct clock readings or distinct random suffixes give distinct
    synthesised identifiers.
  */
  lemma LocalIdInjective(n1: nat, s1: nat, n2: nat, s2: nat)
    requires LocalId(n1, s1) == LocalId(n2, s2)
    ensures n1 == n2 && s1 == s2
  {
    var x, y := LocalId(n1, s1), LocalId(n2, s2);
    assert x[6..] == NatToString(n1) + "-" + NatToString(s1);
    assert y[6..] == NatToString(n2) + "-" + NatToString(s2);
    NoDashInDigits(n1);
    NoDashInDigits(n2);
    SplitAtDash(NatToString(n1), NatToString(s1), NatToString(n2), NatToString(s2));
    NatToStringInjective(n1, n2);
    NatToStringInjective(s1, s2);
  }

  /** Why a save is refused. */
  datatype SaveError = Duplicate(code: int, message: string) | Invalid(paths: set<Field>)

  /** The `saveEarthquake` response. */
  datatype Saved = Saved(id: nat, eventId: Option<string>, message: string)

  /** Some record already carries the identifier. */
  predicate HoldsEventId(records: seq<Earthquake>, eventId: string) {
    exists e :: e in records && e.eventId == Some(eventId)
  }

  predicate IdsDistinct(records: seq<Earthquake>) {
    forall i, j :: 0 <= i < j < |records| ==> records[i].id != records[j].id
  }

  /** The unique sparse index on `eventId`: no two records share a present identifier. */
  predicate EventIdsUnique(records: seq<Earthquake>) {
    forall i, j :: 0 <= i < j < |records| && records[i].eventId.Some? ==> records[i].eventId != records[j].eventId
  }

  /** The test `findByIdAndDelete` uses to keep a record. */
  function NotId(id: nat): Earthquake -> bool {
    (e: Earthquake) => e.id != id
  }

  /** `findByIdAndDelete`: the records without the one carrying `id`. */
  function RemoveId(records: seq<Earthquake>, id: nat): (r: seq<Earthquake>)
    ensures forall e :: e in r <==> e in records && e.id != id
    ensures |r| <= |records|
  {
    Filter(records, NotId(id))
  }

  /** With distinct ids, removal takes out exactly the record at its position and keeps the order of the rest. */
  lemma RemoveIdExact(records: seq<Earthquake>, id: nat, k: nat)
    requires IdsDistinct(records) && k < |records| && records[k].id == id
    ensures RemoveId(records, id) == records[..k] + records[k + 1..]
    ensures |RemoveId(records, id)| == |records| - 1
  {
    FilterDropsOne(records, NotId(id), k);
  }

  /** Removing an id absent from the store changes nothing. */
  lemma RemoveAbsentId(records: seq<Earthquake>, id: nat)
    requires forall e :: e in records ==> e.id != id
    ensures RemoveId(records, id) == records
  {
    FilterAllPass(records, NotId(id));
  }

  /** What the store keeps true: every record passed validation, ids are distinct and below `nextId`, and identifiers are unique. */
  ghost predicate StoreInvariant(records: seq<Earthquake>, nextId: nat) {
    (forall i :: 0 <= i < |records| ==> ValidRecord(records[i]) && records[i].id < nextId)
    && IdsDistinct(records) && EventIdsUnique(records)
  }

  /** Appending a valid record with the next id and an identifier the store does not hold keeps the invariant. */
  lemma InsertKeepsInvariant(records: seq<Earthquake>, nextId: nat, rec: Earthquake)
    requires StoreInvariant(records, nextId)
    requires ValidRecord(rec) && rec.id == nextId && rec.eventId.Some? && !HoldsEventId(records, rec.eventId.value)
    ensures StoreInvariant(records + [rec], nextId + 1)
  {
    var r := records + [rec];
    forall i, j | 0 <= i < j < |r| && r[i].eventId.Some? ensures r[i].eventId != r[j].eventId {
      if j == |records| {
        assert r[i] in records;
      }
    }
  }

  /** Removing a record keeps the invariant. */
  lemma RemoveKeepsInvariant(records: seq<Earthquake>, nextId: nat, k: nat)
    requires StoreInvariant(records, nextId) && k < |records|
    ensures StoreInvariant(records[..k] + records[k + 1..], nextId)
  {
    var r := records[..k] + records[k + 1..];
    assert forall i :: 0 <= i < |r| ==> r[i] == records[if i < k then i else i + 1];
  }

  /** Removing a stored id keeps the invariant. */
  lemma RemoveIdKeepsInvariant(records: seq<Earthquake>, nextId: nat, id: nat, k: nat)
    requires StoreInvariant(records, nextId) && k < |records| && records[k].id == id
    ensures StoreInvariant(RemoveId(records, id), nextId)
  {
    RemoveIdExact(records, id, k);
    RemoveKeepsInvariant(records, nextId, k);
  }

  /**
    The outcome of `saveEarthquake` on a prepared submission: a duplicate
    identifier is refused before validation runs, a document that fails
    validation is refused with the failing paths, and otherwise the record to
    insert is the validated document under the next id, carrying the trimmed
    identifier.
  */
  function Admit(records: seq<Earthquake>, nextId: nat, p: Submission, now: int): (r: Result<Earthquake, SaveError>)
    ensures var key := Trim(p.eventId.GetOr(""));
      && (HoldsEventId(records, key) ==> r == Err(Duplicate(DuplicateCode, DuplicateMessage)))
      && (!HoldsEventId(records, key) && Violations(Cast(p), now) != {} ==> r == Err(Invalid(Violations(Cast(p), now))))
      && (!HoldsEventId(records, key) && Violations(Cast(p), now) == {} ==> r == Ok(ToRecord(Cast(p), nextId, now)))
    ensures r.Ok? ==> ValidRecord(r.value) && r.value.id == nextId && r.value.date <= now
    ensures r.Ok? ==> r.value.eventId == TrimOpt(p.eventId)
  {
    if HoldsEventId(records, Trim(p.eventId.GetOr(""))) then Err(Duplicate(DuplicateCode, DuplicateMessage))
    else if Violations(Cast(p), now) != {} then Err(Invalid(Violations(Cast(p), now)))
    else Ok(ToRecord(Cast(p), nextId, now))
  }

  /** An admitted record keeps the store invariant and makes its identifier held. */
  lemma AdmitKeepsInvariant(records: seq<Earthquake>, nextId: nat, p: Submission, now: int)
    requires StoreInvariant(records, nextId) && p.eventId.Some?
    ensures var a := Admit(records, nextId, p, now);
      a.Ok? ==> StoreInvariant(records + [a.value], nextId + 1) && HoldsEventId(records + [a.value], Trim(p.eventId.value))
  {
    var a := Admit(records, nextId, p, now);
    if a.Ok? {
      InsertKeepsInvariant(records, nextId, a.value);
      assert a.value in records + [a.value];
    }
  }

  /** Once a submission is admitted, admitting it again is refused as a duplicate. */
  lemma AdmitOnce(records: seq<Earthquake>, nextId: nat, p: Submission, now: int)
    requires p.eventId.Some?
    ensures var a := Admit(records, nextId, p, now);
      a.Ok? ==> Admit(records + [a.value], nextId + 1, p, now) == Err(Duplicate(DuplicateCode, DuplicateMessage))
  {
    var a := Admit(records, nextId, p, now);
    if a.Ok? {
      assert a.value in records + [a.value];
    }
  }

  /**
    The first part of `saveEarthquake`, which completes the submitted object
    in place: country, then legacy coordinates, then bare coordinates, then
    the identifier.
  */
  method PrepareSubmission(data: Submission, now: nat, random: real) returns (d: Submission)
    requires 0.0 <= random < 1.0
    ensures d == Prepare(data, now, Suffix(random))
  {
    d := data;
    if !Truthy(d.country) && Truthy(d.location) {
      var c := ExtractCountryFromLocation(d.location.value);
      d := d.(country := Some(c));
    }
    if d.coordinates.Some? && d.coordinates.value.latitude.Some? && d.coordinates.value.longitude.Some? {
      d := d.(coordinates := Some(PointCoordinates(d.coordinates.value.longitude.value, d.coordinates.value.latitude.value)));
    }
    if d.coordinates.None? && d.longitude.Some? && d.latitude.Some? {
      d := d.(coordinates := Some(PointCoordinates(d.longitude.value, d.latitude.value)));
    }
    if !Truthy(d.eventId) {
      d := d.(eventId := Some(LocalId(now, Suffix(random))));
    }
  }

  /**
    `new Earthquake(data).save()` up to the insert: cast the data, validate
    it, run the pre-save hook, and yield the record to store or the paths
    that failed.
  */
  method SaveDocument(d: Submission, id: nat, now: int) returns (r: Result<Earthquake, set<Field>>)
    ensures Violations(Cast(d), now) != {} ==> r == Err(Violations(Cast(d), now))
    ensures Violations(Cast(d), now) == {} ==> r == Ok(ToRecord(Cast(d), id, now))
  {
    var doc := new EarthquakeDocument(Cast(d));
    var v := doc.ValidateAndHook(now);
    if v != {} {
      return Err(v);
    }
    return Ok(ToRecord(doc.Snapshot(), id, now));
  }

  /**
    The part of `saveEarthquake` that decides: the duplicate query on the
    trimmed identifier, then the document save.
  */
  method Admission(records: seq<Earthquake>, nextId: nat, d: Submission, now: int) returns (a: Result<Earthquake, SaveError>)
    requires d.eventId.Some?
    ensures a == Admit(records, nextId, d, now)
  {
    assert d.eventId.GetOr("") == d.eventId.value;
    if HoldsEventId(records, Trim(d.eventId.value)) {
      return Err(Duplicate(DuplicateCode, DuplicateMessage));
    }
    var built := SaveDocument(d, nextId, now);
    if built.Err? {
      return Err(Invalid(built.error));
    }
    return Ok(built.value);
  }

  /** The earthquake collection: stored records in insertion order and the next free id. */
  class EarthquakeStore {
    var records: seq<Earthquake>
    var nextId: nat

    ghost predicate Valid()
      reads this
    {
      StoreInvariant(records, nextId)
    }

    constructor ()
      ensures Valid() && records == [] && nextId == 0
    {
      records, nextId := [], 0;
    }

    /**
      `saveEarthquake(data)`. The duplicate check runs on the prepared
      identifier before validation; nothing changes unless the save succeeds,
      and then exactly one record, carrying that identifier, is added.
    */
    method Save(data: Submission, now: nat, random: real) returns (r: Result<Saved, SaveError>)
      requires Valid() && 0.0 <= random < 1.0
      modifies this
      ensures Valid()
      ensures var a := Admit(old(records), old(nextId), Prepare(data, now, Suffix(random)), now);
        && (a.Err? ==> r == Err(a.error) && records == old(records) && nextId == old(nextId))
        && (a.Ok? ==> r == Ok(Saved(old(nextId), a.value.eventId, SavedMessage))
                      && records == old(records) + [a.value] && nextId == old(nextId) + 1)
    {
      var d := PrepareSubmission(data, now, random);
      var a := Admission(records, nextId, d, now);
      if a.Err? {
        return Err(a.error);
      }
      var rec := a.value;
      AdmitKeepsInvariant(records, nextId, d, now);
      records, nextId := records + [rec], nextId + 1;
      return Ok(Saved(rec.id, rec.eventId, SavedMessage));
    }

    /** `deleteEarthquake(id)`: remove that record, or fail when no record has the id. */
    method Delete(id: nat) returns (r: Result<string, string>)
      requires Valid()
      modifies this
      ensures Valid() && nextId == old(nextId)
      ensures (forall e :: e in old(records) ==> e.id != id) ==>
                r == Err(NotFoundMessage) && records == old(records)
      ensures (exists e :: e in old(records) && e.id == id) ==>
                r == Ok(DeletedMessage(id)) && records == RemoveId(old(records), id)
    {
      if exists e :: e in records && e.id == id {
        var k :| 0 <= k < |records| && records[k].id == id;
        RemoveIdKeepsInvariant(records, nextId, id, k);
        records := RemoveId(records, id);
        return Ok(DeletedMessage(id));
      }
      return Err(NotFoundMessage);
    }
  }

  /** The success message of `deleteEarthquake`. */
  function DeletedMessage(id: nat): string {
    "Registro con id " + NatToString(id) + " eliminado correctamente"
  }

  /** The success message names the deleted id: different ids give different messages. */
  lemma DeletedMessageInjective(a: nat, b: nat)
    requires DeletedMessage(a) == DeletedMessage(b)
    ensures a == b
  {
    var p := "Registro con id ";
    var q := " eliminado correctamente";
    var m := DeletedMessage(a);
    assert |NatToString(a)| == |NatToString(b)|;
    assert NatToString(a) == m[|p|..|m| - |q|];
    assert NatToString(b) == m[|p|..|m| - |q|];
    NatToStringInjective(a, b);
  }

  /**
    Saving the same submission twice under the same clock reading and random
    draw stores it once: the second save is refused as a duplicate, whether
    the identifier was given or synthesised.
  */
  method SaveTwice(data: Submission, now: nat, random: real) returns (first: Result<Saved, SaveError>, second: Result<Saved, SaveError>, stored: nat)
    requires 0.0 <= random < 1.0
    ensures first.Ok? ==> second == Err(Duplicate(DuplicateCode, DuplicateMessage)) && stored == 1
    ensures first.Err? ==> second == first && stored == 0
  {
    var store := new EarthquakeStore();
    ghost var p := Prepare(data, now, Suffix(random));
    PrepareFillsOnlyMissing(data, now, Suffix(random));
    AdmitOnce([], 0, p, now);
    first := store.Save(data, now, random);
    second := store.Save(data, now, random);
    stored := |store.records|;
  }
}
