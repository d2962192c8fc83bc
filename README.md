# Earthquake normalisation and reconciliation, modelled in Dafny

This project models the part of the seismology API that decides things:

- **The earthquake service** (`src/services/earthquakeService.js`):
  - the country resolver `extractCountryFromLocation`;
  - the USGS and EMSC feed adapters;
  - the country post-filter and the `slice(0, limit)` post-processing of each feed;
  - the no-data marker;
  - the case-insensitive source dispatch;
  - the local-store queries and the lookups of one event by identifier;
  - reconciliation on save (country, coordinates, identifier, duplicate check, insert);
  - removal by id.
- **The earthquake schema** (`src/schemas/earthquake.schema.js`):
  - the validators, and the defaults and setters Mongoose applies;
  - the `pre('save')` hook;
  - the `findByCountry` static and the `toProjectFormat` projection.

Modules, one per part of the program:

| module | file | contents |
|---|---|---|
| `Wrappers` | `wrappers.dfy` | `Option`, `Result` |
| `Text` | `text.dfy` | the JavaScript string operations used: `toUpperCase` (ASCII and Latin-1, where ß becomes SS and ÿ and µ map outside Latin-1), `trim`, last `split(',')` segment, `length` in UTF-16 code units, a case-insensitive literal regex test, decimal rendering |
| `Seqs` | `seqs.dfy` | `Array.prototype.filter` and its subsequence facts |
| `CountryResolver` | `country.dfy` | the 15-entry pattern table, the resolver as a function, and the `for…of` search as a method |
| `EarthquakeSchema` | `schema.dfy` | the submitted data, the cast, the validators, the stored record, the document class with its pre-save hook, `findByCountry`, `toProjectFormat` |
| `FeedAdapters` | `adapters.dfy` | `mapUSGSData`, `mapEMSCData` |
| `QueryFacade` | `queries.dfy` | feed post-processing, dispatch, database and history queries, lookups by identifier |
| `Reconciliation` | `store.dfy` | the preparation steps of `saveEarthquake`, and the `EarthquakeStore` class with `Save` and `Delete` |

Inputs the program gets from outside become parameters:

- a provider response is a `Fetched` value: a transport failure, or a body whose `features` may be missing;
- the clock is `now`, in milliseconds;
- `Math.random()` is a real in `[0, 1)`.

A date is a millisecond timestamp. `toISOString().split('T')[0]` is modelled as the UTC day number `ms / 86400000`.

Places where the code is followed:

- The source enum is `USGS | EMSC | DB`, and an omitted source defaults to `DB`.
- `saveEarthquake` performs no upstream lookup.
- The country table is tried in declaration order, and the first entry that matches wins. The table is not mutually exclusive: a text naming both Chile and Peru resolves to CHILE (`ResolveChileFirst`).
- Neither feed sorts events by date. Each returns them in provider order.

Mongoose semantics that are made explicit:

- Casting happens first. It applies the `trim` and `uppercase` setters. A default fills only a property that is absent: an explicit `null` source or Point type stays null and then fails `required` (`NullSourceNotDefaulted`, `NullTypeNotDefaulted`).
- `maxlength` compares the JavaScript `length`, which counts UTF-16 code units: a character outside the Basic Multilingual Plane counts twice.
- Validation runs next, followed by the user `pre('save')` hooks.
- Validation demands a non-empty country. So, on a document that gets past validation, the hook never changes anything (`HookInertAfterValidation`).
- The `findOne({eventId})` duplicate query casts its value with the same `trim` setter. The duplicate check therefore compares the trimmed identifier.

## Model

| member | source | states |
|---|---|---|
| `Text.UpperString` | src/services/earthquakeService.js:282 | `toUpperCase` never shortens the text; on text without ß it keeps the length and upper-cases each character in place |
| `Text.UpperSharpS` | src/services/earthquakeService.js:282 | ß upper-cases to SS, so the upper case can be longer than the text |
| `Text.UpperStringIdempotent` | src/schemas/earthquake.schema.js:41-44 | upper-casing upper-cased text changes nothing |
| `Text.Utf16Length` | src/schemas/earthquake.schema.js:9 | a single character has length 2 outside the Basic Multilingual Plane and 1 inside it; `length` lies between the number of characters and twice that, and equals it when every character is in the Basic Multilingual Plane |
| `Text.Utf16LengthAppend` | src/schemas/earthquake.schema.js:9 | the length of a concatenation is the sum of the lengths, so with the one-character values the length of any text is fixed |
| `Text.Utf16LengthMixed` | src/schemas/earthquake.schema.js:9 | a letter followed by an emoji has length 3 |
| `Text.Utf16LengthAstral` | src/schemas/earthquake.schema.js:9 | a character outside the Basic Multilingual Plane has length 2 |
| `Text.Trim` | src/services/earthquakeService.js:282 | `trim` returns the slice of its input between a run of leading and a run of trailing white space, and that slice neither starts nor ends with white space |
| `Text.LastSegment` | src/services/earthquakeService.js:280-282 | the last `split(',')` part is a comma-free suffix of the text, preceded by a comma when shorter |
| `Text.LastSegmentShorterIffComma` | src/services/earthquakeService.js:280-281 | `parts.length > 1` holds exactly when the text contains a comma |
| `Text.ContainsCI` | src/services/earthquakeService.js:342 | the literal `new RegExp(country, 'i')` test: the pattern starts, ignoring case, at the head of the text or somewhere in its tail |
| `Text.ContainsCIIffOccurs` | src/services/earthquakeService.js:302 | the case-insensitive test succeeds exactly when the pattern occurs at some position, ignoring case |
| `Text.NatToStringInjective` | src/services/earthquakeService.js:405 | distinct numbers render as distinct decimal text |
| `Seqs.Filter` | src/services/earthquakeService.js:343-345 | `filter` keeps only elements that pass, keeps every element that passes, and never grows |
| `Seqs.FilterSelects` | src/services/earthquakeService.js:341-346 | `filter` yields an order-preserving subsequence picked at exactly the passing positions |
| `CountryResolver.FirstMatch` | src/services/earthquakeService.js:301-305 | the index found is the first table entry whose pattern matches; none is found only when no entry matches |
| `CountryResolver.TableToken` | src/services/earthquakeService.js:301-305 | the token found is that of the first matching entry; none is found only when no entry matches |
| `CountryResolver.Resolve` | src/services/earthquakeService.js:276-333 | the result is UNKNOWN (always for empty text), a token of the table, or, only with a comma, the trimmed upper-cased last segment |
| `CountryResolver.ResolveWithComma` | src/services/earthquakeService.js:280-307 | with a comma: the token of the first entry matching the trimmed, upper-cased last segment, else that segment |
| `CountryResolver.ResolveWithoutComma` | src/services/earthquakeService.js:310-332 | without a comma, empty text included: the token of the first entry matching the whole text, else exactly UNKNOWN |
| `CountryResolver.ResolveIsUpperCase` | src/services/earthquakeService.js:276-333 | the resolved country is always an upper-case token |
| `CountryResolver.PlainUpper` | src/services/earthquakeService.js:276-333 | without a comma, the resolved country (a table token or UNKNOWN) is upper case |
| `CountryResolver.ResolveChileFirst` | src/services/earthquakeService.js:327-331 | entries are tried in order, so comma-free text mentioning Chile is CHILE whatever else it mentions |
| `CountryResolver.ResolveExampleChile` | src/services/earthquakeService.js:280-303 | any location ending in ", Chile" resolves to CHILE |
| `CountryResolver.ResolveExampleUnlisted` | src/services/earthquakeService.js:280-307 | a location ending in ", Foo" resolves to FOO, the segment itself |
| `CountryResolver.SearchTable` | src/services/earthquakeService.js:327-331 | the `for…of` loop returns the token of the first matching entry, or nothing |
| `CountryResolver.ScanTable` | src/services/earthquakeService.js:327-331 | the loop over any table stops at the index of the first matching entry, or finds none |
| `CountryResolver.ExtractCountryFromLocation` | src/services/earthquakeService.js:276-333 | the method returns what the resolver function specifies |
| `EarthquakeSchema.ParseSource` | src/schemas/earthquake.schema.js:48-56 | the source enum accepts exactly USGS, EMSC and DB |
| `EarthquakeSchema.SourceNameRoundTrip` | src/schemas/earthquake.schema.js:50-53 | every source name parses back to its source |
| `EarthquakeSchema.ParseAlert` | src/schemas/earthquake.schema.js:100-104 | the alert enum accepts exactly green, yellow, orange and red |
| `EarthquakeSchema.AlertNameRoundTrip` | src/schemas/earthquake.schema.js:102 | every alert name parses back to its alert |
| `EarthquakeSchema.DayOf` | src/schemas/earthquake.schema.js:180 | the day cut from a timestamp is the UTC day that contains it |
| `EarthquakeSchema.Cast` | src/schemas/earthquake.schema.js:5-111 | location, title, eventId and region are trimmed; country is trimmed and upper-cased; an absent source becomes DB and an absent Point type "Point", while an explicit null stays null; numbers, date, alert and significance pass through |
| `EarthquakeSchema.NullSourceNotDefaulted` | src/schemas/earthquake.schema.js:48-56 | a null source fails `required`; an absent one is defaulted and passes its validator |
| `EarthquakeSchema.NullTypeNotDefaulted` | src/schemas/earthquake.schema.js:67-72 | a null Point type fails `required`; an absent one is defaulted to "Point" and passes |
| `EarthquakeSchema.Violations` | src/schemas/earthquake.schema.js:5-111 | a path is reported exactly when its validator rejects the document; length limits count UTF-16 code units |
| `EarthquakeSchema.NoViolationsIffAccepted` | src/schemas/earthquake.schema.js:5-111 | no path is reported iff every rule holds: location 1..500 UTF-16 code units, magnitude in [0,10], depth in [0,1000], date not in the future, country 1..100 code units, source enum, title at most 300 code units, type "Point", coordinates `[lon in [-180,180], lat in [-90,90]]`, alert enum or null, significance in [0,1000] when present |
| `EarthquakeSchema.ValidRecord` | src/schemas/earthquake.schema.js:3-112 | what the validators guarantee of a stored record: location of 1..500 and country of 1..100 UTF-16 code units, magnitude and depth in range, title at most 300 units, a Point with a valid coordinate pair, significance in range |
| `EarthquakeSchema.ToRecord` | src/schemas/earthquake.schema.js:5-111 | a document without violations becomes a valid record dated no later than the clock |
| `EarthquakeSchema.ValidRecordPasses` | src/schemas/earthquake.schema.js:5-111 | every valid record not dated in the future passes validation and round-trips through its document |
| `EarthquakeSchema.AcceptedIsRecord` | src/schemas/earthquake.schema.js:5-111 | every accepted document is the document of the record it becomes |
| `EarthquakeSchema.EarthquakeDocument.PreSave` | src/schemas/earthquake.schema.js:145-154 | with a falsy country and a location containing a comma, country becomes the trimmed, upper-cased last segment; otherwise it is unchanged |
| `EarthquakeSchema.EarthquakeDocument.ValidateAndHook` | src/schemas/earthquake.schema.js:145-154 | `save()` reports the document's violations, runs the hook only when there are none, and leaves the document as it was |
| `EarthquakeSchema.HookInertAfterValidation` | src/schemas/earthquake.schema.js:145-154 | on a document that passed validation the hook's guard is false |
| `EarthquakeSchema.InsertByDate` | src/schemas/earthquake.schema.js:161 | inserting into a date-descending list keeps it date-descending and adds exactly that record |
| `EarthquakeSchema.SortByDateDesc` | src/schemas/earthquake.schema.js:161 | `sort({date: -1})` is date-descending and a permutation of its input |
| `EarthquakeSchema.MongoLimit` | src/schemas/earthquake.schema.js:162 | `limit(n)` is a prefix: all of it when n is 0 or the list is short, otherwise exactly abs(n) records |
| `EarthquakeSchema.CountryMatches` | src/schemas/earthquake.schema.js:159 | the `{country: new RegExp(country, 'i')}` query: the record's stored country contains the text, ignoring case |
| `EarthquakeSchema.Matching` | src/schemas/earthquake.schema.js:158-160 | the query selects exactly the stored records whose country contains the text, ignoring case |
| `EarthquakeSchema.FindByCountry` | src/schemas/earthquake.schema.js:157-163 | `findByCountry` returns only stored matching records, never more than match |
| `EarthquakeSchema.FindByCountryShape` | src/schemas/earthquake.schema.js:157-163 | newest first, a sub-multiset of the matches; every match left out is no newer than any record returned; with limit 0, or no more matches than the limit, every match exactly as often as stored; otherwise exactly abs(limit) records |
| `EarthquakeSchema.FindByCountryNewest` | src/schemas/earthquake.schema.js:157-163 | a matching record that a non-zero limit leaves out is no newer than any record returned |
| `EarthquakeSchema.LimitKeepsNewest` | src/schemas/earthquake.schema.js:160-161 | `sort({date: -1}).limit(n)` keeps a sub-multiset of its input, and every record it leaves out is no newer than any record kept |
| `EarthquakeSchema.ToProjectFormat` | src/schemas/earthquake.schema.js:175-184 | the projection keeps magnitude, depth, location, country and source and cuts the date to its UTC day |
| `FeedAdapters.NumOrNull` | src/services/earthquakeService.js:234 | the `sig`-or-null fallback is present exactly when the number is present and not zero |
| `FeedAdapters.DayOrNull` | src/services/earthquakeService.js:226 | the day is present exactly for a non-zero time and is the UTC day containing it |
| `FeedAdapters.MapUsgsFeature` | src/services/earthquakeService.js:212-235 | source USGS; two coordinates, each the geometry component or null; eventId is id, else code, else null; magnitude defaults to 0; depth is the third component or 0; location and country from the place, else the placeholder and UNKNOWN; url, title and alert when truthy, else null; day and significance as above |
| `FeedAdapters.EmscDepth` | src/services/earthquakeService.js:258 | EMSC depth is `props.depth`, else the third coordinate, else 0 |
| `FeedAdapters.MapEmscFeature` | src/services/earthquakeService.js:245-267 | source EMSC; two coordinates, with missing geometry giving nulls; eventId is id, else unid, else null; location is the Flinn-Engdahl region, else the description, else the placeholder; country resolved from it; day as for USGS; url, title, alert and significance null |
| `FeedAdapters.MapUSGSData` | src/services/earthquakeService.js:211-237 | one event per feature, same length, same order |
| `FeedAdapters.MapEMSCData` | src/services/earthquakeService.js:244-269 | one event per feature, same length, same order |
| `FeedAdapters.MappedEventsWellFormed` | src/services/earthquakeService.js:211-269 | every mapped event has its provider tag, two coordinates and an absent or non-empty identifier; its country is the resolution of its location unless that is the placeholder |
| `FeedAdapters.MapUsgsAppend` | src/services/earthquakeService.js:211-237 | mapping a concatenation maps each part in order |
| `FeedAdapters.MapEmscAppend` | src/services/earthquakeService.js:244-269 | mapping a concatenation maps each part in order |
| `QueryFacade.CreateNoDataResponse` | src/services/earthquakeService.js:354-360 | the marker carries the fixed message, the given error, and the filter, or ALL when it is falsy |
| `QueryFacade.FilterByCountry` | src/services/earthquakeService.js:341-346 | `filterByCountry` keeps exactly the events whose country or location contains the filter, ignoring case, and never grows |
| `QueryFacade.FilterByCountrySubsequence` | src/services/earthquakeService.js:341-346 | `filterByCountry` keeps an order-preserving subsequence: exactly the events whose country or location contains the filter, ignoring case |
| `QueryFacade.Slice` | src/services/earthquakeService.js:124 | `slice(0, limit)` is a prefix of length min(limit, n), or n + limit for a negative limit, floored at 0 |
| `QueryFacade.Passing` | src/services/earthquakeService.js:121-123 | exactly the mapped events that pass the filter, all of them when no country is given |
| `QueryFacade.FeedEvents` | src/services/earthquakeService.js:120-124 | the kept events are a prefix of the passing ones, at most `limit` of them for a non-negative limit |
| `QueryFacade.FeedOutcome` | src/services/earthquakeService.js:115-130 | the marker exactly when the transport failed, no features arrived or nothing is kept, with the connection error exactly after a failure; otherwise the kept events |
| `QueryFacade.MappedUsgs` | src/services/earthquakeService.js:115-120 | a body with features yields its USGS mapping; a failure or a body without features yields none |
| `QueryFacade.MappedEmsc` | src/services/earthquakeService.js:156-162 | a body with features yields its EMSC mapping; a failure or a body without features yields none |
| `QueryFacade.UsgsOutcome` | src/services/earthquakeService.js:101-131 | `getFromUSGS` returns a non-empty list of USGS events, or the marker, which carries the USGS connection error exactly on transport failure |
| `QueryFacade.EmscOutcome` | src/services/earthquakeService.js:139-176 | `getFromEMSC` returns a non-empty list of EMSC events, or the marker, which carries the EMSC connection error exactly on transport failure |
| `QueryFacade.FeedOutcomeShape` | src/services/earthquakeService.js:115-130 | listed events are received events passing the filter, non-empty and at most `limit` for a non-negative limit; the marker's error is set exactly on transport failure |
| `QueryFacade.FeedReturnsFirstMatches` | src/services/earthquakeService.js:120-125 | with a positive limit on a received body, the feed returns the first min(limit, n) passing events in provider order, and the marker exactly when none passes |
| `QueryFacade.GetFromUSGS` | src/services/earthquakeService.js:101-131 | the method's result is the USGS feed outcome specified for that response |
| `QueryFacade.GetFromEMSC` | src/services/earthquakeService.js:139-176 | the method's result is the EMSC feed outcome specified for that response |
| `QueryFacade.QueryTargets` | src/services/earthquakeService.js:186-190 | the query selects the stored records matching the country, or all of them when none is given |
| `QueryFacade.StoreQuery` | src/services/earthquakeService.js:192-194 | the records found are selected ones, never more than are selected |
| `QueryFacade.ProjectRows` | src/services/earthquakeService.js:198 | one projected row per record, in order |
| `QueryFacade.GetFromDatabase` | src/services/earthquakeService.js:184-204 | the marker exactly when the query finds nothing, otherwise the projected rows of the query |
| `QueryFacade.DatabaseRowsShape` | src/services/earthquakeService.js:186-197 | with or without a country: newest first, a sub-multiset of the selected records, every selected record left out no newer than any record found; with limit 0, or no more selected records than the limit, every selected record; otherwise exactly abs(limit); nothing is found (the marker) exactly when no stored record is selected |
| `QueryFacade.InvalidSource` | src/services/earthquakeService.js:87 | the dispatch error ends with the source name as given |
| `QueryFacade.EarthquakeData` | src/services/earthquakeService.js:77-93 | USGS, EMSC and DB in any case reach `getFromUSGS`, `getFromEMSC` and `getFromDatabase` with the given limit, or 10 when it is omitted; any other name fails with the error naming the source; rows come only from DB, and listed events carry the source asked for |
| `QueryFacade.DispatchIgnoresCase` | src/services/earthquakeService.js:77-93 | source names equal up to case dispatch alike; any other name fails with "Fuente no válida: " and the name |
| `QueryFacade.DispatchAccepts` | src/services/earthquakeService.js:79-88 | the dispatch succeeds exactly for USGS, EMSC and DB in any case |
| `QueryFacade.GetEarthquakeData` | src/services/earthquakeService.js:77-93 | the method's result is the dispatch specified, with limit 10 when it is omitted |
| `QueryFacade.HistoryRowOf` | src/services/earthquakeService.js:445-452 | a history row keeps id, magnitude, depth, location and source and cuts the date to its day |
| `QueryFacade.HistoryByCountry` | src/services/earthquakeService.js:431-459 | upper-cased country; one row per `findByCountry` record (limit 50 by default); the message appears exactly when there are no rows |
| `QueryFacade.HistoryOfEmptyStore` | src/services/earthquakeService.js:435-441 | against an empty store the history is the upper-cased country, the message and no rows |
| `QueryFacade.HistoryNewestFirst` | src/services/earthquakeService.js:433-453 | history rows come newest day first |
| `QueryFacade.FindByEventId` | src/services/earthquakeService.js:50 | `find` returns a listed event carrying the identifier; it returns nothing exactly when no event carries it |
| `QueryFacade.FindByEventIdFirst` | src/services/earthquakeService.js:50 | the event `find` returns is the first one carrying the identifier |
| `QueryFacade.FindInOutcome` | src/services/earthquakeService.js:28-31 | only a list is searched; what is found is an event of the list carrying the identifier, and nothing means no listed event carries it |
| `QueryFacade.UsgsEventById` | src/services/earthquakeService.js:10-37 | a failed direct query gives null; a direct answer with features gives its first mapped feature; anything found is a USGS event |
| `QueryFacade.EmscEventById` | src/services/earthquakeService.js:44-58 | a transport failure gives null; anything found is an EMSC event carrying the identifier |
| `QueryFacade.EmscLookupSound` | src/services/earthquakeService.js:44-58 | an EMSC lookup finds an event with that identifier among the first 100 mapped features, and finds nothing only when none of them has it |
| `QueryFacade.UsgsFallbackSound` | src/services/earthquakeService.js:26-31 | when the direct USGS answer is empty, what is found carries the identifier and is among the first 100 mapped recent features; nothing is found only when none of those carries it |
| `QueryFacade.GetUSGSEventById` | src/services/earthquakeService.js:10-37 | the method's result is the specified lookup: the direct answer, then the recent list |
| `QueryFacade.GetEMSCEventById` | src/services/earthquakeService.js:44-58 | the method's result is the specified lookup in the recent list |
| `Reconciliation.FillCountry` | src/services/earthquakeService.js:381-383 | the country is resolved from the location only when it is falsy and the location is not |
| `Reconciliation.LegacyToPoint` | src/services/earthquakeService.js:385-395 | a `{latitude, longitude}` object becomes the Point `[longitude, latitude]`; anything else is kept |
| `Reconciliation.BareToPoint` | src/services/earthquakeService.js:397-402 | bare longitude and latitude are used only when there are no coordinates |
| `Reconciliation.Suffix` | src/services/earthquakeService.js:405 | `Math.floor(Math.random()*10000)` is below 10000 and is the floor of the scaled draw |
| `Reconciliation.LocalId` | src/services/earthquakeService.js:405 | a synthesised identifier starts with `LOCAL-` and continues with digits and dashes only |
| `Reconciliation.AssignEventId` | src/services/earthquakeService.js:404-406 | a `LOCAL-<now>-<suffix>` identifier is put in only when none is given |
| `Reconciliation.Prepare` | src/services/earthquakeService.js:380-406 | the prepared submission always has an identifier and differs from the input at most in country, coordinates and identifier |
| `Reconciliation.PrepareFillsOnlyMissing` | src/services/earthquakeService.js:381-406 | country and identifier are filled only when missing, a given identifier is kept, one is always present afterwards, and the other fields are untouched |
| `Reconciliation.PrepareNormalisesCoordinates` | src/services/earthquakeService.js:385-402 | legacy pair to Point, bare fields only without coordinates, any other coordinates object unchanged |
| `Reconciliation.PrepareIdempotent` | src/services/earthquakeService.js:381-406 | preparing prepared data changes nothing |
| `Reconciliation.LegacyPairExample` | src/services/earthquakeService.js:385-395 | latitude -33.4 and longitude -70.6 are stored as `[-70.6, -33.4]` |
| `Reconciliation.LocalIdInjective` | src/services/earthquakeService.js:405 | distinct clock readings or suffixes give distinct synthesised identifiers |
| `Reconciliation.RemoveId` | src/services/earthquakeService.js:468 | `findByIdAndDelete` keeps exactly the records with another id, and never grows |
| `Reconciliation.RemoveIdExact` | src/services/earthquakeService.js:468 | with distinct ids, removal takes out exactly the record at its position and keeps the rest in order |
| `Reconciliation.RemoveAbsentId` | src/services/earthquakeService.js:468-472 | removing an id no record has leaves the records unchanged |
| `Reconciliation.InsertKeepsInvariant` | src/schemas/earthquake.schema.js:86-91 | appending a valid record with the next id and an identifier not yet held keeps ids distinct and identifiers unique |
| `Reconciliation.RemoveKeepsInvariant` | src/services/earthquakeService.js:468 | removing a record keeps the store invariant |
| `Reconciliation.RemoveIdKeepsInvariant` | src/services/earthquakeService.js:468 | removing a stored id keeps the store invariant |
| `Reconciliation.Admit` | src/services/earthquakeService.js:407-418 | a held identifier is refused with code 11000 before validation; otherwise failing paths are refused; otherwise the validated record under the next id, carrying the trimmed identifier |
| `Reconciliation.AdmitKeepsInvariant` | src/schemas/earthquake.schema.js:86-91 | an admitted record keeps the store invariant, including sparse-unique identifiers, and its identifier becomes held |
| `Reconciliation.AdmitOnce` | src/services/earthquakeService.js:407-411 | once a submission is admitted, admitting it again is refused as a duplicate |
| `Reconciliation.PrepareSubmission` | src/services/earthquakeService.js:380-406 | the in-place completion of the submitted object yields the specified prepared submission |
| `Reconciliation.Admission` | src/services/earthquakeService.js:407-418 | the duplicate query followed by the document save decides as Admit specifies |
| `Reconciliation.SaveDocument` | src/services/earthquakeService.js:412-413 | `new Earthquake(data).save()` yields the violations, or the record built from the cast document |
| `Reconciliation.EarthquakeStore.Save` | src/services/earthquakeService.js:378-423 | the store invariant is kept; a refused save changes nothing; an accepted one appends exactly the admitted record, advances the id and answers its id, identifier and message |
| `Reconciliation.DeletedMessage` | src/services/earthquakeService.js:475 | the success message of a delete, built around the decimal id |
| `Reconciliation.DeletedMessageInjective` | src/services/earthquakeService.js:475 | different ids give different success messages |
| `Reconciliation.EarthquakeStore.Delete` | src/services/earthquakeService.js:466-482 | an absent id fails with "Terremoto no encontrado" and changes nothing; otherwise exactly that record is removed |
| `Reconciliation.SaveTwice` | src/services/earthquakeService.js:404-411 | saving the same data twice under the same clock and draw stores it once, and the second save is the duplicate error |

## Left out

- SortByDateDesc: Mongo leaves the order of records with the same date unspecified. The model keeps their store order, and no contract depends on it. When a limit cuts through a group of equal dates, the records the source returns may differ from the model's.
- EarthquakeStore.Delete: ids are natural numbers, so the path where `findByIdAndDelete` receives a malformed id is not modelled. On that path Mongoose throws a cast error instead of answering "Terremoto no encontrado".
- HTTP calls, the 10-second timeouts and console logging: a response is an input value.
- The Mongo driver, connection and `_id` generation: the store is a sequence of records with a counter for ids. The text form of an ObjectId in the delete message is the decimal id here.
- Storage failures are not modelled. On such a failure `getFromDatabase` throws "Error interno del servidor" and save or delete rethrow.
- `createdAt`/`updatedAt` timestamps, and the `toJSON` transform.
- `getDateDaysAgo` and the 30-day `starttime` parameter: they only shape the upstream request.
- The clock and `Math.random` are not read: they are parameters.
- Concurrency, including the race between two saves that check the same identifier.
- General regular expressions: the filter text and the table patterns are treated as literals without metacharacters.
- UpperString: case mapping is modelled for ASCII and Latin-1 only (including ß to SS, ÿ to Ÿ and µ to Μ); characters of other scripts are left unchanged, although `toUpperCase` maps many of them.
- ContainsCI: the `i` flag compares characters one by one under the single-character upper case, so ß matches only ß; case folding of other scripts is left out as for UpperString.
- `toISOString` throws on a timestamp outside its range; that error is not modelled.
- Mongoose casts strings to numbers on submitted data; that casting is not modelled. Numbers and dates arrive typed, and submitted coordinate arrays hold numbers, so a JSON null among them is not modelled.
- A `null` limit is not modelled; limits are integers.
- `findByMagnitudeRange` and the weather feature are not part of this model.
- MappedEventsWellFormed: the country-equals-resolution clause excludes events whose location is the placeholder text. Such an event may also come from a provider that reports that very text.
- EarthquakeStore.Save: the duplicate check compares the trimmed identifier. This assumes Mongoose applies the `trim` setter when casting the `findOne` query.
