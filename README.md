# RubyRide trip manager, modelled in Dafny

This project models the scheduling core of the RubyRide trip manager, a
Spring service that coordinates passenger transportation. Riders request
trips; dispatchers and drivers work in shifts; each shift carries an
ordered timeline of events (SHIFT_START, pickups, dropoffs, the driver's
progress, SHIFT_END). The model covers:

- the timeline itself (`Timeline`): the event comparator, the stable
  sort, the field-by-field merge and the anchored upsert
  `addOrUpdateEvent`, as pure specification functions and as methods
  with loops proved equal to them;
- the trip lifecycle (`TripApi`, `TripRules`): assignment to a shift,
  unassignment, cancellation, deletion, the five progress steps, updates,
  requests, the "active trip" heuristic and the trip queries;
- the shift endpoints (`ShiftApi`), the archiving job (`AdminUtils`), the
  analytics counts and the occupancy CSV (`AnalyticsApi`,
  `AnalyticsUtils`), date ranges (`Dates`);
- groups (`GroupApi`), data blobs and their reference lists
  (`DataRepositoryUtils`), places (`PlaceApi`, `MapService`), partner
  transportation requests (`PartnerRequestApi`), users (`UserApi`,
  `UserUtils`), password resets (`ResetPasswordApi`, with `Base64` and
  `Utf8` for the emailed user name);
- security: the access-control predicates (`AccessControl`), the
  per-user token set (`Tokens.UserTokens`, a class), the WebSocket
  handshake query parser (`HandshakeInterceptor`) and the outgoing
  message rule (`HandlerDecorator`).

The Spring Data repositories (Mongo for users, places, groups, blobs,
partners and the archives; Redis for live trips and shifts) are the
map fields of one class,
`Store.Repositories`; every endpoint that saves is a method that modifies
those fields and states the new maps in terms of pure functions of the
old ones, and the lemmas are about those functions. Records are
datatypes whose nullable fields are `Option`s (`Model`); Java exceptions
are the `Error` cases of a `Result` (`Common`), raised in the order the
Java evaluates them: `findById(null)` is `IllegalArgument`, a null
dereference `NullPointer`. The single-result queries
`findByFacilitiesContains` (in `AccessControl.PartnerOfFacility`) and
`findByUserName` (in `ResetPasswordApi.RequestPasswordReset`) fail with
`IncorrectResultSize` when several documents match. Instants are integers of
nanoseconds; `now`, fresh UUIDs, the password encoder, the geocoder and
the caller's identity are parameters.

An event moved after a timed anchor is stamped 1000 ns (one microsecond)
after the anchor's time, as `plusNanos(1_000L)` at
src/main/java/com/rubyride/tripmanager/utility/SchedulingUtils.java:81
does (`Timeline.Stamped`).

## Model

| member | source | states |
|---|---|---|
| AccessControl.UserAccessCorrect | src/main/java/com/rubyride/tripmanager/security/AccessControl.java:39-65 | a null user id throws UserIdMissingException; otherwise read is granted to the user itself and to ADMIN, DISPATCHER or DRIVER, write only to the user itself or ADMIN, and write implies read |
| AccessControl.TripAndShiftAccessCorrect | src/main/java/com/rubyride/tripmanager/security/AccessControl.java:84-104 | staff see every trip and shift; otherwise a missing trip is refused and a trip is granted exactly to its rider or its shift's driver, a shift exactly to its driver; an anonymous caller is granted an unknown shift (empty equals empty) |
| AccessControl.LocationAccessCorrect | src/main/java/com/rubyride/tripmanager/security/AccessControl.java:111-125 | staff and the driver itself see a driver's location; a rider sees it exactly when the rider's active trip is on that driver's shift; a null driver id throws |
| AccessControl.PartnerOfFacility | src/main/java/com/rubyride/tripmanager/repository/mongo/PartnerRepository.java:14 | the single-result query: IncorrectResultSize exactly when two partners list the facility, none exactly when no partner lists it, otherwise the one partner that lists it |
| AccessControl.PartnerAccessCorrect | src/main/java/com/rubyride/tripmanager/security/AccessControl.java:127-233 | callers that are neither staff nor partner staff are refused every partner check; a granted non-staff caller's partner is the one named or the one listing the request's facility; write-partner implies read-partner; update-request implies create-trip-from-request; with two partners listing the request's facility, the partner-staff read and create checks throw IncorrectResultSize |
| AccessControl.AdminPasses | src/main/java/com/rubyride/tripmanager/security/AccessControl.java:51-252 | an ADMIN passes every access predicate, including the data, group and scheduling-exception ones |
| AdminUtils.KeptMovedPartition | src/main/java/com/rubyride/tripmanager/utility/AdminUtils.java:85-99 | every entry is kept or moved, never both, and none is lost or altered |
| AdminUtils.VisitStep | src/main/java/com/rubyride/tripmanager/utility/AdminUtils.java:87-98 | visiting one more entry moves it exactly when it is due |
| AdminUtils.PassEnds | src/main/java/com/rubyride/tripmanager/utility/AdminUtils.java:85-99 | before the pass nothing has moved; after it the live map is the kept part and the archive gains the moved part |
| AdminUtils.ArchiveShifts | src/main/java/com/rubyride/tripmanager/utility/AdminUtils.java:86-91 | after the loop the live shifts are exactly those whose end (a null end read as now) is after the given time, unchanged, and the shift archive gains exactly the others, unchanged, each saved before it is deleted |
| AdminUtils.ArchiveTrips | src/main/java/com/rubyride/tripmanager/utility/AdminUtils.java:93-98 | after the loop the live trips are exactly those whose primary time is after the given time, unchanged, and the trip archive gains exactly the others, unchanged |
| AdminUtils.ArchiveShiftsAndTrips | src/main/java/com/rubyride/tripmanager/utility/AdminUtils.java:85-99 | shifts and then trips are archived, each as a partition of the old live map |
| AdminUtils.ArchiveIdempotent | src/main/java/com/rubyride/tripmanager/utility/AdminUtils.java:85-99 | archiving at the same time twice moves nothing the second time |
| AdminUtils.ArchiveMonotone | src/main/java/com/rubyride/tripmanager/utility/AdminUtils.java:85-99 | a later archiving time moves at least the shifts and trips an earlier one does |
| Dates.Ordered | src/main/java/com/rubyride/tripmanager/utility/DateUtils.java:12-25 | the two dates come back ascending and are the two given |
| Dates.MinMaxDates | src/main/java/com/rubyride/tripmanager/utility/DateUtils.java:12-25 | a null from is LocalDate.MIN, a null to LocalDate.MAX, and the pair is ordered |
| Dates.MinMaxInstants | src/main/java/com/rubyride/tripmanager/utility/DateUtils.java:27-40 | a null from is OffsetDateTime.MIN, a null to OffsetDateTime.MAX, and the pair is ordered |
| Dates.OrderedSymmetric | src/main/java/com/rubyride/tripmanager/utility/DateUtils.java:12-25 | ordering ignores which end came first; ordered ends are returned as given |
| Dates.MinMaxDefaults | src/main/java/com/rubyride/tripmanager/utility/DateUtils.java:12-40 | an unset end takes the extreme value and leaves an in-range other end where it is |
| Dates.MinMaxSwap | src/main/java/com/rubyride/tripmanager/utility/DateUtils.java:12-40 | swapping the two ends gives the same range |
| HandlerDecorator.Forwarded | src/main/java/com/rubyride/tripmanager/config/CustomWebSocketHandlerDecorator.java:16-30 | only text messages change; a text payload that does not end in NUL and is not a lone newline gets one NUL appended; others pass unchanged |
| HandlerDecorator.ForwardedIdempotent | src/main/java/com/rubyride/tripmanager/config/CustomWebSocketHandlerDecorator.java:16-30 | a forwarded message passes a second decorator unchanged |
| AnalyticsApi.AnalyticsTripsCorrect | src/main/java/com/rubyride/tripmanager/api/AnalyticsApiImpl.java:42-72 | without a zone: exactly the live and archived trips dated in [from, to); with an unknown zone: nothing; with a known zone: each trip touching the zone once, dated in the zone's offset; fails exactly when a zone candidate exists and the zone's offset is null or outside ±18 hours |
| AnalyticsApi.StatusCountsPartition | src/main/java/com/rubyride/tripmanager/api/AnalyticsApiImpl.java:75-77 | the per-status counts of trips that all have a status add up to the number of trips |
| AnalyticsApi.AggregatedCountsCorrect | src/main/java/com/rubyride/tripmanager/api/AnalyticsApiImpl.java:74-89 | fails with a NullPointerException exactly when a trip has no status; otherwise the five groups plus NEEDS_ASSIGNMENT trips add up to all trips, en-route and complete are their statuses' counts |
| AnalyticsApi.DayCountsCorrect | src/main/java/com/rubyride/tripmanager/api/AnalyticsApiImpl.java:95-97 | a date is a key exactly when some trip falls on it, and its count is the number of such trips |
| AnalyticsApi.TripCountsByDayCorrect | src/main/java/com/rubyride/tripmanager/api/AnalyticsApiImpl.java:91-98 | succeeds exactly when the trip query does; each reported date counts the queried trips of the requested schedule type dated that day |
| AnalyticsUtils.FirstPeriodFrom | src/main/java/com/rubyride/tripmanager/utility/AnalyticsUtils.java:31-36 | the first loop stops at the first pair where someone is on board, or at the last pair |
| AnalyticsUtils.LaterRows | src/main/java/com/rubyride/tripmanager/utility/AnalyticsUtils.java:45-58 | one row per remaining pair of completed events, with the running passenger count deciding the label |
| AnalyticsUtils.PairRows | src/main/java/com/rubyride/tripmanager/utility/AnalyticsUtils.java:26-58 | errors are NullPointerExceptions; the rows tile the timeline from the first boarding to the last completed event: the first row is P1, each row ends where the next begins, a later row is P3 exactly when someone is on board, and all carry the shift's driver |
| AnalyticsUtils.ShiftRows | src/main/java/com/rubyride/tripmanager/utility/AnalyticsUtils.java:17-59 | a shift with a null event list throws; one without completed events adds no rows, one with completed events adds some |
| AnalyticsUtils.RowTexts | src/main/java/com/rubyride/tripmanager/utility/AnalyticsUtils.java:62-125 | one CSV line per row, in order |
| AnalyticsUtils.LinesOfJoin | src/main/java/com/rubyride/tripmanager/utility/AnalyticsUtils.java:62-64 | splitting text joined with newlines gives back the parts when none holds a newline |
| AnalyticsUtils.RowTextHasNoNewline | src/main/java/com/rubyride/tripmanager/utility/AnalyticsUtils.java:123-125 | a row's CSV text is non-empty and single-line |
| AnalyticsUtils.CsvLines | src/main/java/com/rubyride/tripmanager/utility/AnalyticsUtils.java:61-64 | with the header separated from the rows, the report's first line is the header and each later line is one row |
| AnalyticsUtils.CsvAsWrittenMergesHeader | src/main/java/com/rubyride/tripmanager/utility/AnalyticsUtils.java:61-64 | as written, with any row at all, the first line is the header with the first row glued to it |
| AnalyticsUtils.FirstLoop | src/main/java/com/rubyride/tripmanager/utility/AnalyticsUtils.java:26-36 | the loop fails only on a null passenger delta and otherwise stops where FirstPeriodFrom says, holding the on-board count |
| AnalyticsUtils.SecondLoop | src/main/java/com/rubyride/tripmanager/utility/AnalyticsUtils.java:38-58 | the P1 row and the second loop produce exactly PairRows |
| AnalyticsUtils.WalkShift | src/main/java/com/rubyride/tripmanager/utility/AnalyticsUtils.java:18-58 | one shift's walk produces exactly ShiftRows |
| AnalyticsUtils.GetAnalytics | src/main/java/com/rubyride/tripmanager/utility/AnalyticsUtils.java:14-65 | the report is every shift's rows in order as CSV lines under a header line of its own, or the first exception raised (a null driver id throws in toCsv) |
| Base64.Encode | src/main/java/com/rubyride/tripmanager/api/ResetPasswordRequestApiImpl.java:97 | the encoder writes four characters per started group of three bytes |
| Base64.SextetValue | src/main/java/com/rubyride/tripmanager/api/ResetPasswordRequestApiImpl.java:76 | only the 64 alphabet characters have a value, and it maps back to the character; the pad has none |
| Base64.DecodeEncode | src/main/java/com/rubyride/tripmanager/api/ResetPasswordRequestApiImpl.java:76-97 | decoding what the encoder wrote gives the bytes back |
| Base64.EncodeInjective | src/main/java/com/rubyride/tripmanager/api/ResetPasswordRequestApiImpl.java:97 | different byte strings get different encodings |
| Common.WithinTwoHours | src/main/java/com/rubyride/tripmanager/utility/TripUtils.java:86-103 | a whole-hour difference of at most 2 means a gap of less than three hours |
| Common.TruncDiv | src/main/java/com/rubyride/tripmanager/utility/TripUtils.java:96-101 | `ChronoUnit.HOURS.between` counts whole hours, truncating toward zero as Java's integer division does |
| Common.DistinctProperties | src/main/java/com/rubyride/tripmanager/api/AnalyticsApiImpl.java:53-54 | `distinct()` keeps each element once and loses none |
| Common.SortByStable | src/main/java/com/rubyride/tripmanager/utility/SchedulingUtils.java:107-113 | the sort is stable: elements the comparator ranks equal keep their order |
| Common.SortBySorted | src/main/java/com/rubyride/tripmanager/utility/SchedulingUtils.java:107-113 | the sort yields a list ordered by the comparator, and a permutation of the input |
| Common.MinFromIsLeast | src/main/java/com/rubyride/tripmanager/utility/TripUtils.java:105-110 | `Stream.min` returns an element no other element undercuts |
| DataRepositoryUtils.RemoveFirst | src/main/java/com/rubyride/tripmanager/utility/DataRepositoryUtils.java:26 | `List.remove(Object)` drops exactly one occurrence when there is one and otherwise changes nothing |
| DataRepositoryUtils.UnreferencedCounts | src/main/java/com/rubyride/tripmanager/utility/DataRepositoryUtils.java:21-35 | removing a reference drops one occurrence; the blob is deleted exactly when no other reference remained, and otherwise keeps its id, type and data |
| DataRepositoryUtils.RemoveReference | src/main/java/com/rubyride/tripmanager/utility/DataRepositoryUtils.java:21-35 | the blob store after removeReference, a null id changing nothing |
| DataRepositoryUtils.RemoveAllReferences | src/main/java/com/rubyride/tripmanager/utility/DataRepositoryUtils.java:37-51 | a null reference changes nothing; otherwise every blob holding the reference loses one occurrence of it |
| DataRepositoryUtils.AllReferencesDropped | src/main/java/com/rubyride/tripmanager/utility/DataRepositoryUtils.java:37-51 | no blob appears; blobs without the reference are untouched; a blob still holding the reference held it at least twice |
| DataRepositoryUtils.CreateData | src/main/java/com/rubyride/tripmanager/utility/DataRepositoryUtils.java:53-65 | a new blob under the fresh id, with the given fields and exactly the one reference, and that id returned |
| DataRepositoryUtils.AddReference | src/main/java/com/rubyride/tripmanager/utility/DataRepositoryUtils.java:67-78 | the blob store after addReference: a null id throws in findById and saves nothing, an unknown id changes nothing |
| DataRepositoryUtils.AddReferenceIdempotent | src/main/java/com/rubyride/tripmanager/utility/DataRepositoryUtils.java:67-78 | adding a reference twice is adding it once; it is never duplicated |
| DataRepositoryUtils.AddThenRemove | src/main/java/com/rubyride/tripmanager/utility/DataRepositoryUtils.java:21-78 | adding a new reference to a referenced blob and removing it again restores the store |
| GroupApi.IndexOfGroup | src/main/java/com/rubyride/tripmanager/api/GroupApiImpl.java:200-205 | the position of the first group with the id; none when no group has it |
| GroupApi.ExpandVisits | src/main/java/com/rubyride/tripmanager/api/GroupApiImpl.java:70-99 | the only error is a cycle; the visited set grows by exactly the groups of the tree built |
| GroupApi.ExpandHeight | src/main/java/com/rubyride/tripmanager/api/GroupApiImpl.java:70-99 | a tree expanded at a depth has at most maxDepth - depth + 1 levels |
| GroupApi.ExpandAllChildren | src/main/java/com/rubyride/tripmanager/api/GroupApiImpl.java:94-98 | within the depth cut every child is expanded, in order |
| GroupApi.ExpandAllBeyondCut | src/main/java/com/rubyride/tripmanager/api/GroupApiImpl.java:70-99 | beyond the depth cut nothing is expanded or visited |
| GroupApi.ExpandAllMeetsVisited | src/main/java/com/rubyride/tripmanager/api/GroupApiImpl.java:70-99 | meeting an already visited group within the cut throws CyclicGroupsException |
| GroupApi.SelfParentCycle | src/main/java/com/rubyride/tripmanager/api/GroupApiImpl.java:70-99 | a group that is its own parent is a cycle when one more level fits, and a lone node when the cut stops at it |
| GroupApi.GroupHierarchyCorrect | src/main/java/com/rubyride/tripmanager/api/GroupApiImpl.java:59-99 | a null id is IllegalArgument, an unknown one "Group not found"; otherwise only a cycle fails, the tree is empty exactly for a negative depth, is rooted at the group, holds each group at most once and has at most maxDepth + 1 levels |
| GroupApi.ExpandedChildren | src/main/java/com/rubyride/tripmanager/api/GroupApiImpl.java:94-98 | below the cut a node's children are exactly the groups naming it as parent, in repository order |
| GroupApi.GroupsAfterDeleteProperties | src/main/java/com/rubyride/tripmanager/api/GroupApiImpl.java:41-53 | after a delete no group has the id or names it as parent, every other group remains (orphaned if it was a child), and none appears |
| GroupApi.DeleteGroup | src/main/java/com/rubyride/tripmanager/api/GroupApiImpl.java:41-53 | a null id throws and an unknown one changes nothing; otherwise the groups and blobs after the delete |
| GroupApi.MergeGroupProperties | src/main/java/com/rubyride/tripmanager/api/GroupApiImpl.java:200-271 | every field the update sets is taken from it, every other is kept, the id stays; merging is idempotent and a blank update changes nothing |
| GroupApi.UpdateGroup | src/main/java/com/rubyride/tripmanager/api/GroupApiImpl.java:200-271 | a null id throws, an unknown one answers no content and saves nothing; otherwise the merged group is stored in place and returned |
| GroupApi.WithDocumentProperties | src/main/java/com/rubyride/tripmanager/api/GroupApiImpl.java:110-197 | a new document id replaces the old one; empty bytes give a null id, which the update skips, so the group keeps its old id |
| GroupApi.ClearedDocumentDangles | src/main/java/com/rubyride/tripmanager/api/GroupApiImpl.java:110-122 | setting empty bytes on a document only this group referenced deletes the blob but leaves the group pointing at it |
| GroupApi.SetGroupDocument | src/main/java/com/rubyride/tripmanager/api/GroupApiImpl.java:110-197 | a null id throws, an unknown group is "Group not found" with nothing changed; otherwise the old document loses the group's reference, non-empty bytes become a new blob and the group is saved with the new id |
| HandshakeInterceptor.Pieces | src/main/java/com/rubyride/tripmanager/config/WebSocketHandshakeInterceptor.java:29 | the text cut at every separator: at least one piece, none holding the separator |
| HandshakeInterceptor.PiecesJoin | src/main/java/com/rubyride/tripmanager/config/WebSocketHandshakeInterceptor.java:29 | joining the pieces with the separator gives the text back |
| HandshakeInterceptor.DropTrailingEmpty | src/main/java/com/rubyride/tripmanager/config/WebSocketHandshakeInterceptor.java:29 | `String.split` drops exactly the trailing empty pieces |
| HandshakeInterceptor.Split | src/main/java/com/rubyride/tripmanager/config/WebSocketHandshakeInterceptor.java:29 | text without the separator is one piece; otherwise the pieces without their trailing empty ones |
| HandshakeInterceptor.SplitProperties | src/main/java/com/rubyride/tripmanager/config/WebSocketHandshakeInterceptor.java:29 | the pieces of split hold no separator, the dropped ones are empty, and all of them join to the text |
| HandshakeInterceptor.IndexOf | src/main/java/com/rubyride/tripmanager/config/WebSocketHandshakeInterceptor.java:35 | `indexOf` finds the first occurrence, or none when the character is absent |
| HandshakeInterceptor.SplitQueryParameter | src/main/java/com/rubyride/tripmanager/config/WebSocketHandshakeInterceptor.java:34-41 | with an '=' after the first character, the key is the text before it and key, '=' and value rebuild the piece; otherwise the whole piece is the key; an empty value is null |
| HandshakeInterceptor.SplitQueryParameterCases | src/main/java/com/rubyride/tripmanager/config/WebSocketHandshakeInterceptor.java:34-41 | a leading '=' belongs to the key, a bare or empty value is null, and a later '=' stays in the value |
| HandshakeInterceptor.GroupingByCorrect | src/main/java/com/rubyride/tripmanager/config/WebSocketHandshakeInterceptor.java:31 | the collected map has each key once in order of first appearance, with all its values (nulls included) in input order |
| HandshakeInterceptor.SplitQueryCorrect | src/main/java/com/rubyride/tripmanager/config/WebSocketHandshakeInterceptor.java:25-32 | a query without text has no parameters; otherwise every key among the '&' pieces appears once, with all its values in order |
| HandshakeInterceptor.FirstValid | src/main/java/com/rubyride/tripmanager/config/WebSocketHandshakeInterceptor.java:45-53 | `anyMatch` stops at the first token value that is null or valid: a null one is a NullPointerException (`isValid` dereferences it), a valid one is the answer, and none is found exactly when every value is non-null and invalid |
| HandshakeInterceptor.BeforeHandshakeCorrect | src/main/java/com/rubyride/tripmanager/config/WebSocketHandshakeInterceptor.java:44-54 | the handshake throws a NullPointerException exactly when a "token" parameter without a value comes before any valid one; otherwise it is accepted exactly when some "token" value is valid, and then a valid token is stored under "token" and nothing else changes; a refused handshake, a query without text and a query without "token" change nothing |
| Tokens.Saved | src/main/java/com/rubyride/tripmanager/security/UserTokens.java:42-45 | the token is in and nothing else changes |
| Tokens.Removed | src/main/java/com/rubyride/tripmanager/security/UserTokens.java:53-56 | the token is out and nothing else changes |
| Tokens.Replaced | src/main/java/com/rubyride/tripmanager/security/UserTokens.java:47-51 | the new token is in, the old one out unless it is the new one, every other token as it was |
| Tokens.TokenLaws | src/main/java/com/rubyride/tripmanager/security/UserTokens.java:42-56 | save, remove and replace are idempotent; saving then removing a new token restores the set |
| Tokens.UserTokens.constructor | src/main/java/com/rubyride/tripmanager/security/UserTokens.java:10-14 | a fresh record has no id, no user and no token set |
| Tokens.UserTokens.Id | src/main/java/com/rubyride/tripmanager/security/UserTokens.java:32-35 | the fluent setter sets the id and returns the same object |
| Tokens.UserTokens.UserId | src/main/java/com/rubyride/tripmanager/security/UserTokens.java:37-40 | the fluent setter sets the user id and returns the same object |
| Tokens.UserTokens.GetSavedTokens | src/main/java/com/rubyride/tripmanager/security/UserTokens.java:58-63 | never null: an unset set is created empty and kept; the tokens are returned |
| Tokens.UserTokens.SaveToken | src/main/java/com/rubyride/tripmanager/security/UserTokens.java:42-45 | the stored set becomes Saved of the old one, and the same object is returned |
| Tokens.UserTokens.ReplaceToken | src/main/java/com/rubyride/tripmanager/security/UserTokens.java:47-51 | the stored set becomes Replaced of the old one |
| Tokens.UserTokens.RemoveToken | src/main/java/com/rubyride/tripmanager/security/UserTokens.java:53-56 | the stored set becomes Removed of the old one |
| MapService.Geocode | src/main/java/com/rubyride/tripmanager/service/MapService.java:59-146 | geocoding changes at most the location and the zone: a place with an address that is found gets that location, and that zone when one contains it; any other place is unchanged |
| MapService.GeocodeIdempotent | src/main/java/com/rubyride/tripmanager/service/MapService.java:59-146 | under a deterministic geocoder (the same answer for the same address), geocoding a geocoded place changes nothing |
| PartnerRequestApi.HomePlace | src/main/java/com/rubyride/tripmanager/api/PartnerTransportationRequestApiImpl.java:103-108 | the rider's home is a private place named "Home" at the request's address, owned by the new rider |
| PartnerRequestApi.NonNullZones | src/main/java/com/rubyride/tripmanager/api/PartnerTransportationRequestApiImpl.java:118-120 | the rider's zones are exactly the non-null zones of home and facility, each once |
| PartnerRequestApi.ReturnTime | src/main/java/com/rubyride/tripmanager/api/PartnerTransportationRequestApiImpl.java:146-148 | the return leg starts one hour after the outbound time; a null time is a NullPointerException and a time past the supported range a DateTimeException |
| PartnerRequestApi.Scheduled | src/main/java/com/rubyride/tripmanager/api/PartnerTransportationRequestApiImpl.java:156-157 | the request gets the outbound trip's id and status SCHEDULED and nothing else changes |
| PartnerRequestApi.RoundTripLegs | src/main/java/com/rubyride/tripmanager/api/PartnerTransportationRequestApiImpl.java:126-154 | the two trips form a round trip for the new rider: the return leg reverses places and zones, keeps the constraint type one hour later, and only the outbound leg names the request |
| PartnerRequestApi.NewRiderProperties | src/main/java/com/rubyride/tripmanager/api/PartnerTransportationRequestApiImpl.java:110-124 | the new user is an active RIDER notified by SMS, without password or partner, in the known zones of home and facility |
| PartnerRequestApi.ScheduleTrip | src/main/java/com/rubyride/tripmanager/api/PartnerTransportationRequestApiImpl.java:95-172 | an unknown request, a request without facility (findById(null)) and an unknown facility fail in that order, and a bad return time fails too, all before any save; on success the rider with a generated user name, the geocoded home, both trips and the scheduled request are saved and the request is returned |
| PartnerRequestApi.MergeRequestFields | src/main/java/com/rubyride/tripmanager/api/PartnerTransportationRequestApiImpl.java:177-218 | the id stays, every field the update sets wins, every field it leaves null keeps its stored value, and lastUpdated is now |
| PartnerRequestApi.MergeRequestIdempotent | src/main/java/com/rubyride/tripmanager/api/PartnerTransportationRequestApiImpl.java:177-218 | applying the same update twice is applying it once |
| PartnerRequestApi.MergeRequestEmpty | src/main/java/com/rubyride/tripmanager/api/PartnerTransportationRequestApiImpl.java:177-218 | an empty update only refreshes lastUpdated |
| PartnerRequestApi.UpdatePartnerRequest | src/main/java/com/rubyride/tripmanager/api/PartnerTransportationRequestApiImpl.java:174-227 | a null id throws in findById, an unknown one is "Partner transportation request not found", both saving nothing; otherwise the merged request is stored and returned |
| ResetPasswordApi.UsersNamed | src/main/java/com/rubyride/tripmanager/api/ResetPasswordRequestApiImpl.java:56-79 | the users whose name is the given one (a null name matches the users without one) |
| ResetPasswordApi.UsersNamedIsNameTaken | src/main/java/com/rubyride/tripmanager/api/ResetPasswordRequestApiImpl.java:56 | the reset lookup finds a user exactly when addUser's duplicate test says the name is taken |
| ResetPasswordApi.DecodedUserName | src/main/java/com/rubyride/tripmanager/api/ResetPasswordRequestApiImpl.java:76-77 | malformed Base64 is an IllegalArgumentException and nothing else fails |
| ResetPasswordApi.UserNameRoundTrip | src/main/java/com/rubyride/tripmanager/api/ResetPasswordRequestApiImpl.java:76-97 | the name written into the reset mail decodes to the user's name |
| ResetPasswordApi.EmailedUserNameInjective | src/main/java/com/rubyride/tripmanager/api/ResetPasswordRequestApiImpl.java:97 | two different user names never share a link |
| ResetPasswordApi.ResetExpiry | src/main/java/com/rubyride/tripmanager/api/ResetPasswordRequestApiImpl.java:63 | the reset expires the configured number of minutes after now, or the call throws a DateTimeException past the supported range |
| ResetPasswordApi.WithReset | src/main/java/com/rubyride/tripmanager/api/ResetPasswordRequestApiImpl.java:60-63 | the user gets the new reset key and expiry and nothing else changes |
| ResetPasswordApi.ResetEmailFor | src/main/java/com/rubyride/tripmanager/api/ResetPasswordRequestApiImpl.java:95-115 | the mail goes to the user's address and greets the first name, and carries the reset key and a name that decodes to the user name; a null user name or first name is a NullPointerException |
| ResetPasswordApi.WithResetKeepsNames | src/main/java/com/rubyride/tripmanager/api/ResetPasswordRequestApiImpl.java:60-63 | storing a reset key never changes which users a name finds |
| ResetPasswordApi.RequestPasswordReset | src/main/java/com/rubyride/tripmanager/api/ResetPasswordRequestApiImpl.java:55-73 | an unknown name, a user without e-mail or a name several users share fails and saves nothing; otherwise the one user found gets a fresh key expiring limit minutes from now, saved before the mail is composed |
| ResetPasswordApi.PasswordChanged | src/main/java/com/rubyride/tripmanager/api/ResetPasswordRequestApiImpl.java:80-86 | the password changes exactly when a stored reset has the presented key and has not expired and a new password is given; it is then the new password's hash and the reset is cleared, nothing else changing; the failures come in the order of the filters |
| ResetPasswordApi.ResetKeyIsOneShot | src/main/java/com/rubyride/tripmanager/api/ResetPasswordRequestApiImpl.java:55-93 | a stored key changes the password before its expiry, and only once |
| ResetPasswordApi.ResetKeyRefused | src/main/java/com/rubyride/tripmanager/api/ResetPasswordRequestApiImpl.java:80-82 | past its expiry, or presented with another key, the stored reset changes nothing |
| ResetPasswordApi.ChangePassword | src/main/java/com/rubyride/tripmanager/api/ResetPasswordRequestApiImpl.java:75-93 | malformed Base64 is an IllegalArgumentException, an unknown name "not found", a shared name a single-result error; otherwise the one user found is saved exactly when PasswordChanged succeeds, and nothing is saved on any failure |
| ResetPasswordApi.MailedLinkChangesPassword | src/main/java/com/rubyride/tripmanager/api/ResetPasswordRequestApiImpl.java:55-115 | after a reset request for a uniquely named user, the name and key in the mail change that user's password before the expiry |
| PlaceApi.InsertedPlace | src/main/java/com/rubyride/tripmanager/api/PlaceApiImpl.java:45-63 | the inserted place has the fresh id and the owner's id; it is geocoded only when its location is missing or has a null or zero coordinate, and otherwise differs from the given place in nothing else |
| PlaceApi.WithPlace | src/main/java/com/rubyride/tripmanager/api/PlaceApiImpl.java:64 | the owner's place list gains the new id at its end (a missing list starts empty) and nothing else changes |
| PlaceApi.AddPlace | src/main/java/com/rubyride/tripmanager/api/PlaceApiImpl.java:44-70 | without an owner (neither named nor authenticated) or with an unknown owner: "User not found" and nothing saved; otherwise the inserted place is stored under the fresh id, appended to its owner's places and returned |
| PlaceApi.AddedPlaceLinksOwner | src/main/java/com/rubyride/tripmanager/api/PlaceApiImpl.java:63-64 | after addPlace the place names its owner, the owner lists the place, and no other user changes |
| PlaceApi.FoundPlaces | src/main/java/com/rubyride/tripmanager/api/PlaceApiImpl.java:85-87 | the stored places among the user's place ids, every stored one included |
| PlaceApi.ZonePlaces | src/main/java/com/rubyride/tripmanager/api/PlaceApiImpl.java:88-90 | the places of each of the user's zones, and no others |
| PlaceApi.CandidatesFromStore | src/main/java/com/rubyride/tripmanager/api/PlaceApiImpl.java:84-90 | every candidate is a stored place, and every stored place in the user's list or zones is a candidate |
| PlaceApi.FilterOrFail | src/main/java/com/rubyride/tripmanager/api/PlaceApiImpl.java:91-124 | a filter whose predicate may throw: it succeeds exactly when the predicate succeeds on every candidate, keeps exactly the accepted ones, and otherwise fails with one of the predicate's exceptions |
| PlaceApi.RenameAll | src/main/java/com/rubyride/tripmanager/api/PlaceApiImpl.java:97-128 | each place is renamed by its nickname, in order; a place without an id is a NullPointerException |
| PlaceApi.RenameAllMembers | src/main/java/com/rubyride/tripmanager/api/PlaceApiImpl.java:97-99 | the renamed places are exactly the nicknamed originals |
| PlaceApi.RenameAllDistinct | src/main/java/com/rubyride/tripmanager/api/PlaceApiImpl.java:96-99 | renaming keeps the id, so distinct places told apart by id stay distinct |
| PlaceApi.ListingSucceeds | src/main/java/com/rubyride/tripmanager/api/PlaceApiImpl.java:91-100 | a listing fails exactly when the filter throws on a candidate or a kept candidate has no id |
| PlaceApi.ListingCorrect | src/main/java/com/rubyride/tripmanager/api/PlaceApiImpl.java:91-100 | a listing holds exactly the kept candidates under their nicknames; with `distinct()` applied before renaming (the corrected pipeline, see Findings), each place once |
| PlaceApi.DistinctRenamedAsWritten | src/main/java/com/rubyride/tripmanager/api/PlaceApiImpl.java:95-98 | `distinct()` interleaved with the mutating rename, as written: it fails exactly when a kept place has no id, with a NullPointerException |
| PlaceApi.DistinctRenamedAsWrittenMembers | src/main/java/com/rubyride/tripmanager/api/PlaceApiImpl.java:95-98 | as written, the places listed are exactly the not-yet-seen kept places under their nicknames |
| PlaceApi.DistinctRenamedAsWrittenUnrenamed | src/main/java/com/rubyride/tripmanager/api/PlaceApiImpl.java:95-98 | when no nickname changes any place, the as-written pipeline is the corrected one |
| PlaceApi.ListingAsWrittenRepeats | src/main/java/com/rubyride/tripmanager/api/PlaceApiImpl.java:91-99 | a place reached twice and nicknamed "Gym" is listed twice as written and once by the corrected pipeline |
| PlaceApi.ListingAsWrittenAgrees | src/main/java/com/rubyride/tripmanager/api/PlaceApiImpl.java:91-99 | the as-written and corrected listings fail alike, list the same places, and are equal when no nickname renames a candidate |
| PlaceApi.StoredCandidatesDistinguished | src/main/java/com/rubyride/tripmanager/api/PlaceApiImpl.java:84-90 | stored candidates with the same id are the same place |
| PlaceApi.AllPlacesForUser | src/main/java/com/rubyride/tripmanager/api/PlaceApiImpl.java:79-103 | an unknown user is "User not found" |
| PlaceApi.AllPlacesForUserCorrect | src/main/java/com/rubyride/tripmanager/api/PlaceApiImpl.java:79-103 | a listed place is, under its nickname, a candidate owned by the user, seen through an ADMIN, DISPATCHER or DRIVER role, or public; nothing else is listed; under the corrected de-duplication (see Findings) nothing twice |
| PlaceApi.CallersPlaces | src/main/java/com/rubyride/tripmanager/api/PlaceApiImpl.java:110-132 | without an authenticated user: "User not authenticated" |
| PlaceApi.CallersPlacesCorrect | src/main/java/com/rubyride/tripmanager/api/PlaceApiImpl.java:110-132 | the caller's own candidates are always listed; others only when selfOnly is not set and the caller is ADMIN or the place is public; under the corrected de-duplication (see Findings) nothing twice |
| PlaceApi.SelfOnlyListsOwnPlaces | src/main/java/com/rubyride/tripmanager/api/PlaceApiImpl.java:122-124 | with selfOnly set the caller sees only places it owns |
| PlaceApi.MergePlaceLocation | src/main/java/com/rubyride/tripmanager/api/PlaceApiImpl.java:189-216 | id and owner stay; without a new address, location and zone are the update's when set and the stored ones otherwise; with a new address that is found, the found location wins even over the update's, and the zone is the update's, else the found one, else the stored one |
| PlaceApi.MergePlaceFields | src/main/java/com/rubyride/tripmanager/api/PlaceApiImpl.java:173-220 | the other fields are the update's when set and the stored ones otherwise |
| PlaceApi.MergePlaceSelf | src/main/java/com/rubyride/tripmanager/api/PlaceApiImpl.java:150-220 | updating a stored place with itself, one field changed, changes just that field |
| PlaceApi.UpdatePlace | src/main/java/com/rubyride/tripmanager/api/PlaceApiImpl.java:170-229 | a null id throws in findById, an unknown one is "Place not found", both saving nothing; otherwise the merged place is stored and returned |
| PlaceApi.ResettingSoleIconDeletesIt | src/main/java/com/rubyride/tripmanager/api/PlaceApiImpl.java:147-148 | as written, setting the icon a place already has, when it is that icon's only user, deletes the icon blob |
| PlaceApi.IconMovedKeepsIcon | src/main/java/com/rubyride/tripmanager/api/PlaceApiImpl.java:147-148 | after a successful corrected move the new icon is stored and references the place |
| PlaceApi.SetPlaceIcon | src/main/java/com/rubyride/tripmanager/api/PlaceApiImpl.java:142-154 | an unknown place is "Place not found", a blob that is missing or not a place icon "Icon not found", both changing nothing; otherwise the old icon drops the place's reference and the new icon gains it, and the place is saved with the new icon id and returned; when adding the reference fails, the error is returned, the place is unchanged and the blobs are those left after the old icon dropped the place (unchanged when the icon is the same) |
| ShiftApi.CreatedAppendsMarkers | src/main/java/com/rubyride/tripmanager/api/ShiftApiImpl.java:92-100 | the incoming events are kept, followed by a SHIFT_START and then a SHIFT_END marker |
| ShiftApi.NewShiftTimeline | src/main/java/com/rubyride/tripmanager/api/ShiftApiImpl.java:92-100 | a shift created without events has exactly two, start then end, already in timeline order with distinct keys, so sorting leaves them |
| ShiftApi.CreateShift | src/main/java/com/rubyride/tripmanager/api/ShiftApiImpl.java:92-109 | the created shift is saved under its fresh id and returned |
| ShiftApi.AddEvent | src/main/java/com/rubyride/tripmanager/api/ShiftApiImpl.java:51-75 | addEvent and updateEvent: an unknown shift is "Shift not found"; otherwise the stored shift with the event upserted is saved and returned |
| ShiftApi.SearchById | src/main/java/com/rubyride/tripmanager/api/ShiftApiImpl.java:274-279 | a found index holds an event with that id |
| ShiftApi.SearchByIdCorrect | src/main/java/com/rubyride/tripmanager/api/ShiftApiImpl.java:274-279 | the search that dereferences ids agrees with the null-safe first match whenever it returns, and throws a NullPointerException exactly when a null id comes before the first match |
| ShiftApi.SearchIdentified | src/main/java/com/rubyride/tripmanager/api/ShiftApiImpl.java:274-279 | with every id set, the search never throws and finds the first match |
| ShiftApi.MovedErrors | src/main/java/com/rubyride/tripmanager/api/ShiftApiImpl.java:267-293 | moving an event onto itself is a bad request; then an unknown shift, a missing anchor and a missing event are "not found", in that order |
| ShiftApi.MovedEvent | src/main/java/com/rubyride/tripmanager/api/ShiftApiImpl.java:267-293 | through the reordering in utility/SchedulingUtils.java (lines 62-105): with unique keys and every id set, a move fails with IndexOutOfBounds exactly when the anchor is the last event; otherwise the count is unchanged, the timeline sorted with unique keys, and the event, stamped 1000 ns after a timed anchor, replaces its old copy |
| ShiftApi.FindEventById | src/main/java/com/rubyride/tripmanager/api/ShiftApiImpl.java:274-279 | the search loop returns exactly SearchById |
| ShiftApi.MoveEvent | src/main/java/com/rubyride/tripmanager/api/ShiftApiImpl.java:267-293 | the shift is saved only when the move succeeds, and the answer is the move's |
| ShiftApi.MoveWithin | src/main/java/com/rubyride/tripmanager/api/ShiftApiImpl.java:274-289 | the searches and the anchored upsert produce exactly the specified move, changing only the events |
| ShiftApi.RemovedEventProperties | src/main/java/com/rubyride/tripmanager/api/ShiftApiImpl.java:310-325 | a null event list throws; otherwise every event with the id is dropped, the others keep their order, a sorted timeline stays sorted, and an absent id changes nothing |
| ShiftApi.RemoveStartMarker | src/main/java/com/rubyride/tripmanager/api/ShiftApiImpl.java:310-325 | the markers are not protected: removing a new shift's start marker leaves only the end marker |
| ShiftApi.RemoveEvent | src/main/java/com/rubyride/tripmanager/api/ShiftApiImpl.java:310-325 | an unknown shift is "Shift not found"; otherwise the filtered shift is saved and returned |
| ShiftApi.DeleteShift | src/main/java/com/rubyride/tripmanager/api/ShiftApiImpl.java:170-181 | fails, with IllegalStateException and nothing deleted, exactly when the shift exists and has trips; otherwise the shift is gone (an unknown one silently) |
| ShiftApi.AllFieldsSame | src/main/java/com/rubyride/tripmanager/api/ShiftApiImpl.java:112-167 | shifts that agree on every field are equal |
| ShiftApi.AppliedChangesOneField | src/main/java/com/rubyride/tripmanager/api/ShiftApiImpl.java:78-367 | each setter changes its one field and nothing else (not the events), establishes its value, and applying it again changes nothing |
| ShiftApi.SetShiftField | src/main/java/com/rubyride/tripmanager/api/ShiftApiImpl.java:78-367 | the five setters: an unknown shift is "Shift not found"; otherwise the changed shift is saved and returned |
| ShiftApi.MergeShiftFields | src/main/java/com/rubyride/tripmanager/api/ShiftApiImpl.java:113-157 | the merge changes only fields the update sets, never the id, takes each such field from the update, and is idempotent |
| ShiftApi.UpdateShift | src/main/java/com/rubyride/tripmanager/api/ShiftApiImpl.java:112-167 | a null id throws in findById, an unknown id is "Shift not found", both saving nothing; otherwise the merged shift is saved and returned |
| ShiftApi.OffsetOfHours | src/main/java/com/rubyride/tripmanager/api/ShiftApiImpl.java:201 | ZoneOffset.ofHours accepts exactly the offsets within ±18 hours |
| ShiftApi.HomeZoneOffset | src/main/java/com/rubyride/tripmanager/api/ShiftApiImpl.java:197-202 | an offset found through driver, home zone and zone is within ±18 hours; otherwise UTC |
| ShiftApi.TimeZoneForDriverAsWritten | src/main/java/com/rubyride/tripmanager/api/ShiftApiImpl.java:193-204 | as written the offset is within ±18 hours; the fallback to findById never applies |
| ShiftApi.TimeZoneForDriver | src/main/java/com/rubyride/tripmanager/api/ShiftApiImpl.java:193-204 | the corrected lookup: the driver by user id, else by its own id; the offset is within ±18 hours |
| ShiftApi.TimeZoneForDriverFallback | src/main/java/com/rubyride/tripmanager/api/ShiftApiImpl.java:194-196 | the two lookups differ only when just the lookup by driver id finds the driver, and then the as-written one answers UTC |
| ShiftApi.TimeZoneForDriverCounterexample | src/main/java/com/rubyride/tripmanager/api/ShiftApiImpl.java:194-196 | a driver known only by its id, in a zone at +5, is read at UTC as written and at +5 as intended |
| ShiftApi.DateRangeOverlap | src/main/java/com/rubyride/tripmanager/api/ShiftApiImpl.java:216-246 | for a shift that does not end before it starts, the date filter keeps it exactly when some date lies in both the range and the shift's dates |
| ShiftApi.ShiftsForDriverMembers | src/main/java/com/rubyride/tripmanager/api/ShiftApiImpl.java:234-249 | fails exactly when the offset does; otherwise lists exactly the driver's shifts that match active when given, overlap the dates and may be accessed |
| ShiftApi.ArchivedShiftsOrder | src/main/java/com/rubyride/tripmanager/api/ShiftApiImpl.java:206-225 | without a driver the dates are read at UTC; the live matches come first, then the archived ones, each in repository order, and only shifts that pass the filters |
| ShiftApi.ShiftsForZoneMembers | src/main/java/com/rubyride/tripmanager/api/ShiftApiImpl.java:252-264 | an unknown zone fails, and so does a date with shifts when the zone's offset is null or out of range; without a date every shift of the zone is listed; with one, exactly those whose start date is not after it and end date not before it |
| Timeline.Compare | src/main/java/com/rubyride/tripmanager/utility/SchedulingUtils.java:18-57 | the corrected comparator is at most zero exactly when the first event ranks no later than the second, and at least zero exactly when the reverse holds |
| Timeline.EventLeqTotalPreorder | src/main/java/com/rubyride/tripmanager/utility/SchedulingUtils.java:14-57 | the ranking (SHIFT_START first, SHIFT_END last, then time ascending with unset as MAX, then complete before incomplete) is total and transitive |
| Timeline.ComparatorsAgree | src/main/java/com/rubyride/tripmanager/utility/SchedulingUtils.java:18-57 | on every pair other than two shift starts or two shift ends, the comparator as written has the sign of the corrected one |
| Timeline.AsWrittenNotAntisymmetric | src/main/java/com/rubyride/tripmanager/utility/SchedulingUtils.java:30-40 | two distinct SHIFT_START events each compare below the other under the comparator as written, while the corrected comparator ranks them equal |
| Timeline.AsWrittenCounterexample | src/main/java/com/rubyride/tripmanager/utility/SchedulingUtils.java:30-34 | two SHIFT_START markers that differ only in id compare -1 in both directions |
| Timeline.SortEvents | src/main/java/com/rubyride/tripmanager/utility/SchedulingUtils.java:107-113 | a shift without an events list keeps it absent; nothing but the events list changes |
| Timeline.SortTimelineCorrect | src/main/java/com/rubyride/tripmanager/utility/SchedulingUtils.java:107-113 | the sorted timeline is a permutation of the input, in comparator order, keeps equally ranked events in their original order, and sorting twice is sorting once |
| Timeline.TimelineOrder | src/main/java/com/rubyride/tripmanager/utility/SchedulingUtils.java:14-57 | on a sorted timeline shift starts come only after shift starts, shift ends are followed only by shift ends, other events ascend by time and at equal times complete ones come first |
| Timeline.SortEventsIdempotent | src/main/java/com/rubyride/tripmanager/utility/SchedulingUtils.java:107-113 | sorting a shift twice is sorting it once, and a shift with no events list is returned unchanged |
| Timeline.MergeProperties | src/main/java/com/rubyride/tripmanager/utility/SchedulingUtils.java:115-153 | the merge keeps the existing id and location, takes each other field from the update exactly where it is set, merging an event into itself changes nothing, and merging the same update twice is merging it once |
| Timeline.FirstWithKey | src/main/java/com/rubyride/tripmanager/utility/SchedulingUtils.java:96-99 | the index found holds the first event with that trip and action; none means no event has them |
| Timeline.FirstWithId | src/main/java/com/rubyride/tripmanager/utility/SchedulingUtils.java:70-73 | the index found holds the first event with that id; none means no event has it |
| Timeline.WithoutKeyMembers | src/main/java/com/rubyride/tripmanager/utility/SchedulingUtils.java:96-102 | the events of every other key, which the upsert must leave in place, are exactly the events whose key differs |
| Timeline.Upserted | src/main/java/com/rubyride/tripmanager/utility/SchedulingUtils.java:62-105 | on success only the shift's events list changes, and it is then present |
| Timeline.UpsertProperties | src/main/java/com/rubyride/tripmanager/utility/SchedulingUtils.java:96-102 | merge-or-append keeps keys unique, grows the list only for a new key, leaves the events of every other key in place and in order, and holds exactly one event of the key |
| Timeline.AddOrUpdateWithoutAnchor | src/main/java/com/rubyride/tripmanager/utility/SchedulingUtils.java:62-105 | without an anchor found the upsert cannot fail; the result is sorted, keys stay unique, it grows by one exactly for a new key, and holds the other keys' events plus the event merged into its match, carrying its own id or a fresh one |
| Timeline.AddOrUpdateAnchorFailure | src/main/java/com/rubyride/tripmanager/utility/SchedulingUtils.java:69-93 | with the anchor at index p, the call fails with an out-of-bounds index exactly when the anchor is the last event and a same-key event was removed before the insert |
| Timeline.AddOrUpdateAnchorSuccess | src/main/java/com/rubyride/tripmanager/utility/SchedulingUtils.java:69-105 | when it succeeds, the event stamped 1000 ns after a timed anchor replaces the one of its key outright, every other key's event is kept, keys stay unique and the result is sorted |
| Timeline.Added | src/main/java/com/rubyride/tripmanager/utility/SchedulingUtils.java:62-105 | the upsert with no anchor always succeeds, with this shift as result |
| Timeline.AddedKeys | src/main/java/com/rubyride/tripmanager/utility/SchedulingUtils.java:62-105 | with no anchor, the timeline's keys become the old keys plus the event's, it grows by one exactly when that key is new, keys stay unique, it is sorted, and nothing else of the shift changes |
| Timeline.SortKeepsKeys | src/main/java/com/rubyride/tripmanager/utility/SchedulingUtils.java:107-113 | sorting keeps the length, the set of keys and their uniqueness |
| Timeline.FindEventWithId | src/main/java/com/rubyride/tripmanager/utility/SchedulingUtils.java:70-73 | the loop returns -1 exactly when no event has the id, otherwise the first index holding it |
| Timeline.FindEventWithKey | src/main/java/com/rubyride/tripmanager/utility/SchedulingUtils.java:96-99 | the loop returns -1 exactly when no event has the key, otherwise the first index holding it |
| Timeline.RepositionEvent | src/main/java/com/rubyride/tripmanager/utility/SchedulingUtils.java:75-92 | the anchor phase as a loop agrees with the positional-insert specification, failure included |
| Timeline.UpsertEvent | src/main/java/com/rubyride/tripmanager/utility/SchedulingUtils.java:96-102 | the merge-or-append step agrees with its specification, whose properties UpsertProperties states |
| Timeline.AddOrUpdateEvent | src/main/java/com/rubyride/tripmanager/utility/SchedulingUtils.java:62-105 | the whole operation, step by step, agrees with the specification whose properties the lemmas above state |
| TripApi.WithoutTripProperties | src/main/java/com/rubyride/tripmanager/api/TripApiImpl.java:100-106 | taking a trip off a shift leaves neither its id nor any of its events, keeps every other id and event, keeps a sorted timeline sorted and keys unique, and changes nothing else |
| TripApi.Unassigned | src/main/java/com/rubyride/tripmanager/api/TripApiImpl.java:96-110 | only the shift the trip names, when it exists, can change; the set of shift ids is kept |
| TripApi.Unassign | src/main/java/com/rubyride/tripmanager/api/TripApiImpl.java:96-110 | the stored shifts become the unassigned ones |
| TripApi.PartnerMarked | src/main/java/com/rubyride/tripmanager/api/TripApiImpl.java:112-117 | the linked partner request, when set and stored, gets the new status and every other request is untouched |
| TripApi.MarkPartnerRequest | src/main/java/com/rubyride/tripmanager/api/TripApiImpl.java:112-117 | the stored partner requests become the marked ones |
| TripApi.InsertedAt | src/main/java/com/rubyride/tripmanager/api/TripApiImpl.java:142-146 | the insertion index is within the list |
| TripApi.InsertTripPlaces | src/main/java/com/rubyride/tripmanager/api/TripApiImpl.java:140-148 | the id lands at the requested position when it is within 0 to the list size, otherwise last, and removing it again gives back the old list |
| TripApi.PickupEvent | src/main/java/com/rubyride/tripmanager/api/TripApiImpl.java:150-158 | the pickup event has the trip's PICKUP key and no id, time or completion |
| TripApi.DropoffEvent | src/main/java/com/rubyride/tripmanager/api/TripApiImpl.java:160-166 | the dropoff event has the trip's DROPOFF key and no id, time or completion |
| TripApi.PassengersBalance | src/main/java/com/rubyride/tripmanager/api/TripApiImpl.java:153-163 | the pickup adds the trip's passenger count (1 by default) and the dropoff takes it off again, modulo 32-bit wrap-around for the minimum int |
| TripApi.AssignedShift | src/main/java/com/rubyride/tripmanager/api/TripApiImpl.java:140-166 | the target shift keeps its id |
| TripApi.AssignAddsTripEvents | src/main/java/com/rubyride/tripmanager/api/TripApiImpl.java:140-166 | for a trip not yet on the shift, the timeline grows by two, gains exactly the trip's PICKUP and DROPOFF keys, stays sorted with unique keys, and only trips and events change |
| TripApi.AssignToNewShift | src/main/java/com/rubyride/tripmanager/api/TripApiImpl.java:140-166 | a freshly created shift holds four events after an assignment: its two markers and one pickup and one dropoff of the trip |
| TripApi.AssignTripToShift | src/main/java/com/rubyride/tripmanager/api/TripApiImpl.java:120-175 | "Trip not found" before "Shift not found"; a trip already on the shift is returned and nothing saved; otherwise the trip leaves its old shift, is saved DRIVER_ASSIGNED on the new one, which gets the trip id and both events |
| TripApi.Reassign | src/main/java/com/rubyride/tripmanager/api/TripApiImpl.java:131-170 | past the lookups, the trip is unassigned from its old shift and assigned to the new one, as AssignTripToShift states |
| TripApi.PlaceOnShift | src/main/java/com/rubyride/tripmanager/api/TripApiImpl.java:140-166 | the positional insert then the two upserts, as AssignedShift specifies |
| TripApi.CancelKeepsCompleted | src/main/java/com/rubyride/tripmanager/api/TripApiImpl.java:205-210 | cancelling keeps exactly the completed events of the trip and the events of other trips, in order and with unique keys, and a later deleteTrip removes the same as it would have from the original shift |
| TripApi.RemoveIncompleteEvents | src/main/java/com/rubyride/tripmanager/api/TripApiImpl.java:207-209 | the removeIf loop keeps exactly the events the cancellation filter keeps |
| TripApi.CancelledShifts | src/main/java/com/rubyride/tripmanager/api/TripApiImpl.java:196-213 | only the trip's shift, when set and found, can change; the set of shift ids is kept |
| TripApi.CancelTripById | src/main/java/com/rubyride/tripmanager/api/TripApiImpl.java:178-222 | a null reason throws, a non-cancellation status is a bad request, an unknown trip is "Trip not found", all with nothing saved; otherwise the trip is saved with the reason, its shift loses its incomplete events and its partner request is CANCELLED |
| TripApi.DeleteTrip | src/main/java/com/rubyride/tripmanager/api/TripApiImpl.java:225-255 | an unknown trip changes nothing; otherwise its shift loses its id and all its events, its partner request is CANCELLED and the trip is deleted |
| TripApi.SetTripNeedsAssigned | src/main/java/com/rubyride/tripmanager/api/TripApiImpl.java:695-712 | an unknown trip is "Trip not found" with nothing saved; otherwise the trip is unassigned from its shift and saved as NEEDS_ASSIGNMENT with no shift |
| TripApi.UnassignedLeavesNoTrace | src/main/java/com/rubyride/tripmanager/api/TripApiImpl.java:96-110 | after unassignment no shift lists the trip or holds an event of it, provided only the shift it named did |
| TripApi.CompletedTripInactive | src/main/java/com/rubyride/tripmanager/api/TripApiImpl.java:576-581 | after dropoff completion the trip is never active again |
| TripApi.ProgressEvent | src/main/java/com/rubyride/tripmanager/api/TripApiImpl.java:462-469 | the logged event has the trip's key for the step's action |
| TripApi.MarkedCompleteProperties | src/main/java/com/rubyride/tripmanager/api/TripApiImpl.java:522-530 | marking fails with a null pointer exactly when an event of the trip has no action; otherwise each event is marked in place and the length is kept |
| TripApi.MarkedKeySet | src/main/java/com/rubyride/tripmanager/api/TripApiImpl.java:522-530 | marking that keeps every event's key keeps the timeline's key set |
| TripApi.MarkedEvents | src/main/java/com/rubyride/tripmanager/api/TripApiImpl.java:522-530 | after marking, each event with the step's key is done at now where the driver is, and every other event was already there |
| TripApi.MarkedKeys | src/main/java/com/rubyride/tripmanager/api/TripApiImpl.java:522-532 | marking keeps the keys and their uniqueness, completes the step's events at now where the driver is, and leaves the other events as they were |
| TripApi.AdvancedShift | src/main/java/com/rubyride/tripmanager/api/TripApiImpl.java:459-471 | a progress step changes only the shift's events |
| TripApi.AdvancedShifts | src/main/java/com/rubyride/tripmanager/api/TripApiImpl.java:459-471 | only the trip's shift, when set and found, can change; the set of shift ids is kept |
| TripApi.StepKeys | src/main/java/com/rubyride/tripmanager/api/TripApiImpl.java:451-601 | on a timeline with unique keys a step succeeds and keeps keys unique and the timeline sorted; a logging step adds its key (one more event exactly when new); a complete step keeps keys and length and leaves the step's events done now where the driver is |
| TripApi.PickupLeg | src/main/java/com/rubyride/tripmanager/api/TripApiImpl.java:451-541 | en route, pickup arrival and pickup completion add the two logged keys, one event each |
| TripApi.DropoffLeg | src/main/java/com/rubyride/tripmanager/api/TripApiImpl.java:544-601 | dropoff arrival adds its key, one event, and dropoff completion adds none |
| TripApi.ProgressWalk | src/main/java/com/rubyride/tripmanager/api/TripApiImpl.java:451-610 | a shift with two markers and a trip's pickup and dropoff grows 4, 5, 6, 6, 7, 7 through the five steps and ends with the three logged keys added |
| TripApi.MarkEventsComplete | src/main/java/com/rubyride/tripmanager/api/TripApiImpl.java:522-530 | the forEach loop agrees with the marking specification, failure included |
| TripApi.AdvanceShift | src/main/java/com/rubyride/tripmanager/api/TripApiImpl.java:459-601 | the shift side of a step agrees with AdvancedShift |
| TripApi.SaveAdvancedShift | src/main/java/com/rubyride/tripmanager/api/TripApiImpl.java:459-601 | the stored shifts become the advanced ones on success and stay on an exception |
| TripApi.Progress | src/main/java/com/rubyride/tripmanager/api/TripApiImpl.java:451-610 | an unknown trip is "Trip not found" with nothing saved; otherwise the trip is saved with the step's status first, then its shift is advanced, and dropoff completion marks the partner request COMPLETE; an exception leaves shift and request as they were |
| TripApi.UpdatedTripProperties | src/main/java/com/rubyride/tripmanager/api/TripApiImpl.java:613-684 | the update fails exactly when a location is missing afterwards; otherwise each set field is taken from the update, every other kept, id and creation kept, last-updated is now, zones follow the locations, and applying it again changes nothing |
| TripApi.UpdateTrip | src/main/java/com/rubyride/tripmanager/api/TripApiImpl.java:613-692 | a null id is IllegalArgument, an unknown one "Trip not found"; otherwise the updated trip is saved and returned, or nothing saved when its zones cannot be set |
| TripApi.RequestTrip | src/main/java/com/rubyride/tripmanager/api/TripApiImpl.java:429-448 | an invalid request saves nothing; a valid one is saved under a fresh id, and the assignment that follows changes no shift; a shift id naming no shift is "Shift not found" after the save |
| TripApi.UpcomingKeptCorrect | src/main/java/com/rubyride/tripmanager/api/TripApiImpl.java:317-325 | the filters and the sort keep, by primary time, exactly the rider's trips ahead of now that are not complete and not the active one |
| TripApi.WithLocations | src/main/java/com/rubyride/tripmanager/api/TripApiImpl.java:62-93 | a null from or to location id is IllegalArgument; a place that is not stored makes the entry null; otherwise the trip with both stored places and their zones |
| TripApi.WithLocationsAll | src/main/java/com/rubyride/tripmanager/api/TripApiImpl.java:326-327 | the mapped list fails exactly when a trip has a null location id, and otherwise holds one entry per trip, in order |
| TripApi.UpcomingTripsFails | src/main/java/com/rubyride/tripmanager/api/TripApiImpl.java:315-327 | the listing fails with an NPE exactly when one of the rider's trips has no id, and otherwise with IllegalArgument exactly when a trip the filters keep has a null location id |
| TripApi.UpcomingTripsListed | src/main/java/com/rubyride/tripmanager/api/TripApiImpl.java:315-327 | otherwise it lists one entry per trip the filters keep, by primary time: null where a place of the trip is not stored, else the trip with its two places |
| TripApi.InZoneProperties | src/main/java/com/rubyride/tripmanager/api/TripApiImpl.java:274-275 | the zone filter throws exactly when a trip lacks a zone it compares; otherwise it keeps the trips starting or ending in the zone |
| TripApi.ArchiveSourcesCorrect | src/main/java/com/rubyride/tripmanager/api/TripApiImpl.java:264-295 | an unknown rider is "Rider not found", then an unknown zone "Zone not found"; with a known rider and zone, a trip of the rider without the zone ids the test reads is a NullPointerException; otherwise the candidates are exactly the live or archived trips of the rider (when given) that start or end in the zone (when given), and with neither all live trips followed by all archived ones |
| TripApi.ArchivePipeline | src/main/java/com/rubyride/tripmanager/api/TripApiImpl.java:297-306 | the result lists each accessible candidate dated in the range exactly once, by primary time |
| TripApi.ArchivedTripsCorrect | src/main/java/com/rubyride/tripmanager/api/TripApiImpl.java:263-307 | the lookup errors and the zone-test exception as above, and no other failure; a result lists, once each and by primary time, exactly the live or archived trips of the rider (when given) that start or end in the zone (when given), that the caller may access and whose date is in the range |
| TripApi.NewestFromProperties | src/main/java/com/rubyride/tripmanager/api/TripApiImpl.java:386-405 | the max fold returns a given shift; one without a creation time wins from the first; when all have one, the latest |
| TripApi.ChosenShiftCorrect | src/main/java/com/rubyride/tripmanager/api/TripApiImpl.java:376-406 | no shift is chosen exactly when the driver has no active shift; the chosen one is active, current when any active one is, and not older than any created one equally current |
| TripApi.FoundById | src/main/java/com/rubyride/tripmanager/api/TripApiImpl.java:408-409 | findAllById returns no more trips than ids |
| TripApi.FoundByIdMembers | src/main/java/com/rubyride/tripmanager/api/TripApiImpl.java:408-409 | findAllById returns exactly the stored trips whose ids are listed |
| TripApi.TripsForDriverCorrect | src/main/java/com/rubyride/tripmanager/api/TripApiImpl.java:374-412 | "No active shift for driver" exactly when the driver has none; otherwise exactly the stored trips of the chosen shift, by primary time |
| TripRules.PrimaryTime | src/main/java/com/rubyride/tripmanager/utility/TripUtils.java:78-84 | the primary constraint's time when both it and its time are set, otherwise MAX minus one year |
| TripRules.IsActiveWindow | src/main/java/com/rubyride/tripmanager/utility/TripUtils.java:86-103 | a trip is active exactly when its status (NEW by default) is one of the seven active ones and its primary time, or for a status other than NEW its last update, is less than three hours from the instant |
| TripRules.NeverActive | src/main/java/com/rubyride/tripmanager/utility/TripUtils.java:87-95 | completed, rider-cancelled and unassigned trips are never active |
| TripRules.NewActiveOnlyByPrimaryTime | src/main/java/com/rubyride/tripmanager/utility/TripUtils.java:95-102 | a NEW trip is active exactly when its primary time is within the window; its last update does not count |
| TripRules.NullStatusUsesLastUpdated | src/main/java/com/rubyride/tripmanager/utility/TripUtils.java:95-102 | a trip with no status counts as NEW for the status test but its last update within the window still makes it active |
| TripRules.ActiveTripForRiderCorrect | src/main/java/com/rubyride/tripmanager/utility/TripUtils.java:105-110 | the result is null exactly when no trip of the rider is active; otherwise it is an active trip of the rider with the earliest primary time |
| TripRules.SetZones | src/main/java/com/rubyride/tripmanager/utility/TripUtils.java:33-41 | both location ids must be set (a null one is IllegalArgument); the zones become those of the two places, null for an unknown place, and nothing else changes |
| TripRules.AllowedZones | src/main/java/com/rubyride/tripmanager/utility/TripUtils.java:54-61 | every zone of the user and the origin zone of every stored group the user belongs to are allowed |
| TripRules.ValidateTripRequest | src/main/java/com/rubyride/tripmanager/utility/TripUtils.java:44-76 | IllegalArgument exactly when a location or the rider is unset, "User does not exist" exactly for an unknown rider; success exactly when an end lies in an allowed zone and the primary time is no more than 30 seconds past, with the zones set |
| TripRules.UnsetTimeNotRejected | src/main/java/com/rubyride/tripmanager/utility/TripUtils.java:68-73 | a request with no primary time is never rejected as being in the past |
| UserApi.Sanitized | src/main/java/com/rubyride/tripmanager/api/UserApiImpl.java:59-85 | the sanitized user never shows the password and shows no field the user does not have |
| UserApi.SanitizedFields | src/main/java/com/rubyride/tripmanager/api/UserApiImpl.java:59-85 | the user itself and an ADMIN see everything but the password; other viewers lose the account details; viewers neither DISPATCHER nor DRIVER also lose contact and membership details; the id, names, address, notification type, partner and reset request are always shown |
| UserApi.SanitizedMonotone | src/main/java/com/rubyride/tripmanager/api/UserApiImpl.java:59-85 | a viewer with more roles sees at least as much, the user itself sees at least as much as anyone, and sanitizing twice is sanitizing once |
| UserApi.NameTakenIsUserAlreadyExists | src/main/java/com/rubyride/tripmanager/api/UserApiImpl.java:242-244 | the name check addUser and updateUser make is the userAlreadyExists query |
| UserApi.NewUser | src/main/java/com/rubyride/tripmanager/api/UserApiImpl.java:103-105 | the inserted user has the fresh id, the encoded password and the creation time, and every other field as sent |
| UserApi.AddUser | src/main/java/com/rubyride/tripmanager/api/UserApiImpl.java:92-111 | a taken name is "User already exists", then an ADMIN role is refused, then a null password is refused by the encoder, all with nothing stored; otherwise, whenever the name is free, no ADMIN role is asked for and a password is given, the new user is inserted and returned without its password |
| UserApi.MaxOrdinal | src/main/java/com/rubyride/tripmanager/api/UserApiImpl.java:174-183 | the maximum ordinal of the roles, the default for none |
| UserApi.RoleChangeAllowedCorrect | src/main/java/com/rubyride/tripmanager/api/UserApiImpl.java:167-187 | a role change is allowed exactly when every new role is ranked no higher than DRIVER and no higher than some role the caller holds (a caller without roles is capped at DRIVER); an empty list of new roles is judged as RIDER alone |
| UserApi.NoGrantAboveDriver | src/main/java/com/rubyride/tripmanager/api/UserApiImpl.java:174-186 | whatever the caller's roles, an allowed change never grants a role ranked above DRIVER |
| UserApi.MergeUserProperties | src/main/java/com/rubyride/tripmanager/api/UserApiImpl.java:126-216 | the merge keeps id, password, creation time and favourite places; an empty update changes nothing; repeating an update changes nothing more; every set field is stored; given roles end up equal as a set |
| UserApi.UpdateUser | src/main/java/com/rubyride/tripmanager/api/UserApiImpl.java:123-225 | a null id is refused, an unknown one "User not found"; a taken new name is refused; a role change above the caller's ceiling is refused; otherwise the merged user is saved and the sanitized request returned; tokens are revoked on a name or role change |
| UserApi.RemoveFirstWithin | src/main/java/com/rubyride/tripmanager/api/UserApiImpl.java:364-365 | removing an element invents nothing |
| UserApi.RemoveFirstNoDuplicates | src/main/java/com/rubyride/tripmanager/api/UserApiImpl.java:364-365 | from a list without repeats, removing an element leaves no copy of it and no repeat |
| UserApi.FavoritesAfterProperties | src/main/java/com/rubyride/tripmanager/api/UserApiImpl.java:360-372 | the place becomes a favourite exactly as asked, no other place changes, no repeat appears, and a list that already agrees is unchanged |
| UserApi.FavoriteNotPersisted | src/main/java/com/rubyride/tripmanager/api/UserApiImpl.java:357-373 | as written, the update the toggle sends changes nothing in storage, although the response lists a newly marked favourite |
| UserApi.SetFavoritePlaceForUser | src/main/java/com/rubyride/tripmanager/api/UserApiImpl.java:357-373 | corrected: a null id is refused, an unknown one "User not found"; otherwise the toggled favourites are stored and the toggled user returned, sanitized for the caller |
| UserUtils.TakenNames | src/main/java/com/rubyride/tripmanager/utility/UserUtils.java:14-16 | exactly the names some stored user has |
| UserUtils.Lower | src/main/java/com/rubyride/tripmanager/utility/UserUtils.java:19-21 | lower-casing keeps the length |
| UserUtils.BaseNameShape | src/main/java/com/rubyride/tripmanager/utility/UserUtils.java:19-21 | the base name has one lower-case letter, digit or underscore per word character of first name (default "a") and last name, and is "a" when neither is given |
| UserUtils.NatToStringInjective | src/main/java/com/rubyride/tripmanager/utility/UserUtils.java:26 | different counters give different decimal suffixes |
| UserUtils.CandidatesCount | src/main/java/com/rubyride/tripmanager/utility/UserUtils.java:25-27 | the numbered candidates 1 to n are n different names, so the search meets a free one |
| UserUtils.GenerateUsername | src/main/java/com/rubyride/tripmanager/utility/UserUtils.java:18-30 | the result is the first free name among the base name and the base name followed by 1, 2, ... |
| Utf8.EncodeChar | src/main/java/com/rubyride/tripmanager/api/ResetPasswordRequestApiImpl.java:97 | each character takes one to four bytes |
| Utf8.DecodeFirst | src/main/java/com/rubyride/tripmanager/api/ResetPasswordRequestApiImpl.java:76-77 | a decoded character takes at least one byte and no more than are left |
| Utf8.DecodeFirstEncodeChar | src/main/java/com/rubyride/tripmanager/api/ResetPasswordRequestApiImpl.java:76-97 | the first character of an encoding is read back with exactly its bytes |
| Utf8.DecodeEncode | src/main/java/com/rubyride/tripmanager/api/ResetPasswordRequestApiImpl.java:76-97 | decoding the UTF-8 bytes of a text gives the text back |

## Left out

- Concurrency: each endpoint is one atomic sequential method; the lost updates that interleaved load-and-save calls on one shift can cause are not modelled.
- `publishEvent` and all notification delivery (WebSocket, SMS, e-mail) are no-ops; the e-mail of a password reset and its MessagingException are not modelled.
- The clock, `UUID.randomUUID`, bcrypt and the authenticated caller are parameters; one `now` is used per call although the code reads the clock several times.
- The geocoder is the `lookup` parameter of `MapService.Geocode`; the HTTP query, the rate limiter and the polygon search are not modelled, nor is `geocodePlacesWithoutLocation`.
- Time-zone conversion: the date of an instant is `DateAt` at a fixed hour offset; the offset an OffsetDateTime carries is ignored, and MIN/MAX instants are approximated by `MinInstant`/`MaxInstant`.
- Timeline.CompareAsWritten: the comparator's identity test `a == b` is modelled as value equality, so two distinct SHIFT_START (or SHIFT_END) objects with equal fields compare 0 in the model where Java answers -1 (or 1); the as-written non-antisymmetry is shown on markers that differ in a field.
- Timeline.Stamped: `plusNanos(1000)` throws a DateTimeException when the anchor is within 1000 ns of OffsetDateTime.MAX; the model adds the 1000 ns without that bound.
- Timeline.SortEvents: modelled as a stable insertion sort; the JDK's list sort is a different stable algorithm with the same result on a total preorder, but its steps are not modelled.
- Query orders that the stores do not define (Mongo's `findByZoneId` and `findAll`, the Redis `findAllById`) are modelled as the order of the ids or sequences passed in; the Redis `findAllById` yields one trip per occurrence of an id, as its id-by-id lookup does. The set order of a new rider's zones is modelled home-place zone first.
- A derived Mongo query by a null user name is modelled as matching the stored users that have no name (`UserApi.NameTaken`, `ResetPasswordApi.UsersNamed`), as a `{userName: null}` filter does.
- UserUtils.UserAlreadyExists: `findByUserName` is a single-result query that throws IncorrectResultSize when two stored users share the name; the model answers true there, since no modelled endpoint stores a second user under a taken name.
- UserApi.NameTaken: the same single-result query in `addUser` and `updateUser`; two users sharing the name count as the name being taken rather than as IncorrectResultSize, for the same reason.
- The `Role` enumeration is generated code that is not part of this model, so its ordinal order is the `ordinal` parameter of `UserApi.UpdateUser`.
- `sanitizeOutput`, `updateUser`, `updatePlace` and the other record merges work on values, not on Java objects mutated in place, so aliasing between a request object and a stored object is not modelled.
- Utf8.Decode: malformed UTF-8 is read as naming no user, where Java would substitute replacement characters; text is a sequence of Unicode scalar values, not UTF-16 code units.
- ResetPasswordApi.ChangePassword: a reset id that is not a UUID is the `None` case of its `Option<Uuid>` parameter, standing for the parse failure.
- Store: the save, insert and delete methods stand in for the Spring Data repositories, whose code is not part of this model.
- Trip lookups not modelled (read-only queries beside the lifecycle): `getTripsForZone`, `getAllTrips`, `getTrip`, the `getActiveTrip` wrapper and the driver details lookup.
- Shift lookups not modelled (read-only queries beside the timeline): `getActiveShifts`, `getShiftById`; `getAnalytics` on the analytics API answers 501 and has no logic.
- User endpoints not modelled (a delete by id with token revocation, and read-only lookups): `deleteUser`, `getUserById`, `getUserByName`, `getUsersForZone` and the other lookups.
- Partner endpoints not modelled (a plain save with fresh id and timestamps, deletes by id, read-only lookups): `requestPartnerTransportationRequest`, the delete and get endpoints and `getPartnerTransportationRequestByPartner`.
- Place endpoints not modelled (`setPlaceImage` drops the old image's reference and creates a new image blob, the bookkeeping `GroupApi.SetGroupDocument` models for groups; the rest are a delete by id and read-only lookups): `setPlaceImage`, `deletePlace`, `getPlaceById`, `getPlacesForGroup`, `getPlacesForZone`.
- `AdminUtils.reindexRepositories`: a delete-and-resave round trip with no logical effect.
- The access-control functions that endpoints consult are passed in as `canAccess` parameters rather than evaluated against the store.
- TripApi.WithLocations: the driver details of the response (`getDriverDetails`, its shift, driver and vehicle lookups) are not modelled; the record carries the other fields as the trip itself.
- AccessControl.PartnerOfFacility: a null facility id is modelled as matching no partner; by the convention used for a null user name, a derived `findByFacilitiesContains(null)` might instead match the partners without a facilities list, which the query derivation, library code that is not part of this model, would decide.
- AnalyticsApi.DayCounts: the counts are a map from day numbers; the source keys them by the date's text in a `TreeMap`, so its response lists the dates in lexicographic order of their ISO-8601 text, which is date order only for four-digit years (a date such as `OffsetDateTime.MAX.minusYears(1)`, the primary time of a trip without one, renders as "+999999998-12-31" and sorts first; negative years sort out of date order too); the map does not carry any order.
- JWT verification and bcrypt hashing are opaque: token validity is a predicate `isValid` over non-null token strings, a parameter of `HandshakeInterceptor`; a null token value throws before it is consulted.
- Utf8.Encode and Utf8.Decode: `getBytes()` and `new String(bytes)` use the platform's default charset, which is taken to be UTF-8.
- UserUtils.Lower: `toLowerCase()` folds only ASCII letters here; Java folds by the default locale over all of Unicode.
- HandshakeInterceptor.HasText: only ASCII whitespace characters count as blank, where `StringUtils.hasText` uses `Character.isWhitespace`, which also accepts other Unicode separators.
- UserApi.NoGrantAboveDriver: "ranked above" means a larger ordinal under the `ordinal` parameter. The comment in `updateUser` orders ADMIN > DISPATCHER > PARTNER > DRIVER > RIDER; if the generated enumeration declares its constants in that order, a larger ordinal means less access, the check refuses only RIDER, and the lemma then says that no RIDER role is ever granted by a caller ranked as DRIVER or lower. The `Role` declaration is not part of this model, so the order is left open.

## Findings

| source | as written | input that shows it | evidently intended | confidence | as-written member | corrected member |
|---|---|---|---|---|---|---|
| src/main/java/com/rubyride/tripmanager/utility/SchedulingUtils.java:30-40 | the comparator returns -1 whenever the first event is a SHIFT_START (and 1 whenever it is a SHIFT_END), also when the second event is one too, so it is not antisymmetric | two SHIFT_START events differing only in their ids each compare -1 against the other | two markers of the same kind compare 0, giving a total preorder the stable sort can rely on | not executed | Timeline.AsWrittenNotAntisymmetric, Timeline.AsWrittenCounterexample | Timeline.Compare, Timeline.SortTimelineCorrect |
| src/main/java/com/rubyride/tripmanager/api/ShiftApiImpl.java:194-196 | `Optional.of(Optional.ofNullable(...)).orElse(findById(...))` is never empty, so the driver found by `findById` (evaluated eagerly, as an argument) is always discarded | driver 7 found only by `findById(7)`, whose home zone is at +5 hours: the offset used is UTC | fall back to `findById` when `findByUserId` finds nothing, giving +5 | not executed | ShiftApi.TimeZoneForDriverAsWritten, ShiftApi.TimeZoneForDriverCounterexample | ShiftApi.TimeZoneForDriver, ShiftApi.ShiftsForDriverMembers, ShiftApi.ArchivedShifts |
| src/main/java/com/rubyride/tripmanager/utility/AnalyticsUtils.java:61-64 | the header is concatenated with the joined rows with no newline between them | any shift with two complete events: the first line is the header followed directly by the first row | the header on a line of its own, then one line per row | not executed | AnalyticsUtils.CsvAsWrittenMergesHeader | AnalyticsUtils.CsvLines, AnalyticsUtils.GetAnalytics |
| src/main/java/com/rubyride/tripmanager/api/UserApiImpl.java:357-373 | the toggled favourites are passed to `updateUser`, whose merge (lines 123-225) never copies `favoritePlaces`, so nothing is stored | a stored user without favourites marks place p as favourite: the response lists p, the store still has none | the toggled favourite list is stored | not executed | UserApi.FavoriteNotPersisted | UserApi.SetFavoritePlaceForUser |
| src/main/java/com/rubyride/tripmanager/api/PlaceApiImpl.java:147-148 | the old icon's reference is removed before the new one is added, so setting the icon a place already has deletes that icon's blob when the place was its only user, and the add then finds no blob | place q whose icon i is referenced only by q; `setPlaceIcon(q, i)` deletes i while q keeps pointing at it | re-setting the current icon keeps it, referenced by the place | not executed | PlaceApi.ResettingSoleIconDeletesIt | PlaceApi.IconMovedKeepsIcon, PlaceApi.SetPlaceIcon |
| src/main/java/com/rubyride/tripmanager/api/PlaceApiImpl.java:95-98 | `.distinct()` is followed by `.map(place -> place.name(...))`, whose fluent setter renames the object held by distinct's hash set, so a later copy of a renamed place no longer matches and is kept again | a place in the user's own list and in one of the user's zones, nicknamed "Gym": it is listed twice | each place listed once, under its nickname | not executed | PlaceApi.ListingAsWritten, PlaceApi.ListingAsWrittenRepeats | PlaceApi.Listing, PlaceApi.ListingCorrect, PlaceApi.AllPlacesForUserCorrect, PlaceApi.CallersPlacesCorrect |
