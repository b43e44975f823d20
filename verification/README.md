# Verification of the Cloud Foundry Routing API

A Dafny model of the Routing API's logic, with machine-checked proofs: the route tables and their
event logs, background pruning, the event streams, TCP mapping validation, router-group ports and
their reservation, the backup locks, the migration runner and the UAA token cache.
`dafny verify dfyconfig.toml` checks the whole project.

## How it is laid out

| files | what they model |
|---|---|
| `RouteTable`, `TableLaws`, `RouteHistory`, `RouteData`, `RowLife`, `TaggedRouter`, `Resync`, `Expiry` | the route table, once for both kinds of route, and what whole runs of saves, deletes and prunes guarantee to subscribers and routers |
| `SaveRaces`, `SaveTags` | saves split into look-up and write: when two rows of one key arise, and what routers make of the tags |
| `PruneInterleaving`, `PruneHistory`, `PruneRenewal`, `PruneReplay`, `PruneTags`, `PruneRaces` | pruning as separate find, delete and report steps, interleaved with requests: what is removed, what subscribers and routers make of it, and the races shown |
| `ModificationTags`, `Routes`, `SqlDb`, `Batches` | the two kinds of route and the database object with its two tables and two hubs |
| `HttpUpsert`, `TcpUpsert`, `FrontendTls`, `HandlerRuns` | the registration handlers, the rule that rival backends agree on front-end TLS, and runs of whole requests |
| `EventStream`, `EndToEnd` | hub buffer, dispatcher and stream handler in every interleaving, and what a client makes of the stream |
| `PortRanges`, `PortSearch`, `PortReservation`, `RouterGroupRuns`, `RangeRequests`, `Reservations`, `ReservationText`, `RouterGroupLocks` | port lists, the search for a free port, router groups, runs of reservations, and the backup locks |
| `Migrations`, `TokenFetcher` | the migration runner and the token cache |

A row is split into its guid, its expiry, the lookup key (the columns a save looks it up by) and the
other columns; `Routes` says which column of which Go struct is where. HTTP routes and TCP mappings
share one theory: they differ in the types of key and data and in which data columns an update
overwrites. The database is a map from guid to row; a clock reading, a uuid and the failure of a
database call are arguments of the operation that meets them; a query answers in any order; an
expiry is compared through `Config.column`, what the database keeps of it; a hub is the sequence of
events emitted on it. Where prunes interleave, the guid of a new row is a uuid never issued before;
results about routers need the same of tag guids, and say so (`PruneTags.Orderly`). Sequential code
is modelled by methods proved equal to specification functions, and what these functions compute is
stated apart from them: column by column, answer by answer, letter by letter (`TableLaws`, `RouteData`,
`RangeRequests`, `ReservationText` and the lemmas beside each handler). Protocols are histories of steps, so
that a statement about `At(h)` for every `h` is one about every interleaving; a call that nobody
disturbs does in its steps what it does as one operation (`AloneIsAtomic`, for saves, prunes and
locked calls).

## Main results

- Replaying the events of any run rebuilds exactly the stored routes, as JSON shows them
  (`RunMirrored`), and the gauge moves with the row count (`RunCounted`). With one save at a
  time keys stay unique, so the duplicate errors cannot occur. All of it, and the emptying of the
  table by a late prune, holds of any run of the handlers' requests (`HttpRequestsKept`, `TcpRequestsKept`).
- After any run the columns of a stored row come from where they should: isolation segment and rewrite
  hostname of a TCP mapping from the last upsert, its other data from its creation (`TcpColumns`), the
  log guid of an HTTP route from the last upsert that gave one (`HttpColumns`).
- A registration is rejected exactly if some route has a column out of order (`RoutesHandler.Upsert`,
  `AcceptedIff`), with the objection to the first of them (`Objections`, `FirstToFail`).
- These hold for prunes that are not disturbed. When requests interleave with a prune, the replayed
  view lacks exactly the keys of `Lost`, and the gauge is off by exactly `Drift`
  (`ReplayFollows`, `GaugeDrift`); both are shown to happen (`RecreatedRouteIsLost`). A client behind
  a stream that has kept up holds exactly the stored routes if and only if no key is lost
  (`ClientSeesTable`).
- The documented tag rules do not repair this. A router that follows them lacks the same lost keys
  and in addition keeps the deleted keys of `Stray` (`TagsFollow`): between prunes, and as long as the
  index of the key has not wrapped, it is right about a key exactly when the key is in neither set
  (`TagsRightIff`). A route renewed while a prune has it in hand is deleted and reported under its
  older tag, which the router refuses (`RenewedRouteIsStray`).
- Every row a prune removes was stored and expired when its own find ran (`RemovedWasExpired`), but
  "a prune removes only expired rows" is false of the code (`RefreshedRouteIsPruned`). Exactly: a row
  removed is the row found, expired even at the delete, if and only if it was not renewed between the
  two (`RemovedIffNotRenewed`).
- Fed in order and without disturbed prunes, a router that follows the tags is right after every step
  if and only if the 32-bit index never wraps (`InStepIff`). Under any reordering and duplication it
  ends with the stored version of a row if that was updated fewer than 2^32 times (`AnyDelivery`). A
  router that takes a listing and then applies all events since it subscribed, most of them older than
  the listing, is right too, except exactly for a row that had expired by then and of which there was
  no event (`ResyncIff`).
- When saves interleave, two rows of one TCP key can come to be stored exactly if it has no SNI
  hostname or their TLS flags differ (`TcpTwiceIff`), and two rows of any HTTP route can, since nothing
  creates the index its model declares (`HttpTwice`). It takes another save of the key that writes
  between the look-up and the write of the first (`Overtaken`), and then no save of the key succeeds
  until a row is removed (`TwiceBlocks`).
- Interleaved saves also break the tags. As long as keys are unique, a router that follows the tags is
  right at every point if and only if no write is eclipsed: lands under an index that is not larger
  than the stored one and shows something else (`RightIff`). Short of a wrap that takes another save
  of the same row in between (`EclipsedHow`), and it happens (`UpdateIsEclipsed`).
- The search for a free port ends exactly when no group it reaches has a range up to 65535
  (`SearchEndsIff`): the 16-bit counter wraps and the marking loop of such a range never ends.
- Any run of reservations on any valid store, whatever fails on the way, keeps the groups valid and no
  port in two of them, and returns only ports that nobody holds (`RunKept`). A granted port is all its
  group holds, every other group is left as it was, and the group keeps the port until a call asks for
  that group again (`RunKeepsOther`); from an empty store every group holds a single port
  (`RunKeepsSingle`). A returned port is stored for the group asked for except exactly when the look-up
  by name failed and a group of that name and of type tcp was there (`StoredUnlessUnseen`). What a call
  asks for is what its text denotes, digit by digit (`RequestedIff`); it is told of exhaustion exactly if
  every port of that range is held (`AnswerByText`), and the least port that is not held is returned
  exactly if nothing keeps the call from storing it (`FreePortReturned`). Once port
  65535 is given out every later call hangs (`LastPortHangs`), and as long as a group without ports
  exists none succeeds (`PortlessGroupBlocks`).
- Once a stream's handler has returned, its dispatching goroutine can still end exactly when it has
  nothing left to send (`ExitsIff`); otherwise it is leaked.
- Rival TCP backends agree on front-end TLS after every request of a run if and only if of each
  accepted batch the part that was saved was `Compatible` with the table it found (`AgreesIff`,
  `BatchAgrees`). Consistent batches and no expired row still stored are enough (`AlwaysAgrees`); an
  expired rival can come back to life in disagreement (`ExpiredRivalComesBack`).
- Migrations never skip, reorder or needlessly repeat a version over any number of starts, upgrades,
  downgrades and failures (`StartsKeepInv`). A run is done exactly if it comes to no error, and has then
  run exactly the listed versions above the recorded one, in order (`DoneIff`); otherwise it stopped at
  the first step that failed (`StopsAt`).
- After a lock is set only calls that had already passed its check can still write
  (`LateWritesPassedBefore`); once they are gone the groups are frozen (`DrainedIsFrozen`).

## Model

| member | source | states |
|---|---|---|
| RouteTable.PaddingIsHarmless | db/db_sql.go:175-179 | the delete by the guid list, half of it empty strings, removes exactly the rows found |
| RouteTable.StepKeepsValid | db/db_sql.go:344-583 | every save, delete and prune keeps at most one row per lookup key, and no row's key ever changes |
| TableLaws.ShownAlikeIff | models/route.go:9-23 | the JSON of two rows is the same exactly if they differ in guid and expiry only |
| TableLaws.SaveAnswers | db/db_sql.go:407-438 | a save succeeds exactly if its look-up and write do and the key is stored or a new row can be filled in and its guid is new; each error exactly in its case, and an error changes nothing |
| TableLaws.UpdateWrites | db/db_sql.go:357-371 | a save of a stored key changes that row alone: index plus one modulo 2^32, the new ttl if given, expiry that many seconds after now, merged data, same guid, key and tag guid; one update event with it |
| TableLaws.CreateWrites | models/route.go:25-36 | a save of a new key adds one row, under new uuids with index 0 and expiring its ttl after now; one create event with it |
| TableLaws.RemoveAnswers | db/db_sql.go:440-454 | a delete fails with key-not-found exactly if the look-up works and the key is not stored, and with a database error exactly if a call fails; otherwise it takes the row of the key, no other, and reports it |
| TableLaws.PruneAnswers | db/db_sql.go:195-221 | a prune without failures keeps exactly the rows whose kept expiry is at most a second past, unchanged, and reports each other row once as it was; with one it changes nothing |
| RouteHistory.RunKeepsKeys | db/db_sql.go:389-438 | over any run no lookup key is held by two rows and no stored guid is empty |
| RouteHistory.RunMirrored | db/db_sql.go:407-454 | a subscriber starting from a faithful copy and replaying a run's events by key ends with exactly the stored rows, projected to their JSON fields |
| RouteHistory.RunCounted | metrics/metrics.go:110-118 | over any run the sum of the gauge deltas equals the change in the number of stored rows |
| RouteData.TcpColumns | db/db_sql.go:344-355 | after any run a stored TCP mapping has the isolation segment and rewrite hostname of the last upsert of its key that reached the table, and instance, ALPNs and TLS flag of its creation |
| RouteData.HttpColumns | db/db_sql.go:363-365 | after any run a stored HTTP route has the log guid of the last upsert since its creation that gave one, and none only if none did |
| ModificationTags.Succession | models/route.go:63-73 | no tag succeeds itself; of two tags of one guid exactly one succeeds the other; an increment succeeds except at the last index; another guid always does |
| ModificationTags.Untagged | models/route.go:67-70 | nothing held, or a tag without a guid on either side, lets every upsert through |
| RowLife.RunLives | db/db_sql.go:427-437 | the upserts of a stored key since its creation carry indices 0, 1, 2, ... modulo 2^32 under one tag guid and end in the stored row; a key that is not stored has none |
| RowLife.SucceedsInOrder | models/route.go:67-73 | of two versions of a row the later succeeds the earlier exactly when its 32-bit index is larger, and always before the index wraps |
| RowLife.InOrderDelivery | models/route.go:63-73 | a router that is sent the versions in order holds version min(n, 2^32) |
| RowLife.HoldsNewest | models/route.go:67-73 | whatever was delivered, the router holds one of the delivered versions, none of them newer |
| RowLife.AnyDelivery | models/route.go:67-73 | after any run, under any reordering and duplication of a row's versions, the router holds what the table stores, for fewer than 2^32 updates |
| TaggedRouter.InStepIff | docs/03-modification-tags.md:71-122 | fed in order, a router with the documented upsert and delete rules is right about a key after every step of a run if and only if no step updates the key's row at its last index |
| TaggedRouter.RunInStep | docs/03-modification-tags.md:71-122 | so it holds exactly what is stored under a key after any run in which that index does not wrap |
| TaggedRouter.WrapStrandsRouter | models/route.go:63-73 | where an index wraps the router refuses the update, and would refuse the deletion of that version |
| Resync.ResyncIff | docs/03-modification-tags.md:17-26 | a router that takes a listing and then applies every event since an earlier subscription by the tag rules holds what is stored if and only if not: the row was stored but expired at the listing, and there was no event about it |
| SaveRaces.UniqueIff | db/db_sql.go:535-566 | in every interleaving of look-ups, writes and removals no key ever had two rows if and only if no write landed beside another row of its key |
| SaveRaces.Overtaken | db/db_sql.go:489-516 | a save that finds another row of its key when it comes to write was overtaken: between its look-up and its write another save of the key wrote another row, and that write took effect |
| SaveRaces.TwiceBlocks | db/db_sql.go:507-509 | once two rows have a key, no save of it gets past its look-up in any continuation without a removal |
| SaveRaces.AloneIsAtomic | db/db_sql.go:535-567 | on a table with one row a key, a look-up and write with nothing in between leave table and log as the save does as one operation |
| SaveRaces.CollideIff | models/tcp_route.go:16-39 | two rows of one key can come to be stored together exactly if the unique index does not hold them to be the same |
| SaveRaces.HttpTwice | models/route.go:16-21 | for any HTTP route and any two contents there is an interleaving of saves that stores both: the tag of these columns is not one that gorm reads, and no migration creates the index |
| SaveRaces.TcpTwiceIff | migration/V11_enable_backend_mtls.go:31-40 | two rows of one TCP key can arise exactly if its SNI hostname is nil or their TLS flags differ |
| SaveTags.RightIff | models/route.go:63-73 | in every interleaving of split saves and removals with unique keys, a router with the tag rules is right about a key at every point if and only if no write of it lands under an index not larger than the stored one while showing something else |
| SaveTags.EclipsedHow | db/db_sql.go:541-549 | such an update, unless its index wrapped, was overtaken: between its look-up and its write another save wrote the same row |
| SaveTags.UpdateIsEclipsed | db/db_sql.go:541-549 | for any route there is an interleaving of saves after which the table stores one version and a router with the tag rules holds another under the same tag |
| Expiry.RunDated | db/db_sql.go:367-368 | a stored row expires exactly its ttl after the last upsert of its key |
| Expiry.NeverPrunedEarly | db/db_sql.go:150-157 | a prune selects a row only after the ttl of its last upsert is over, although the column loses up to a second |
| Expiry.PruneEmptiesTable | db/db_sql.go:195-218 | more than the maximal ttl and one second after the last upsert one prune leaves the table empty |
| PruneInterleaving.ActKeepsInv | db/db_sql.go:159-227 | every step keeps unique keys, at most one running prune, and distinct, issued, key-stable rows in its hands |
| PruneInterleaving.AloneIsAtomic | db/db_sql.go:195-221 | a prune from its tick to its return with nothing in between, failing or not, leaves table and log as the prune does as one operation, and no prune running |
| PruneHistory.SingleFlight | db/db_sql.go:195-197 | in every interleaving at most one prune of a kind runs, and the in-flight word counts it |
| PruneHistory.FoundEarlier | db/db_sql.go:198-208 | the rows a prune is about to delete are what its own, last find returned |
| PruneHistory.StoredAllAlong | db/db_sql.go:195-222 | a row still stored under a guid issued earlier was stored then too, under the same key |
| PruneHistory.RemovedWasExpired | db/db_sql.go:195-212 | whatever happened since, each row a prune deletes was stored, under the same key, and expired when the find of that very prune ran; none was created after it |
| PruneRenewal.RemovedUnlessRenewed | db/db_sql.go:198-212 | in every interleaving a deleted row that was not upserted since the find is the row found, unchanged, and expired at the time of the delete |
| PruneRenewal.RemovedIffNotRenewed | db/db_sql.go:198-212 | for positive ttls and a column that loses less than a second: a deleted row is the row found if and only if it was not upserted since; if it was, the row found had expired before, the row deleted expires a whole ttl after that upsert, and until then no find would select it |
| PruneHistory.GaugeDrift | metrics/metrics.go:59-72 | in every interleaving the gauge is the row count plus the unreported expiries minus the rows that prunes found but no longer deleted |
| PruneHistory.GaugeRightIff | metrics/metrics.go:110-118 | between prunes the gauge is right exactly when each delete affected as many rows as its find returned |
| PruneReplay.ReplayFollows | db/db_sql.go:184-189 | in every interleaving the replayed view is the table without the lost keys, up to expiries still to be reported |
| PruneReplay.ReplayRightIff | db/db_sql.go:184-189 | between prunes the log rebuilds the table exactly when no expiry was reported for a key created again and not upserted since |
| PruneTags.TagsFollow | docs/03-modification-tags.md:71-122 | in every interleaving in which the key's index does not wrap and its tag guids are new, a router with the documented rules lacks the key exactly if it is lost, holds it although deleted exactly if it is stray, and otherwise holds what is stored, up to an expiry still to be reported |
| PruneTags.TagsRightIff | db/db_sql.go:213-218 | under the same assumption, between prunes it is right about the key exactly when the key is neither lost (reported as expired after it was created again, and not upserted or deleted since) nor stray (deleted by a prune under a newer tag than the one found, and not created since) |
| PruneTags.RouterRightIff | db/db_sql.go:213-218 | and about the whole table exactly when that is so of every key |
| PruneRaces.RefreshedRouteIsPruned | db/db_sql.go:199-208 | for any route there is a history in which a prune removes it right after it was renewed |
| PruneRaces.RecreatedRouteIsLost | db/db_sql.go:213-218 | for any route there is a history after which it is stored, missing from the replayed view and from a router with the tag rules, and counted out of the gauge |
| PruneRaces.RenewedRouteIsStray | db/db_sql.go:213-218 | for any route there is a history after which the table and the replayed view are empty, nothing is lost, and a router with the tag rules still holds the route |
| SqlDatabase.SqlDb.ReadRoute | db/db_sql.go:389-405 | the row with the key, the zero route if there is none, the database's error; never the duplicate error |
| SqlDatabase.SqlDb.UpdateRoute | db/db_sql.go:357-371 | keeps guid and key, increments the tag, takes the new ttl if given and the new log guid if it is not empty, and restarts the expiry |
| SqlDatabase.SqlDb.SaveRoute | db/db_sql.go:407-438 | table, hub and error are those of an upsert by key, with every failure path; never the duplicate error |
| SqlDatabase.SqlDb.DeleteRoute | db/db_sql.go:440-454 | table, hub and error are those of a delete by key; never the duplicate error |
| SqlDatabase.SqlDb.PruneRoutes | db/db_sql.go:195-221 | removes and reports exactly the rows the query found, or nothing on failure |
| SqlDatabase.SqlDb.FindExistingTcpRouteMapping | db/db_sql.go:489-516 | the mapping with all key columns equal, a nil SNI hostname being a value of its own; never the duplicate error |
| SqlDatabase.SqlDb.UpdateTcpRouteMapping | db/db_sql.go:344-355 | isolation segment and rewrite hostname are the new ones; instance, ALPNs and TLS flag are the old ones; guid and key kept, tag incremented, ttl taken if given, expiry restarted |
| SqlDatabase.SqlDb.SaveTcpRouteMapping | db/db_sql.go:535-567 | table, hub and error are those of an upsert by key, with every failure path (`TableLaws` and `TcpColumns` say what these are); never the duplicate error |
| SqlDatabase.SqlDb.DeleteTcpRouteMapping | db/db_sql.go:569-583 | table, hub and error are those of a delete by key; never the duplicate error |
| SqlDatabase.SqlDb.PruneTcpRouteMappings | db/db_sql.go:166-191 | removes and reports exactly the mappings the query found, or nothing on failure |
| SqlDatabase.SqlDb.FindSimilarTcpRouteMappings | db/db_sql.go:476-487 | lists each stored mapping of that external port, with that SNI hostname and expiring after now, once, and no other; a nil hostname is never listed |
| SqlDatabase.FindExpired | db/db_sql.go:150-157 | lists each row whose kept expiry is more than a second past once, and no other |
| SqlDatabase.CollectGuids | db/db_sql.go:204-207 | the guid list is as many empty strings as rows, followed by their guids |
| Batches.BatchIsRun | handlers/routes_handler.go:83-89 | saving a batch, to the end or to the first failure, is a run of single saves |
| Batches.BatchFails | handlers/routes_handler.go:83-89 | a batch that fails fails with the error of the first save that fails, on the table as left by those before it |
| TcpUpsert.ValidateTcpRouteMapping | handlers/validator.go:192-242 | no objection exactly when guid, ip and ports are given and in range, a checked ttl is between 1 and the maximum, and ALPNs come with front-end TLS |
| TcpUpsert.Verdict | handlers/validator.go:149-180 | a mapping is accepted exactly when it passes the basic checks, its router group exists, and every similar mapping has its front-end TLS flag |
| TcpUpsert.Objections | handlers/validator.go:149-242 | each of the eleven objections exactly in its case: the first column, in the order of the checks, that is not in order |
| TcpUpsert.AcceptedIff | handlers/tcp_route_mappings_handler.go:88-105 | a batch is accepted if and only if for each mapping the look-up works, its columns are in order, its router group is known, and every stored row of its external port and hostname (a nil one taken as empty) that expires after the look-up has its TLS flag |
| TcpUpsert.FirstToFail | handlers/tcp_route_mappings_handler.go:88-105 | otherwise the answer is that of the first mapping that does not pass: unavailable if its look-up failed, else rejected with the objection to it |
| TcpUpsert.AllDefaulted | handlers/tcp_route_mappings_handler.go:74-77 | a given ttl is kept, a missing one becomes the maximum, and nothing else changes |
| TcpUpsert.ValidateCreateTcpRouteMapping | handlers/validator.go:149-180 | the loops over groups and similar mappings reach that verdict, with the same first objection |
| TcpUpsert.TcpRouteMappingsHandler.Upsert | handlers/tcp_route_mappings_handler.go:74-115 | nothing is saved if the groups cannot be read or some mapping of the batch does not pass, and the answer is then not a success; else exactly the mappings before the first failing save are saved |
| TcpUpsert.TcpRouteMappingsHandler.CheckBatch | handlers/tcp_route_mappings_handler.go:88-105 | no answer if and only if every mapping passes, judged against the table before any save; else the first look-up failure or objection |
| TcpUpsert.TcpRouteMappingsHandler.SaveBatch | handlers/tcp_route_mappings_handler.go:107-115 | mappings are saved in order up to the first failure |
| TcpUpsert.AcceptedIsBounded | handlers/validator.go:223-233 | every save of an accepted batch has a ttl between 1 and the maximum |
| FrontendTls.SaveAgrees | db/db_sql.go:541-566 | saving a mapping keeps rivals in agreement exactly when its key is stored or it agrees with every stored rival, expired or not |
| FrontendTls.BatchAgrees | handlers/tcp_route_mappings_handler.go:107-113 | a batch keeps the agreement if and only if the part of it that is saved, all or what comes before the first failure, is compatible with the table before it |
| FrontendTls.AcceptedIsCompatible | handlers/validator.go:169-177 | a consistent batch that passes validation while no stored row has expired is compatible |
| FrontendTls.AgreesIff | handlers/tcp_route_mappings_handler.go:88-113 | over any run of upserts, deletes and prunes stored rivals agree after every step if and only if of each accepted batch the saved part was compatible with the table it found |
| FrontendTls.AlwaysAgrees | handlers/validator.go:169-177 | if batches are consistent and find no expired row still stored, they agree after every step, with failures part way |
| FrontendTls.ExpiredRivalComesBack | db/db_sql.go:479-482 | three accepted upserts leave two live rivals that disagree, because an expired row was not looked at and then renewed |
| FrontendTls.ConcurrentRivalsDisagree | handlers/tcp_route_mappings_handler.go:88-113 | two requests that are both validated against the empty table are both accepted, and saving one after the other leaves rivals that disagree |
| HttpUpsert.Verdict | handlers/validator.go:60-134 | no objection exactly if route and route-service url hold no '?' or '#' and parse to themselves, a route-service url starts with https://, port, route and ip are given, and the ttl is between 1 and the maximum; a bad route-service url is objected to as such |
| HttpUpsert.Objections | handlers/validator.go:30-87 | each other objection exactly in its case: the first column, in the order of the checks, that is not in order |
| HttpUpsert.AllDefaulted | handlers/routes_handler.go:72-75 | a given ttl is kept, a missing one becomes the maximum, and nothing else changes |
| HttpUpsert.ValidateCreate | handlers/validator.go:30-48 | no objection exactly when `Verdict` has none to any route; otherwise the objection to the first route that has one |
| HttpUpsert.RoutesHandler.Upsert | handlers/routes_handler.go:72-91 | a registration is rejected, and nothing saved, if and only if some route has a column out of order; else exactly the routes before the first failing save are saved |
| HttpUpsert.AcceptableIsBounded | handlers/validator.go:37-45 | every save of an accepted batch has a ttl between 1 and the maximum |
| HandlerRuns.HttpRequestsKept | handlers/routes_handler.go:72-91 | after any run of registrations (rejected, complete or cut short), deletions and prunes the log rebuilds the table, the gauge counts it, no row expires more than the longest ttl after the last upsert, and one prune more than a second later empties it |
| HandlerRuns.TcpRequestsKept | handlers/tcp_route_mappings_handler.go:74-115 | the same of TCP mappings, each batch judged against the table it finds |
| EventStream.Name | db/event.go:20-31 | creations and updates are named "Upsert", deletions and expiries "Delete", and nothing else is |
| EventStream.ActKeepsInv | handlers/event_stream_handler.go:81-112 | every step keeps received, in hand and buffered events a beginning of what was emitted, and the output in order |
| EventStream.DroppedIff | db/db_sql.go:138-140 | in every interleaving an open subscriber is dropped by an event exactly when 1024 events wait for it; otherwise the event waits behind them |
| EventStream.DeliveredHow | handlers/event_stream_handler.go:84-103 | the next event is written under the next id, unless the write fails, and then serving goes on; an invalid one ends it |
| EventStream.HandlerReturns | handlers/event_stream_handler.go:86-111 | after a closed channel, a client that left or an invalid event the handler never writes again |
| EventStream.StreamIsFaithful | handlers/event_stream_handler.go:81-103 | in every interleaving written ids are 0, 1, 2, ..., no event is named "Invalid", and the events are the emitted ones in order, without omission unless a write failed |
| EventStream.NothingOutstanding | db/db_sql.go:638-657 | an open connection with nothing on the way and no failed write has written everything emitted |
| EventStream.DispatcherIsStuck | handlers/event_stream_handler.go:107-110 | a dispatcher with anything in hand or buffered when the handler returns never exits, and keeps what it has in hand |
| EventStream.LeavingExits | handlers/event_stream_handler.go:107-110 | when a client leaves with nothing on its way the dispatcher's next step is to exit, without the hub's help |
| EventStream.ExitsIff | db/db_sql.go:638-657 | after the handler's return some continuation lets the dispatcher exit exactly when it has exited or has nothing left to send |
| EndToEnd.ClientSeesTable | event_source.go:107-116 | in every interleaving of requests, prunes and stream, a client that applies the stream by name and JSON and has kept up holds the table without the lost keys; between prunes, exactly the stored routes if and only if no key is lost |
| PortRanges.ParseRangeIff | models/router_groups.go:254-284 | a text parses to a range exactly when it is one decimal number for both ends, or two with a dash between, in order and from 1024 to 65535 |
| PortRanges.PortText | models/router_groups.go:258-264 | a text without a dash is its number from 1024 to 65535, and else an invalid port |
| PortRanges.DashText | models/router_groups.go:265-280 | a text with one dash fails on its start, then its end, then their order, then the least port, and else is that range |
| PortRanges.DashesText | models/router_groups.go:281-284 | a text with more dashes is refused for them |
| PortRanges.ParsedIff | models/router_groups.go:179-193 | a text is read as a list of ranges exactly if it is pieces with commas between, each denoting its range |
| PortRanges.Parse | models/router_groups.go:179-193 | all ranges in order, or the error of the first piece that has one |
| PortRanges.ItoaParses | models/router_groups.go:258-264 | an integer written out parses exactly when it is a port from 1024 to 65535, and to itself |
| PortRanges.UnmarshalList | models/router_groups.go:126-138 | the text of an integer list is its elements joined by commas |
| PortRanges.YamlListParses | models/router_groups.go:113-144 | that text parses exactly when the list is non-empty and all its elements are usable ports, and gives them back in order |
| PortRanges.RangesRoundTrip | models/router_groups.go:179-193 | every list of ranges the parser can produce, written out, is parsed back as it was |
| PortRanges.OverlapsIffShared | models/router_groups.go:215-227 | the arithmetic test holds exactly when the two ranges share a port |
| PortRanges.OverlapsV6Iff | migration/v6/router_groups.go:215-227 | the test with a 16-bit sum agrees with it exactly when the two lengths sum below 65536 |
| PortRanges.Validate | models/router_groups.go:146-177 | succeeds exactly when the text parses, no port is in two ranges and, if conflicts are fatal, no reserved port is covered; each error exactly in its case |
| PortRanges.DisjointSize | models/router_groups.go:152-163 | ranges that pass hold as many distinct ports as their sizes add up to |
| PortSearch.MarkNeverEnds | client.go:193-195 | the marking loop of a range up to 65535 is still running after any number of steps |
| PortSearch.SearchEndsIff | client.go:182-207 | the search ends exactly when no group it reaches has a range up to 65535; then it yields the least free port, the first parse error, or exhaustion exactly when all are taken, for every larger number of steps alike |
| PortSearch.GetNextAvailablePort | client.go:182-207 | for any groups and range the program's loops with 16-bit counters, cut off after any number of tests, compute the search of which `SearchEndsIff` speaks |
| PortReservation.ValidateGroup | models/router_groups.go:86-109 | no error exactly when the group has name and type, ports if TCP, none if HTTP, and valid ones if any; each kind of error exactly in its case |
| PortReservation.ValidateGroups | models/router_groups.go:77-84 | no error exactly when every group is valid |
| PortReservation.RouterGroupService.SaveRouterGroup | db/db_sql.go:277-296 | a set lock or a failing call is reported and changes nothing; otherwise the group with the guid gets the new ports and any new name or type, and a new guid is appended |
| PortReservation.RouterGroupService.CreateRouterGroup | handlers/router_groups_handler.go:203-232 | an existing group of that name and type is returned unchanged; otherwise the group is saved exactly when all groups are valid with it; each failing read, uuid or save is answered in its place and changes nothing |
| PortReservation.RouterGroupService.UpdateRouterGroup | handlers/router_groups_handler.go:107-135 | only changed ports are saved, and only if the group stays valid; each failing read or save is answered in its place and changes nothing |
| PortReservation.RouterGroupService.DeleteRouterGroup | db/db_sql.go:298-316 | a set lock, a failing call or a missing group is answered in its place and changes nothing; otherwise the group is gone and every other is kept |
| RouterGroupRuns.RunKeepsSound | handlers/router_groups_handler.go:107-232 | over any run of creations, updates and deletions, with locks and failures anywhere, every group stays valid, and no two share a guid, or both name and type |
| RouterGroupRuns.CreateAnswers | handlers/router_groups_handler.go:203-232 | a creation succeeds if and only if the groups can be listed, none has the name and type, there is a uuid, all groups are valid and so is the new one, and nothing hinders the save; each other answer exactly in its case |
| RouterGroupRuns.CreateWrites | handlers/router_groups_handler.go:214-227 | only a successful creation writes, and with a new uuid it appends the group |
| RouterGroupRuns.UpdateAnswers | handlers/router_groups_handler.go:107-135 | an update of a stored group succeeds if and only if it can be read and the ports are the stored ones, or are valid for it and nothing hinders the save; then its ports are the new ones and all else is as it was; each other answer exactly in its case |
| RouterGroupRuns.UpdateMissing | handlers/router_groups_handler.go:108-117 | without such a group the answer is not-found, or the failure of the read, and nothing changes |
| RouterGroupRuns.WriteFaultIff | db/db_sql.go:277-284 | a save fails exactly if a lock is set or a call fails, and with the backup error exactly if a lock is |
| RouterGroupRuns.DeleteAnswers | db/db_sql.go:298-316 | a delete succeeds if and only if the group is there and nothing hinders it, and then exactly the other groups are left; each other answer exactly in its case |
| RouterGroupRuns.SavedColumns | db/db_sql.go:334-342 | a save over a group keeps its guid, takes the ports, and name and type unless they are empty |
| RouterGroupRuns.CreateTwice | handlers/router_groups_handler.go:208-212 | once a creation was answered with a group, another for the same name and type changes nothing, whatever its ports, and is answered with a group exactly if the groups can be read |
| PortReservation.ReservePort | client.go:131-180 | store and answer of one reservation for any store and any failures, including the crash on an empty name with an empty store and the loop that never ends; `ReservationText` says which answer comes when |
| RangeRequests.RequestedIff | client.go:132-144 | a call asks for a range exactly if its text, without a comma, denotes that range and it has more than one port |
| RangeRequests.RefusedIff | client.go:132-144 | a text is refused as a single port, as several ranges or as unreadable exactly if it denotes one port, lists more than one range, or lists none |
| ReservationText.HoldsPortIff | client.go:184-197 | a group holds a port exactly if its text lists a range that covers it |
| ReservationText.AnswerUnsearched | client.go:132-149 | a call is refused for its text, or because the groups cannot be listed, exactly in these cases |
| ReservationText.AnswerByText | client.go:146-154 | a call for a range, on a valid store on which the search ends: it is told of an unreadable group exactly if some group has no ports, of exhaustion exactly if none has and every port of the range is held, and any port it returns is the least of the range that nobody holds |
| ReservationText.FreePortReturned | client.go:151-180 | where there is a least port that nobody holds it is returned if and only if nothing keeps the call from storing it or from being answered with a group that is there; else the call crashes exactly on an empty name with an empty store, or reports that it could not save |
| Reservations.SearchableIff | client.go:185-189 | in a valid store the search fails on an unreadable group exactly when some group has no ports |
| Reservations.PortlessGroupBlocks | client.go:185-189 | while a group without ports is stored, such as one of type http, no reservation succeeds |
| Reservations.ReserveKept | client.go:131-180 | a call on any valid store, whatever fails on its way: groups stay valid and distinct, no port gets into two of them, nothing changes without success, it hangs exactly if it gets to search groups that reach port 65535, and a port it returns is the least of the range that nobody holds, given to one group as its only port while every other group stays as it was |
| Reservations.StoredUnlessUnseen | client.go:162-177 | in any valid store a returned port is stored for the group asked for if and only if not both the look-up by name failed and a group of that name and of type tcp is there |
| Reservations.RunKept | client.go:131-180 | so does every call of any run |
| Reservations.RunKeepsSingle | client.go:151-177 | if every group holds a single port, so it is after any run of reservations; from an empty store always |
| Reservations.RunKeepsOther | client.go:162-177 | over any run a group stays exactly as it is as long as no call asks for it |
| Reservations.RunNeverHangs | client.go:191-196 | from a store below port 65535, with ranges below it, no call of any run hangs |
| Reservations.HangsForEver | client.go:191-196 | once the search does not end, no reservation changes the store or succeeds, and every one that gets to search hangs |
| Reservations.LastPortHangs | client.go:191-196 | after a granted reservation of port 65535 every later one that gets to search hangs |
| Reservations.FailedLookupReturnsUnstoredPort | client.go:162-177 | when the look-up by name fails for a tcp group that is there, a port is returned that no group holds, before or after |
| RouterGroupLocks.PastMeansPassed | db/db_sql.go:277-304 | a call past a lock's check made that check while the lock was clear |
| RouterGroupLocks.LateWritesPassedBefore | db/db_sql.go:277-316 | a write that lands while reads or writes are locked belongs to a call that passed that lock's check before it was last set |
| RouterGroupLocks.SetLockHolds | db/db_sql.go:65-92 | while a lock is set no call newly passes its check |
| RouterGroupLocks.DrainedIsFrozen | db/db_sql.go:298-332 | once no call is past a set lock's check the groups are constant until it is cleared |
| RouterGroupLocks.AloneIsAtomic | db/db_sql.go:277-316 | a save or delete whose steps nobody disturbs leaves the groups as it does as one operation, with the locks as they are |
| Migrations.InitializeMigrations | migration/migration.go:77-115 | the program's list is the versions 0 and 2 to 11, ascending |
| Migrations.Runner.RunMigrations | migration/migration.go:117-200 | record, executed migrations and answer of one run, for every combination of failures; the rows below say what they are |
| Migrations.DoneIff | migration/migration.go:117-200 | a run over an ascending list that ends in a version is done if and only if it comes to no error; from below it has then run exactly the listed versions above the recorded one, in order, each completed and recorded, and the record is at the last one; else it changed nothing |
| Migrations.NewDeedsAre | migration/migration.go:184-198 | those are exactly the listed versions above the recorded one, in ascending order |
| Migrations.StopsAt | migration/migration.go:184-198 | a run that fails in its list has run everything before the first failing step and that step, unrecorded; the record is at its version exactly if the save took effect although it was reported |
| Migrations.EarlyErrors | migration/migration.go:127-181 | an error before the list changes nothing, unless the commit took effect although it was reported: then only the target is new, or the record is seeded |
| Migrations.WithoutLast | migration/migration.go:118-126 | an empty list is done, and one that ends in nil stops the program, before anything changes |
| Migrations.MigrateKeepsInv | migration/migration.go:117-200 | a run keeps all guarantees, never lowers the recorded version, and ends at the last version if it succeeds from below it |
| Migrations.StartsKeepInv | migration/migration.go:184-198 | over any number of starts with prefixes of one ascending list: recorded version at most its target and never lower, every version up to it completed, in order without gap, and repeated only if it or its recording failed |
| Migrations.FreshStarts | migration/migration.go:144-153 | all of this holds from a database without a record |
| TokenFetching.FirstToken | uaaclient/token_fetcher.go:93-97 | the attempt at which the retry loop stops: the first answer with a token |
| TokenFetching.TokenFetcher.FetchToken | uaaclient/token_fetcher.go:78-116 | cache, answer and number of attempts of one call |
| TokenFetching.TokenFetcher.UpdateCachedToken | uaaclient/token_fetcher.go:122-126 | the token is cached until the buffer before its expiry |
| TokenFetching.CacheHoldsLast | uaaclient/token_fetcher.go:113-115 | over any run of calls the cache holds the last token the server gave |
| TokenFetching.NextCall | uaaclient/token_fetcher.go:85-116 | after any run: an uncontacted server means the last token, not yet near expiry and not forced; at most maxRetries + 1 attempts, stopping at the first token; the error is that of the last attempt, beside a token too; no token, no change |

## Where code and documentation disagree

- docs/03-modification-tags.md calls the tag index monotonically incremented; the code's 32-bit
  index wraps (models/route.go:63-65). The model wraps.
- models/route.go:16-21 tags its columns `unique_index`, but gorm reads only `index` and `uniqueIndex`
  (vendor/gorm.io/gorm/schema/index.go:34-35), and no migration creates that index. `SaveRaces` has
  none for HTTP routes; on a database that still has it from earlier times, `CollideIff` says that no
  two rows of a route can be stored.
- db/db_sql.go:494-495 wants the look-up of a TCP mapping to be by all fields of the unique index; the
  index of migration/V11_enable_backend_mtls.go:35-38 has the TLS flag besides. `SaveRaces` follows both.
- db/db_sql.go:151-155 speaks of a store that loses less than a second of an expiry downwards; that
  is the assumption `Expiry.Truncates`. Nothing else depends on what the column keeps.

## Left out

- HTTP transport, JSON and URL libraries, TLS, authorisation and token validation, logging: `HttpUpsert` takes the URL library's verdict as an argument, and JSON is the projection `RouteTable.Show`.
- The database behind gorm: dialects, column defaults such as the one of the backend TLS port, collations, and the errors of unique indices outside `SaveRaces` (a group name that the index of migration/V2_update_rg_migration.go refuses is a failing write). A failed write leaves routes and groups unchanged; only in `Migrations` can one take effect although it is reported as failed.
- A write and its event as two steps, deletes and prunes interleaved with split saves, and a validation interleaved with other saves (beyond `ConcurrentRivalsDisagree`): `SaveRaces` and `SaveTags` split saves into look-up and write; elsewhere each request to the route tables is one step, and prunes, streams and lock checks are split.
- The bodies of the migrations, and a run with no database handle, which does nothing.
- Durations beyond 64 bits of nanoseconds: times and ttls are unbounded integers.
- The gauges set at the metrics ticker, and subscription counts.
- Read-only endpoints, `Matches` and the text of error messages: they hand out or compare what is stored and decide nothing that the results here depend on.
- Several instances of the API on one database: the model has one, through whose hubs every change is reported.
