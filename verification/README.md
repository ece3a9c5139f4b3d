# pinhead: a verified model

pinhead is a virtual filesystem server: frontends (9P2000, FUSE, SFTP) turn client
requests into operations on paths, a router matches each path to a Lua handler, and
a pool of workers runs the handlers. This project models its protocols and codecs
in Dafny and proves what they promise over every run, every interleaving and every
input. `dafny verify dfyconfig.toml` checks all of it.

| module | models |
|---|---|
| `WorkerPool` | the dispatcher and the pinned workers of `src/worker.rs`, with requests and worker deaths coming in any order |
| `RequestPipeline` | router, dispatcher and workers joined by channels and one-shot replies, as `src/main.rs` wires them |
| `Routes` | route registration, the merge into per-pattern tables, handler selection and the workers' lookup by name |
| `NinepTable`, `NinepSession`, `NinepWalk` | the 9P2000 server: the shared fid and path tables, one step per lock section; any number of connections; the walk loop |
| `NinepMessages`, `NinepMux`, `NinepStat` | message bodies, mux frames and reassembly, stat records and directory reads |
| `Paths`, `NinepClient` | path strings, SFTP `realpath`, and the 9P client composed with the server |
| `Store` | the writer/reader tasks behind a database handle |
| `LuaJson`, `Base64`, `Reads` | the Lua/JSON conversions, the key decoder, piecewise reads and FUSE paging |
| `Wrappers`, `Arithmetic`, `Decimals`, `Folds`, `Bytes` | shared definitions |

Handlers, the matchit trie, SQLite, the Lua virtual machine's numbers and the
answers of the router to a 9P handler are parameters: the theorems hold for all of
them. Strings on the wire are byte sequences. A run is a sequence of states and the
events between them, starting from the program's initial state.

Where a stated promise fails, the model keeps what the code does and a lemma says
exactly when the promise holds: `NinepSession.RunsKeepTablesIff` (renames) and
`LuaJson.RoundTripExactlyWhenKept` (JSON through Lua).

Points at which the code differs from what its comments or the standards suggest,
followed as the code has them: the dispatcher starts `min` workers even when `max`
is smaller; a request sent to a dead worker is dropped, not retried; an op list that
spells `"*"` acts as a wildcard; only the last name of a walk is looked up; a read
ignores the requested count; a Twalk body of 9 bytes and a Tversion body of 5 index
out of range.

## Model

| member | source | states |
|---|---|---|
| `WorkerPool.RunsConserveRequests` | src/worker.rs:58-192 | in every state of every run, with any producer and any worker deaths, each received request is in exactly one place (queued, executing, answered, dropped); the pool never exceeds max(min, max); after a cleanup tick no finished worker is left and at least min(min, max) unfinished ones exist |
| `WorkerPool.StepPlaces` | src/worker.rs:77-123 | a step changes how many places a request is in only by receiving it |
| `WorkerPool.StepValid` | src/worker.rs:77-192 | every dispatcher and worker step keeps conservation and the workers' own consistency |
| `WorkerPool.StepSize` | src/worker.rs:89-121 | the exact size after each step: a receive behind more than five requests adds a worker below max, a request that meets a dead worker costs that worker, a tick leaves only unfinished ones, at least min(min, max) |
| `WorkerPool.TickRenews` | src/worker.rs:111-121 | after a tick exactly the unfinished workers are kept, and fresh, ready ones added up to min(min, max) |
| `WorkerPool.RetainConcat` | src/worker.rs:113 | cleaning up keeps the order: it distributes over concatenation |
| `WorkerPool.DeadWorkerGoesAtTick` | src/worker.rs:111-121 | a worker that exited and was joined is gone after the next tick; whatever takes its place is ready and has a new identity |
| `WorkerPool.DeadWorkerIsReplaced` | src/worker.rs:101-108 | a request that meets a dead worker is lost with it; the last worker moves into the slot and gets the next request |
| `WorkerPool.NoWorkersMeansError` | src/worker.rs:95-100 | with no worker and none added the caller is told so |
| `WorkerPool.WorkersServeInOrder` | src/worker.rs:172-191 | every worker serves first come, first served, answers with the call's own result, and drops its whole line when it dies |
| `WorkerPool.StepRotates` | src/worker.rs:95-108 | a receive that leaves the set of workers unchanged queues on the worker `next` points at; nothing else moves the rotation |
| `WorkerPool.RunRotates` | src/worker.rs:95-108 | over a stretch of a run with unchanged workers the targets are exactly the rotation from where `next` stood |
| `WorkerPool.RoundRobinIsFair` | src/worker.rs:95-108 | k dispatches to an unchanged set of n workers give each floor(k/n) or ceil(k/n), whatever the workers do meanwhile |
| `WorkerPool.RetainUnfinished` | src/worker.rs:113 | the loop keeps exactly the workers that are not finished |
| `WorkerPool.Dispatcher.constructor` | src/worker.rs:64-72 | start-up spawns `min` workers |
| `WorkerPool.Dispatcher.SpawnWorker` | src/worker.rs:135-149 | pushes one fresh worker |
| `WorkerPool.Dispatcher.OnRequest` | src/worker.rs:79-109 | the receive branch, updating `workers` and `next` in place, is the pool's `Receive`; every index is in range |
| `WorkerPool.Dispatcher.OnTick` | src/worker.rs:111-121 | the cleanup branch is the pool's `Tick`; no finished worker is left |
| `RequestPipeline.EventKeepsInv` | src/router.rs:107-232 | every event of router, dispatcher and workers keeps the joint invariant: order, one in flight, faithful answers, pool size |
| `RequestPipeline.RunsKeepInv` | src/router.rs:107-232 | the invariant holds in every state of every run |
| `RequestPipeline.PipelineIsSerial` | src/main.rs:81-89 | in every run at most one request is with the handlers; frontends are answered in router-channel order, once, with what became of their own request; calls start in that order; the pool never exceeds `min`; inflation and "handler task is gone" are unreachable |
| `RequestPipeline.InvMeansSerial` | src/router.rs:208-231 | at most one request is unresolved and it is held once |
| `RequestPipeline.CallsNeverOverlap` | src/worker.rs:172-191 | two workers never run handler calls at the same time |
| `RequestPipeline.NeverInflates` | src/worker.rs:89-93 | the dispatcher finds its channel empty behind every request it receives |
| `RequestPipeline.EventRank` | src/router.rs:107-232 | every advancing event brings the oldest unresolved request closer to its resolution; nothing but a submission moves away |
| `RequestPipeline.NeverStuck` | src/router.rs:127-232 | while a request is unresolved, some advancing event can happen |
| `RequestPipeline.RunsResolveEverything` | src/router.rs:112-120 | a run has at most six advancing events per request it was sent, so it comes to rest |
| `RequestPipeline.RestMeansResolved` | src/router.rs:112-120 | a run at rest - no advancing event can happen - has resolved every request it was sent |
| `Routes.HandlerNameInjective` | src/handler.rs:61 | generated handler names are distinct for distinct indices |
| `Decimals.DecimalDenotes` | src/handler.rs:61 | the numeral of an index denotes it |
| `Routes.Registrar.Register` | src/handler.rs:294-330 | records the call; refuses exactly what is neither nil, true, a string nor a table, and then changes nothing |
| `Routes.MergeRoutes` | src/main.rs:56-73 | the in-place merge loop computes `Merge` |
| `Routes.LastClaim` | src/main.rs:53-55 | the reference rule: the last registration of the pattern that lists the key, and none after it does |
| `Routes.MergeHoldsLastClaim` | src/main.rs:56-73 | for every pattern and key the merged table holds the name of the last claimant, or nothing |
| `Routes.MergePatterns` | src/main.rs:57-63 | the table's patterns are exactly the registered ones, each stored under itself |
| `Routes.SelectFollowsRule` | src/router.rs:156-176 | selection by op with wildcard fallback names the registration the rule names |
| `Routes.RuleServes` | src/main.rs:50-55 | the rule in plain words: the last registration of the pattern to list the op; if none lists it, the last one for all ops |
| `Routes.FuncsHoldEveryName` | src/handler.rs:328 | the function map still holds every registration's own function at the end |
| `Routes.ResolutionRefinesRule` | src/router.rs:127-205 | for every sequence of registrations, path and op: a forwarded request runs exactly the function of the last registration that lists the op, else, when none does, of the last one for all ops; a request not forwarded has no route, no registration, or is a file operation on a directory |
| `Routes.ParsedOpsClaim` | src/handler.rs:299-321 | what a registration claims is what the Lua value says: a string itself, nil and true the wildcard, a table its strings or, having none, the wildcard; anything else is refused |
| `Routes.LastCall` | src/main.rs:50-55 | the rule over the script's calls: the last one that claims the key, and none after it does |
| `Routes.ScriptDecides` | src/handler.rs:700-722 | end to end from the script's calls: the function of the last call claiming the op, else of the last claiming the wildcard, runs - the global default never; refused exactly if there is neither, or if the path is a directory and the op opens, reads, writes or releases |
| `Routes.NamesAreDistinct` | src/fsop.rs:22-42 | operations are told apart by their names |
| `Routes.ReadOnlyRoute` | src/handler.rs:303-305 | a handler registered for "read" serves reads and no other operation |
| `Routes.NamesAreNotWildcard` | src/fsop.rs:22-42 | no operation is named like the wildcard |
| `NinepTable.AllocOk` | src/frontend/ninep.rs:146-163 | allocation keeps the table injective and returns a qid that names the path; a known path changes nothing, a new one is added with its kind and nothing else |
| `NinepTable.QidIsUnique` | src/frontend/ninep.rs:147-152 | on a consistent table the result does not depend on the hash map's order |
| `NinepTable.CommitCreateOk` | src/frontend/ninep.rs:603-611 | the locked tail of create keeps the tables consistent |
| `NinepTable.CommitCreateBinds` | src/frontend/ninep.rs:603-611 | create binds its fid, open, to the new path and adds no other path |
| `NinepTable.RenameKeepsTableIff` | src/frontend/ninep.rs:1040-1048 | the locked tail of a rename, whatever happened since its qid was read, keeps the tables consistent if and only if the fid, if it still exists, still names the file, and the path stays or is unused, no other fid holds the file and the file is not the root |
| `NinepTable.RenameChangesPath` | src/frontend/ninep.rs:1010-1021 | a rename yields the old path only for a name that begins with a slash, directly under the root |
| `NinepTable.RenameReplacesLastName` | src/frontend/ninep.rs:1002-1021 | a rename replaces the last name and keeps the directory, except exactly under "//"; it is one exactly for another, non-empty name |
| `NinepTable.NinepState.constructor` | src/frontend/ninep.rs:129-144 | a new state knows only the root, as qid 0 |
| `NinepTable.NinepState.AllocQid` | src/frontend/ninep.rs:146-163 | the scan over the path table in any order, else the next number |
| `NinepTable.NinepState.SetFidEntry` | src/frontend/ninep.rs:165-175 | binds a fid and nothing else |
| `NinepTable.NinepState.MarkFidOpen` | src/frontend/ninep.rs:515-518 | marks a fid open if it still exists |
| `NinepTable.NinepState.Create` | src/frontend/ninep.rs:603-611 | create's lock section keeps the tables consistent and only adds |
| `NinepTable.NinepState.Clunk` | src/frontend/ninep.rs:830-831 | forgets exactly that fid; every other fid, and every path with its qid, stays; the tables stay consistent |
| `NinepTable.NinepState.Rename` | src/frontend/ninep.rs:1040-1048 | the in-place rename with the qid read earlier, consistent afterwards exactly when it was safe |
| `NinepSession.RepliesMatchRequests` | src/frontend/ninep.rs:261-302 | each handler replies with its own type constant; over every interleaving each connection's replies answer its requests one by one, in order, with the request's tag and its type plus one or Rerror; only a handler still at work or one whose fixed fields were cut short has not replied |
| `NinepMessages.ParsedType` | src/frontend/ninep.rs:261-283 | a parsed request is of the kind its message type announces |
| `NinepMessages.RefusedExactly` | src/frontend/ninep.rs:261-283 | before any handler acts exactly these are refused: unknown types, bodies shorter than the handler's minimum, creates whose fields do not fit |
| `NinepMessages.WstatAmountsTo` | src/frontend/ninep.rs:959-993 | a wstat without a size field is too short, one without type and dev asks for nothing, and attributes are asked for from the mode field on |
| `NinepMessages.ClampMsize` | src/frontend/ninep.rs:305-338 | the server settles on the nearest size in 4096..65536 |
| `NinepSession.HandlersMoveOn` | src/frontend/ninep.rs:305-1071 | a handler that has not replied always has a next event |
| `NinepSession.HandlersFinish` | src/frontend/ninep.rs:305-1071 | each of its events brings it closer to its reply |
| `NinepSession.AttachTakesEffect` | src/frontend/ninep.rs:340-367 | attach binds its fid to qid 0 at "/" and nothing else |
| `NinepSession.ClunkTakesEffect` | src/frontend/ninep.rs:800-835 | clunk forgets its fid, known or not and whatever the handler says; every other fid and every path stays |
| `NinepSession.OpenTakesEffect` | src/frontend/ninep.rs:475-533 | open marks its fid open and nothing else |
| `NinepSession.CreateTakesEffect` | src/frontend/ninep.rs:539-624 | create binds its fid, open, to the name joined to its directory's path; only that path can be new |
| `NinepSession.LooksTakeEffect` | src/frontend/ninep.rs:626-933 | stat reports the fid's path and qid, a directory read the children as the table has them, write and remove reply; none changes the tables |
| `NinepSession.OtherWstatsTakeEffect` | src/frontend/ninep.rs:959-1071 | a wstat that renames nothing is refused, acknowledged or put to the router, and never changes the tables |
| `NinepSession.UnknownFidIsRefused` | src/frontend/ninep.rs:383-392 | a request about an unknown fid, other than a clunk, gets Rerror and changes nothing |
| `NinepSession.RefusalChangesNothing` | src/frontend/ninep.rs:432-440 | what the router refuses, lookups included, gets Rerror and changes nothing |
| `NinepSession.MalformedIsRefused` | src/frontend/ninep.rs:261-283 | a message no handler accepts gets Rerror and changes nothing |
| `NinepSession.VersionAndFlushAnswered` | src/frontend/ninep.rs:305-338 | version and flush are answered at once and change nothing |
| `NinepSession.CutShortWalkIsRefused` | src/frontend/ninep.rs:400-408 | a walk whose body ends before its last name gets Rerror and binds nothing |
| `NinepSession.FidChanges` | src/frontend/ninep.rs:340-1071 | in any interleaving a fid appears only by attach, walk or create, goes only by clunk, and changes only by open or rename |
| `NinepSession.ClunkedFidsStayUnknown` | src/frontend/ninep.rs:800-835 | over every run: once a Tclunk has been answered its fid is unknown, until an attach, walk or create binds it |
| `NinepSession.EventKeepsServer` | src/frontend/ninep.rs:340-877 | every lock section but a rename's keeps the tables and the snapshots in flight consistent and only adds paths; what clients were told stays true if it was |
| `NinepSession.RenameEventKeepsTablesIff` | src/frontend/ninep.rs:1009-1048 | the commit of a rename while other handlers are at work keeps tables and snapshots consistent if and only if the fid still names the file, and the path stays or is unused, no other fid holds the file, no walk stands on it and it is not the root |
| `NinepSession.RunsKeepTablesIff` | src/frontend/ninep.rs:340-1071 | over every run, renames included: tables and snapshots are consistent in every state if and only if every rename was safe when it was committed |
| `NinepSession.RunsKeepServer` | src/frontend/ninep.rs:340-877 | in every state of every run without renames they are consistent, and so is everything any client was told |
| `NinepSession.RunsOnlyGrow` | src/frontend/ninep.rs:128-176 | between any two moments of such a run the path table only grows |
| `NinepSession.QidsIdentifyPaths` | src/frontend/ninep.rs:128-176 | two qids given to any clients at any two moments are equal exactly when they stand for the same path, as intro(5) asks |
| `NinepSession.ChildIsJoin` | src/frontend/ninep.rs:675-686 | a direct child is the directory's path joined with one slash-free name |
| `NinepSession.RenameAloneKeepsTableIff` | src/frontend/ninep.rs:942-1071 | a whole rename with nothing in between moves the fid and its qid to the new path, changes nothing else, and keeps the tables consistent exactly when it is safe |
| `NinepSession.RenameAloneMovesFile` | src/frontend/ninep.rs:1009-1048 | a file renamed in its directory is then at that directory's path joined with the new name |
| `NinepWalk.WalkNamesOk` | src/frontend/ninep.rs:394-459 | walking names keeps the tables consistent, touches no fid and reaches the joined path |
| `NinepWalk.WalkedKind` | src/frontend/ninep.rs:443-444 | a walk's last name makes the fid a directory exactly if it is "", "." or ".."; with no names the kind is kept |
| `NinepWalk.WalkAddsPrefixes` | src/frontend/ninep.rs:394-459 | whatever a walk adds is the path of a prefix of its names |
| `NinepWalk.WalksCompose` | src/frontend/ninep.rs:383-464 | one walk over a + b and a walk over a then b give the same path table, counter and target binding |
| `NinepWalk.WalkLoop` | src/frontend/ninep.rs:394-459 | how far the loop gets and the qid of every prefix it passed |
| `NinepWalk.HandleWalk` | src/frontend/ninep.rs:383-464 | succeeds exactly when the fid is known, all names are present and the last is found; a failing walk changes no fid and adds only proper prefixes |
| `NinepWalk.WalkAloneIsWalkTo` | src/frontend/ninep.rs:369-473 | the server's own events of one walk alone leave exactly the tables of `WalkTo`, so the composition law speaks of the server |
| `NinepWalk.WalkAsksRouter` | src/frontend/ninep.rs:419-441 | no walk of one or more names binds a fid without the router having found its last name |
| `NinepWalk.SharedFileBreaks` | src/frontend/ninep.rs:1040-1048 | a rename to another path breaks the tables whenever two fids hold the file |
| `NinepWalk.RenameCanBreakTable` | src/frontend/ninep.rs:1040-1048 | reachable from a fresh server by an attach and two walks: a rename after which the second fid disagrees with the table |
| `NinepStat.DecodeBodyInverts` | src/frontend/ninep.rs:75-105 | size, qid, mode, length and name are read back from a stat record |
| `NinepStat.SplitFirst` | src/frontend/ninep.rs:75-105 | splitting by the size prefix takes off exactly one record, whatever follows |
| `NinepStat.SplitEntries` | src/frontend/ninep.rs:75-105 | splitting a sequence of records gives each record's fields |
| `NinepStat.ListChildren` | src/frontend/ninep.rs:664-696 | the listing loop, in any order of the path table, encodes each direct child exactly once and nothing else |
| `NinepStat.ReadDirectory` | src/frontend/ninep.rs:645-722 | the bytes a directory read gives at any offset; split at offset 0 they are "." and exactly one record for each known path that is the directory's joined with one slash-free name |
| `NinepStat.DirectoryReadRoundTrips` | src/frontend/ninep.rs:645-722 | splitting a read at offset 0 gives "." and then, for each known path made of the directory's and one slash-free name, its name, qid, kind and mode exactly once, for names up to 65485 bytes |
| `NinepStat.ListedNamesAreDistinct` | src/frontend/ninep.rs:664-696 | the table being injective, no name is listed twice and each leads back to its child |
| `NinepStat.ListingsAgreeInLength` | src/frontend/ninep.rs:674-696 | any two listings of a directory have the same length, in whatever order they visit the children |
| `NinepStat.ReadWholeDirectory` | src/frontend/ninep_client.rs:329-343 | the client's read loop on a directory ends after two reads, the second empty, with "." and each direct child exactly once |
| `NinepStat.ReaddirEntries` | tests/common/mod.rs:438-456 | the tests' decoder, with its own bounds checks, finds the names of any sequence of records, less the empty and dot ones |
| `NinepStat.ReaddirFindsChildren` | tests/common/mod.rs:438-456 | on a directory read at offset 0 it finds exactly the slash-free names, other than "." and "..", under which a path is known in the directory |
| `NinepStat.WstatCarriesName` | src/frontend/ninep.rs:959-1007 | a Twstat carrying a stat record asks for the record's name, unless it is empty, and for its attributes |
| `NinepMux.DecodeInvertsEncode` | src/frontend/ninep.rs:1442-1456 | framing and unframing any sequence of frames is the identity |
| `NinepMux.ReadFrames` | src/frontend/ninep.rs:1501-1533 | the reader task delivers the frames of the wire, and stops at one cut short |
| `NinepMux.DispatchStreams` | src/frontend/ninep.rs:1111-1135 | each stream's channel gets exactly that stream's payloads, in order |
| `NinepMux.InterleavedPayloads` | src/frontend/ninep.rs:1111-1135 | whatever the interleaving, a stream's payloads come out as that stream's own, in order |
| `NinepMux.ParseInvertsEncode` | src/frontend/ninep.rs:1307-1344 | the receive loop recovers any sequence of encoded messages |
| `NinepMux.OversizedMessageStops` | src/frontend/ninep.rs:1325-1329 | a message above the size limit ends the connection; neither it nor anything behind it is delivered |
| `NinepMux.MuxStream.ReadExact` | src/frontend/ninep.rs:1468-1487 | fills the buffer with the next bytes however they are cut into payloads, empty ones included; fails exactly when too few ever come |
| `NinepMux.MuxStream.CopyOut` | src/frontend/ninep.rs:1480-1484 | copies what the current payload has, up to what is needed |
| `NinepMux.MuxStream.Refill` | src/frontend/ninep.rs:1473-1479 | taking the next payload loses no byte |
| `NinepMux.ReadBody` | src/frontend/ninep.rs:1325-1338 | reads exactly a message's body off the stream, or fails when too few bytes ever come |
| `NinepMux.ReadMessages` | src/frontend/ninep.rs:1307-1344 | the connection loop hands on exactly the messages in its byte stream |
| `NinepMux.MuxDeliversEveryStream` | src/frontend/ninep.rs:1111-1135 | any number of streams, any cut of each stream's bytes into payloads, empty ones included, any interleaving of the frames: each runner reads exactly the messages its stream sent, in order |
| `NinepMux.MuxDeliversPrefixes` | src/frontend/ninep.rs:1501-1533 | at every moment a runner has read a prefix of what its stream sends |
| `NinepMux.ReceiveStream` | src/frontend/ninep.rs:1111-1135 | reader, dispatcher, reassembly and message loop put together |
| `Paths.RealpathIdempotent` | src/frontend/sshfs.rs:440-457 | `realpath` is idempotent |
| `Paths.WalkReachesRealpath` | src/frontend/ninep_client.rs:165-189 | for every string, walking it from the root reaches its SFTP real path |
| `Paths.ParentAndName` | src/frontend/ninep_client.rs:428-437 | the split keeps the components and its name has no slash |
| `Paths.CreateActsOnRealpath` | src/frontend/ninep_client.rs:389-409 | parent walk plus name is the real path of the string |
| `Paths.ChildIsOneDeeper` | src/frontend/ninep.rs:675-686 | for canonical paths, a listed child has exactly its directory's components and one more |
| `NinepClient.Negotiated` | src/frontend/ninep_client.rs:143-152 | the adopted msize lies in 4096..65536, and is the one asked for if that does |
| `NinepClient.EncodeWalk` | src/frontend/ninep_client.rs:165-189 | the client's loop builds the Twalk body |
| `NinepClient.WalkOnTheWire` | src/frontend/ninep.rs:383-412 | the server parses a Twalk into the client's own names |
| `NinepClient.ParseTruncatedNames` | src/frontend/ninep.rs:400-410 | of a body cut off anywhere the server takes the first names, and only whole ones |
| `NinepClient.CreateOnTheWire` | src/frontend/ninep_client.rs:199-208 | and a Tcreate into its name and kind |
| `NinepClient.ClientActsOnRealpath` | src/frontend/ninep_client.rs:389-409 | for every path whose Twalk fits a message, the bytes sent by walk, mkdir and create_file make the server act on the string's real path |
| `NinepClient.ClientWalkBinds` | src/frontend/ninep.rs:394-464 | on consistent tables the new fid is bound to the real path and its one qid |
| `NinepClient.WriteOnTheWire` | src/frontend/ninep.rs:764-783 | the server takes exactly the client's chunk out of a Twrite |
| `NinepClient.WriteFile` | src/frontend/ninep_client.rs:259-282 | terminates; cuts the data into chunks of msize - 24 bytes, only the last shorter, and sends each at the offset where the chunks before it end; stops at the first refusal and is done exactly if there is none |
| `NinepClient.UploadIsGood` | src/frontend/ninep.rs:764-783 | at the server every such Twrite is smaller than msize and within its limit, offsets are contiguous, and the payloads handed to the router concatenate to the data sent |
| `NinepClient.ShortWriteOnTheWire` | src/frontend/ninep.rs:764-783 | of a Twrite whose count and data disagree the server takes no more than either |
| `NinepClient.FidsOnTheWire` | src/frontend/ninep_client.rs:155-222 | the server finds the fid of the client's attach, open, clunk, remove and stat |
| `NinepClient.ReadOnTheWire` | src/frontend/ninep.rs:626-643 | the server takes fid and offset out of a Tread, and ignores its count |
| `NinepClient.ReadFile` | src/frontend/ninep_client.rs:238-255 | each Tread is encoded, its offset parsed by the server and answered; reading until empty ends and returns the content |
| `Store.EventKeepsWrites` | src/store.rs:189-206 | every event keeps the write side equal to a serial run in channel order |
| `Store.EventKeepsReads` | src/store.rs:212-220 | every event keeps each answer on a serial prefix no older than the replies before its query |
| `Store.EventKeepsCloses` | src/store.rs:335-342 | every event keeps: the first close is acknowledged when the writer takes it, the later ones are lost when it stops |
| `Store.StoreIsSerial` | src/store.rs:189-342 | every run of any number of callers equals executing the writes one by one in channel order, with the serial results as replies; other writers are told their reply is lost once the writer stops; the first close is acknowledged and every later one lost |
| `Store.RepliedExactlyWhenExecuted` | src/store.rs:292-307 | a caller gets a result exactly when its write was executed and the writer is past replying |
| `Store.NothingRunsAfterClose` | src/store.rs:199-203 | once the writer has taken a close the database stands still |
| `Store.QueriesSeeRepliedWrites` | src/store.rs:309-324 | a query's answer reflects every write replied to before it was sent, whenever it is given |
| `Store.RunWriterConn` | src/store.rs:189-206 | the writer's loop executes and answers exactly the statements before the first close, serially, and acknowledges that close |
| `Store.DbRegistry.constructor` | src/store.rs:117-122 | no handles, first id 1 |
| `Store.DbRegistry.Open` | src/store.rs:127-174 | a handle's id was never used before; a failed open uses one up and registers nothing |
| `Store.DbRegistry.Remove` | src/store.rs:176-178 | forgets one handle, never its number |
| `LuaJson.JsonToLua` | src/serialize.rs:71-105 | the table-filling loops compute `ToLua`, for any order of an object's fields |
| `LuaJson.LuaToJson` | src/serialize.rs:27-69 | whatever length and order a table reports, the outcome is an allowed one, errors included |
| `LuaJson.RoundTripExactlyWhenKept` | src/serialize.rs:27-105 | for every tree, decoding to Lua and encoding back gives the tree and nothing else if and only if it has no null inside an array or object, no empty array, and only numbers the virtual machine gives back |
| `LuaJson.KeptIsOnlyItself` | src/serialize.rs:27-105 | the identity half, by induction over arrays and objects |
| `LuaJson.NotKeptCanChange` | src/serialize.rs:27-105 | the other half: each lossy tree has an outcome that differs |
| `LuaJson.PlainTreesRoundTrip` | src/serialize.rs:71-105 | integers within 2^53 as the only numbers survive on a machine that keeps those exactly |
| `LuaJson.NumbersHandedBack` | src/serialize.rs:75-83 | outside tables a number survives exactly if it is a double or fits a signed 64-bit integer |
| `LuaJson.NumberKeysAreNumerals` | src/serialize.rs:56-61 | an integer key is encoded under its decimal numeral |
| `LuaJson.EncodableNeverFails` | src/serialize.rs:27-69 | a value without functions, infinities or odd keys is never refused |
| `LuaJson.BadValuesFail` | src/serialize.rs:32-68 | infinities and values without a JSON form are always refused, and so is an object that holds one or has a key that is no string or number |
| `Base64.SimpleBase64Decode` | src/frontend/sshfs.rs:847-871 | fails exactly on a character outside the alphabet before the padding; otherwise the whole bytes of the bit string, floor(6n/8) of them |
| `Base64.AlphabetIs` | src/frontend/sshfs.rs:848 | A-Z, a-z, 0-9, + and /, in that order; = is the padding |
| `Base64.Absorb` | src/frontend/sshfs.rs:857-867 | one symbol: the 32-bit accumulator does not overflow, stays below 2^bits, and at most 6 bits are pending |
| `Base64.DecodesToOne` | src/frontend/sshfs.rs:847-871 | that meaning determines the result |
| `Base64.DecodeInvertsEncode` | src/frontend/sshfs.rs:847-871 | inverts the encoding of section 4 of RFC 4648 for every byte sequence, padded or not |
| `Reads.FuseReadsReassemble` | src/frontend/fuse.rs:355-366 | contiguous reads of any positive sizes reassemble the content; a read is empty exactly when all was delivered, after at most one read a byte |
| `Reads.SftpReadsReassemble` | src/frontend/sshfs.rs:317-334 | the same for SFTP, with end of file exactly at or past the end |
| `Reads.FuseRead` | src/frontend/fuse.rs:349-369 | an unknown inode is ENOENT and a failed handler EIO; everything else succeeds |
| `Reads.SftpRead` | src/frontend/sshfs.rs:307-334 | refused exactly for an unknown handle or a failed handler |
| `Reads.Readdir` | src/frontend/fuse.rs:321-332 | one reply holds the entries after the offset, in order, as many as fit, each with the offset to resume from |
| `Reads.PagingDeliversAll` | src/frontend/fuse.rs:273-332 | for any sequence of reply buffers each with room for any one entry, resuming from the last offset delivers every entry exactly once, in order, and ends |

## Left out

- Sockets, TLS, SSH transport, authentication, start-up, signals, logging and process shutdown.
- The Lua virtual machine, matchit, SQLite and the FUSE library: parameters of the model.
- UTF-8: names and paths are bytes; the lossy replacement of invalid sequences, and the errors for Lua strings that are not UTF-8 in op lists, are not modelled.
- Counters (`next_qid`, fids given out, database ids, sequence numbers) are unbounded; 64-bit overflow is not modelled, nor the overflow of `offset + size` in FUSE `read`.
- NinepClient.ReadFile: contents whose Rread would not fit the 32-bit size field are excluded, since the fields wrap there.
- NinepClient.WriteFile: data of 2^64 bytes or more is excluded, since the offset field is 64 bits wide.
- NinepStat.DirectoryReadRoundTrips: child names longer than 65485 bytes are excluded, since the record's 16-bit size field wraps there; only size, qid, mode, length and name are read back, because the owner strings carry a wrong length.
- NinepStat.ListedNamesAreDistinct: needs that the directory's path with a slash appended is not itself a table entry, which a walk of an empty name can create.
- NinepSession.RepliesMatchRequests: stream transports; over UDP a failed request may get no reply.
- NinepSession.HandlersFinish: counts on the router answering; a handler that never returns keeps its connection waiting.
- NinepSession.RunsKeepServer: what clients were told before a rename is not claimed to hold after it; for the tables, runs with renames are covered by `RunsKeepTablesIff`.
- NinepSession.QidsIdentifyPaths: not about the constant qid in Ropen and in the "." record, which do not name the file.
- RequestPipeline.RestMeansResolved: fairness of the scheduler and termination of handlers are not modelled; pool limits stay as they were at start-up.
- Store.StoreIsSerial: statements are atomic and autocommitted; explicit transactions over several calls are not modelled.
- LuaJson.PlainTreesRoundTrip: that LuaJIT keeps integers within 2^53 is a hypothesis about the virtual machine.
- LuaJson.RoundTripExactlyWhenKept: the tables are those decoding builds; metatables and cyclic tables do not occur in them.
- NinepStat.ReaddirEntries: the tests' decoder also sorts the names it found; that is not modelled.
- NinepStat.ReadWholeDirectory: the 32-bit count field of an Rread is not encoded here, as it is for files.
- Reads.Readdir: the parsing of the handler's listing into entries and the inode numbers, which are new on every call, are not modelled.
- The 9P client's stat and ls decoding, whose offsets do not match the server's records.
- FUSE inode and size caches, SFTP handles and directory reads, CSV queries and the request, environment and file helpers for Lua: thin or easy code.
