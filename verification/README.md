# Verified models of the stateful parts of openrport

openrport manages remote machines: clients connect to a server, which keeps their sessions and tunnels,
runs commands and uploads files on them, and stores secrets. This project models the parts of it that
carry state and proves what they keep. Check it with `dafny verify dfyconfig.toml` (Dafny 4.11).

| file | models | main results |
|---|---|---|
| `Tunnels.dfy` | `getTunnelsToReestablish` | the two-pass greedy match solves an injective assignment problem exactly when tunnels are stacked (`GreedyIsExact`) |
| `Reconnects.dfy` | starting tunnels, repeated reconnects | no tunnel is lost if and only if the drawn ports keep tunnels apart (`NoTunnelLostIffKeptApart`), and then reconnects are stable up to random ports (`ReconnectsAreStable`) |
| `Batches.dfy` | a batch of remotes with ports from the distributor | a batch gets one tunnel per remote if and only if no drawn port repeats an earlier fixed one (`BatchLosesNoTunnelIff`) |
| `ClientGroups.dfy` | wildcard parameters, tag expressions | the leftmost-greedy matcher decides the meaning of `*` (`Matches`) |
| `Vault.dfy` | the vault manager | the encrypted vault refines a plain one, and every run of the plain one keeps its keys unique and its values readable |
| `CommandOutput.dfy` | summary extractor, truncating writers | extraction undoes rendering for any chunking (`SummaryRoundTrip`) where the tags are found where they stand, and exactly where that is (`PlacesKeptIffLengthsKept`); two writers agree (`WritersAgree`) |
| `MultiJobs.dfy` | sequential multi-client jobs | every interleaving is the sequential loop, if and only if failed starts leave no job running (`SafeIffStartsAreHonest`, and run by run `TidyIffNoJobLeft`); a run can end if and only if no awaited result is lost (`EndsIffNotLost`) |
| `Upload.dfy` | receiving a file | old file or verified new bytes on disk at every instant, under every failure pattern |
| `Repository.dfy`, `Sessions.dfy` | client repository, sessions, restart | exactly which runs keep memory and store in agreement (`MemoryAgreesWithStore`) and one client per auth id (`ClientsStayUnique`, `RowsStayUnique`); purging is invisible |
| `MeasurementQueue.dfy` | the queue and its draining shutdown | order, at-most-once and drain guarantees for attempts; exactly which accepted measurements are saved (`SavedIffDoneBeforeClose`) |
| `IdleTimeout.dfy` | the idle-timeout loop | a tunnel is terminated if and only if the timer fired more than the timeout behind all activity (`TerminatedIffIdle`) |
| `Ports.dfy` | the port distributor | pools and handed-out ports partition what is allowed and not busy |
| `ClientAuth.dfy` | credentials file with a cache | a run keeps cache and file in agreement if and only if nothing tears the file under the cache (`CacheIsCoherent`) |

Objects that the program updates in place are classes whose methods are proved against functions on
values; the laws over whole runs are lemmas about these functions. Protocols between goroutines are step
machines over all interleavings. Calls to the outside (database, file system, clock, port listing,
network) take their outcome from a parameter, so each theorem holds for every pattern of failures.

## Findings

What the code does where it departs from what one would expect; each is proved.

- A remembered tunnel list may hold equal `String()` values in an order that defeats the greedy match;
  `GreedyIsExact` gives the exact condition (`Stacked`), and `SessionsAreExact` shows that the lists
  sessions leave behind always meet it.
- The random port drawn for a remembered tunnel may equal the fixed port of a requested one, and the tunnel
  is then taken for the other and dropped (`PortClashLosesTunnel`). `NoTunnelLostIffKeptApart` gives the exact
  condition on the batch and the drawn ports. With ports from the distributor only one kind of clash is left
  (`DrawnIsKeptApartIff`): two drawn ports never clash, and a fixed port behind a drawn one is refused as busy, but
  a fixed port stays in the pool, so a port drawn later may repeat it.
- In a tag expression a repeated operand under `and` matches nothing, and an operator in capitals is
  accepted by the parser and matches nothing (`MatchesRawTags`).
- `Store` with a negative id passes all checks, reports success and stores nothing (`Vault.Manager.Store`).
- If a start request fails although the client runs the job, its result can be sent on the closed channel,
  which panics (`LateResultPanics`). A run stays tidy if and only if that does not happen in it
  (`TidyIffNoJobLeft`), and once it has happened the program can panic with nothing else failing
  (`PanicsIffJobLeft`). A result that cannot be saved leaves the executor waiting for ever, with
  the channel registered (`EndsIffNotLost`).
- The drain at shutdown saves under the context that `Close` has cancelled. A measurement is saved under a live
  context exactly when its save had ended when `Close` was called (`SavedIffDoneBeforeClose`), so no capacity
  makes an accepted measurement a saved one (`CutOffIsNotSaved`). With a buffer a measurement can even be
  accepted after the drain has finished, and nobody attempts it (`AttemptsAllIffUnbuffered`).
- A start of a known client that fails late, a termination that cannot be saved and a heartbeat of a
  disconnected client write a record in memory alone. `StepAgrees` and `MemoryAgreesWithStore` say exactly when
  memory and store then differ: when the store does not have that record already.
- Two clients can share an auth id although no credentials are multi-use. `StartClient` looks for the auth id in
  memory, so a failed save and a restart are one way (`FailedSaveThenRestartSharesAuthID`). A client that is deleted
  by force while its connection is open is another, with nothing failing: when its id has connected again, the end
  of the old connection saves the old record over the new one (`OrphanSharesAuthID`). Exactly: over every run,
  clients stay unique if and only if no operation puts an auth id in memory that another client has and the live
  rows are unique at each restart (`ClientsStayUnique`); the rows stay unique if and only if nothing is saved with
  an auth id that another live row has (`RowsStayUnique`).
- An upload whose temporary path is its destination fails and loses the old file; requested mode bits above
  0777 are never in sync (`HandleUploadRequest`, `SyncTwice`).
- The position of a summary tag is found in the lower-cased line and used in the line itself. It is the length of
  the lower-cased text in front of the tag (`TagPlace`), so the tags of an output are found where they stand if and
  only if the text in front of each keeps its length (`PlacesKeptIffLengthsKept`). Where it does not, as behind a byte
  that is not UTF-8, the position can lie outside the line, which the program does not survive
  (`InvalidByteMisplacesTag`), or the summary is silently cut (`InvalidByteShiftsSummary`).
- A credentials file that is torn while being written no longer agrees with the cache (`TornRunIsIncoherent`, `CacheIsCoherent`).

## Model

| member | source | states |
|---|---|---|
| `Tunnels.GetTunnelsToReestablish` | server/clients/client_service.go:438-491 | with the array of marks and both early returns, returns what the value-level greedy match leaves over |
| `Tunnels.MarkFixed` | server/clients/client_service.go:449-460 | the loop over requests that name a local port marks in place exactly the tunnels that the first pass takes, or reports failure exactly when the pass fails |
| `Tunnels.MarkRandom` | server/clients/client_service.go:463-474 | the same for requests that leave the local port open and accept only random-port tunnels with the same remote and ACL |
| `Tunnels.Unmatched` | server/clients/client_service.go:476-490 | the last loop returns the unmarked tunnels in order, random ones without their port |
| `Tunnels.Exchange` | server/clients/client_service.go:438-491 | exchange argument: on stacked tunnels, serving a request by the first free tunnel keeps the remaining requests assignable |
| `Tunnels.PassFindsOne` | server/clients/client_service.go:449-474 | on stacked tunnels a pass succeeds whenever the pending requests are assignable, and leaves the others assignable |
| `Tunnels.PassIsSound` | server/clients/client_service.go:449-474 | a pass that succeeds has found an injective assignment onto exactly the tunnels it newly marks |
| `Tunnels.MatchedIsSound` | server/clients/client_service.go:438-474 | a successful match is an injective assignment of all requests onto exactly the marked tunnels |
| `Tunnels.MatchedIsComplete` | server/clients/client_service.go:438-474 | on stacked tunnels an assignable request list is matched, the length check included |
| `Tunnels.GreedyIsExact` | server/clients/client_service.go:438-491 | the match succeeds for exactly the assignable request lists if and only if the remembered tunnels are stacked |
| `Tunnels.DistinctIsStacked` | server/clients/client_service.go:438-491 | tunnels with pairwise different String() are stacked |
| `Tunnels.TrapIsAssignable` | server/clients/client_service.go:438-491 | for every list that is not stacked, a request list is given that can be served one by one |
| `Tunnels.TrapCatches` | server/clients/client_service.go:438-491 | and the greedy match fails on that request list |
| `Tunnels.ReestablishCounts` | server/clients/client_service.go:476-490 | a match leaves over len(old) - len(new) tunnels, a failed match none, for all tunnels |
| `Tunnels.ReestablishIsExact` | server/clients/client_service.go:438-491 | on stacked tunnels: if the requests are assignable, exactly the tunnels unused by some assignment come back in order, else none |
| `Tunnels.MatchMeans` | server/clients/client_service.go:449-474 | on the fields: a successful match gives requests that name a local side the tunnels with their String(), the others random-port tunnels with their target and their ACL, every request its own, and marks exactly these |
| `Tunnels.ServedIsMatched` | server/clients/client_service.go:449-474 | on stacked tunnels the match succeeds whenever the requests can be served so, stated on the fields |
| `Tunnels.OpenRequestsFit` | server/clients/client_service.go:463-474 | for every target and ACL there are no more requests without a local side than random-port tunnels to it, with that ACL, that the other requests have left |
| `Tunnels.LeftoverMeans` | server/clients/client_service.go:476-490 | exactly the unmarked tunnels come back, in order, unchanged but for the forgotten local side of random ones |
| `Tunnels.TargetTells` | share/models/remote.go:129-131 | Remote() tells host and port, also for IPv6 addresses |
| `Reconnects.FindTunnelByRemote` | server/clients/client_service.go:766-774 | finds a tunnel exactly when one with the same String() is running |
| `Reconnects.StartTunnel` | server/clients/client_service.go:790-798 | reuses the tunnel with the same String(), or starts one |
| `Reconnects.StartClientTunnels` | server/clients/client_service.go:510-559 | locates each remote and starts or reuses its tunnel in order; the first failure fails the batch, and the tunnels of the remotes before it stay with the client |
| `Reconnects.AddAllDistinct` | server/clients/client_service.go:790-798 | reuse by String() keeps the tunnels of a client pairwise different and located |
| `Reconnects.AddAllSize` | server/clients/client_service.go:790-798 | starting adds at most one tunnel per remote, and exactly the remotes in order if and only if they differ from each other and from the running tunnels by String() |
| `Reconnects.AllStarted` | server/clients/client_service.go:510-559 | after a successful start the tunnels are distinct and located, and there is one per remote if and only if the located remotes have different String() values |
| `Reconnects.NoTunnelLostIffKeptApart` | server/clients/client_service.go:510-559 | a reconnect loses no tunnel if and only if the drawn ports keep the remotes of its batch apart |
| `Reconnects.DistinctPortsKeepApart` | server/clients/client_service.go:516-533 | drawn ports that differ from each other and from the fixed ports on all interfaces keep a batch apart |
| `Reconnects.SameStrSameLocal` | share/models/remote.go:117-131 | tunnels with one String() have one local host and port, if these have no colon of their own |
| `Reconnects.SessionsAreExact` | server/clients/client_service.go:374-410 | on the tunnels that any session leaves, the next match succeeds exactly for assignable requests |
| `Reconnects.OwnMatch` | server/clients/client_service.go:438-491 | a client asking again for what it got is matched with its own tunnels, the leftovers being exactly the tunnels behind them |
| `Reconnects.KeptIsRestartable` | server/clients/client_service.go:746-764 | what the policy keeps is allowed by it and has a fixed local side or none |
| `Reconnects.ExcludeNotAllowed` | server/clients/client_service.go:746-763 | keeps the allowed tunnels; the first question that fails decides: an unknown request keeps all tunnels, any other failure is an error |
| `Reconnects.AllowedMeans` | server/clients/client_service.go:746-763 | exactly the allowed tunnels are kept, in order |
| `Reconnects.PlanIsSettled` | server/clients/client_service.go:374-394 | if the drawn ports keep the tunnels apart, reconnecting with the same requests and policy starts exactly the same remotes again |
| `Reconnects.ReconnectsAreStable` | server/clients/client_service.go:374-410 | over any number of reconnects whose drawn ports keep the tunnels apart, from the first on, the tunnels are the same one by one up to random ports |
| `Reconnects.FirstReconnectKeepsCount` | server/clients/client_service.go:374-394 | a matching first reconnect with everything allowed keeps the number of tunnels if and only if the drawn ports keep them apart |
| `Reconnects.ClashLosesTunnel` | server/clients/client_service.go:510-559 | for all tunnels: a random port drawn like the fixed port of the requested tunnel loses the remembered one |
| `Reconnects.PortClashLosesTunnel` | server/clients/client_service.go:510-559 | such a clash exists: a concrete reconnect that goes from two tunnels to one |
| `Batches.StartBatch` | server/clients/client_service.go:510-559 | the loop with the distributor: the tunnels are those of the remotes with the ports they got, ports were drawn from the refreshed pools one by one, and every fixed port was in its pool when it was checked |
| `Batches.PortFor` | server/clients/client_service.go:518-533 | draws a port from the pool and takes it out, or checks that the named port is in the pool |
| `Batches.CheckLocalPort` | server/clients/client_service.go:561-576 | accepts exactly a number that is allowed and in the pool of the protocol |
| `Batches.DrawnIsKeptApartIff` | server/clients/client_service.go:510-559 | with ports from the distributor a batch is kept apart if and only if no remote has the String() of an earlier remote that names its port |
| `Batches.BatchLosesNoTunnelIff` | server/clients/client_service.go:510-559 | so there is one tunnel per remote if and only if that holds |
| `Batches.BatchIsStart` | server/clients/client_service.go:510-559 | what a batch starts with the distributor is what it starts with the same ports given |
| `Batches.OpenPairDiffers` | server/ports/port_distributor.go:38-65 | two remotes with drawn ports never become the same tunnel |
| `Batches.FixedBehindOpenDiffers` | server/clients/client_service.go:561-576 | a remote whose named port passed the check is not the same tunnel as one with a port drawn before it |
| `Batches.SameStrSameProtocol` | share/models/remote.go:117-131 | tunnels with one String() have one local port and one protocol, for remotes as NewRemote makes them |
| `Batches.AtoiOfItoa` | server/clients/client_service.go:524-562 | reading a port number back gives the number |
| `ClientGroups.Matches` | server/cgroups/group.go:88-109 | the loop returns true exactly when the case-folded value has the meaning of the case-folded pattern, for every folding |
| `ClientGroups.GlobIsAnchored` | server/cgroups/group.go:88-109 | the meaning of `*` byte by byte is: the split parts lie in order without overlap, the first at the start, the last at the end |
| `ClientGroups.AnchoredIsGreedy` | server/cgroups/group.go:88-109 | with a `*`, prefix check, suffix check and leftmost scan together decide that |
| `ClientGroups.FloatingIsGreedy` | server/cgroups/group.go:97-107 | behind the first part, the suffix check and the leftmost scan decide whether the remaining parts fit |
| `ClientGroups.GreedyKeepsMore` | server/cgroups/group.go:97-107 | scanning from further left never loses a match |
| `ClientGroups.MatchesOneOf` | server/cgroups/group.go:73-86 | true exactly without parameters, for nothing against nothing, or if some parameter matches some value |
| `ClientGroups.MatchedOperands` | server/cgroups/group.go:121-131 | the double loop collects exactly the operands that some value matches |
| `ClientGroups.MatchesRawTags` | server/cgroups/group.go:111-145 | on the expression itself: a list means `or`; an object with the one field `and` holds exactly if its operands are distinct, not none, and each matches a value, with `or` exactly if one does; anything else matches nothing |
| `ClientGroups.CountsAll` | server/cgroups/group.go:121-141 | comparing sizes means: all operands were matched and none is repeated |
| `Vault.Manager.Init` | server/vault/manager.go:81-125 | succeeds, without faults exactly, on an uninitialised vault with a valid password, which it then holds; a failure changes nothing or leaves the vault initialised and locked |
| `Vault.Manager.IsDatabaseInitialized` | server/vault/manager.go:127-143 | answers whether the status row says so, or fails with a database fault |
| `Vault.Manager.Unlock` | server/vault/manager.go:145-183 | succeeds, without faults exactly, on a locked vault with the password of Init |
| `Vault.Manager.Lock` | server/vault/manager.go:185-212 | forgets the password, without faults exactly if the vault was unlocked |
| `Vault.Manager.PassMatch` | server/vault/pass.go:50-70 | a password matches exactly if it is not empty and the check value was encrypted with it |
| `Vault.Manager.CheckUnlockedAndInitialized` | server/vault/manager.go:419-440 | passes only on an open vault, and without a fault always on one |
| `Vault.Manager.GetOne` | server/vault/manager.go:289-321 | returns the plain row; without faults succeeds exactly on an open vault for a user in the required group, or without one |
| `Vault.Manager.FindByKeyAndClientID` | server/vault/sqlite.go:154-165 | finds a row with this key and client if there is one |
| `Vault.Manager.Store` | server/vault/manager.go:323-384 | the new row field by field and all other rows unchanged; succeeds, without faults exactly, on an open vault with a complete input, a free key and access to the row; negative ids store nothing; a failure has no effect or the whole effect |
| `Vault.Manager.SaveValue` | server/vault/sqlite.go:167-209 | does on the encrypted table what the plain vault stores, adds only rows with the given ciphertext, and has no effect or the whole effect when it fails |
| `Vault.Manager.Delete` | server/vault/manager.go:386-417 | removes exactly that row, with the exact success condition |
| `Vault.Manager.Restart` | server/api_listener.go:171-182 | a restart locks the vault and changes nothing else, whether or not the server comes up |
| `Vault.TakenIsFound` | server/vault/manager.go:336-365 | with unique keys, the single row found decides whether the key is taken by another row |
| `Vault.StoredIsValid` | server/vault/manager.go:323-384 | storing keeps (key, client id) unique by the manager's own check |
| `Vault.ReachableIsValid` | server/vault/manager.go:81-212 | after any operations keys are unique, an open vault is initialised and the password of Init has not changed |
| `Vault.LastStoreIsRead` | server/vault/manager.go:289-384 | a row is unchanged until the next Store or Delete of it that succeeds, across locks, unlocks and restarts |
| `CommandOutput.ProcessLine` | client/command.go:353-373 | the inner loop terminates and computes extraction on one line, for every lower-casing and all bytes |
| `CommandOutput.Process` | client/command.go:346-378 | the scanner loop yields the line-by-line summary of the concatenated chunks, or fails exactly where a tag position lies outside its line |
| `CommandOutput.TagPlace` | client/command.go:353-373 | for every output: a tag is found at the length of the lower-cased text in front of it; it fits if and only if that text grows by no more than what follows, and the place is right if and only if that text keeps its length |
| `CommandOutput.SurvivesIffTagFits` | client/command.go:353-373 | the extractor survives an output with a tag if and only if the tag fits and it survives what follows the place found |
| `CommandOutput.PlacesKeptIffLengthsKept` | client/command.go:353-373 | for every output: all tags are found where they stand if and only if the text in front of each keeps its length |
| `CommandOutput.KeptPlacesExtract` | client/command.go:353-373 | then the extractor survives the line and extracts what is between the tags |
| `CommandOutput.KeptPlacesSummarize` | client/command.go:346-378 | and so it does for all lines |
| `CommandOutput.AsciiOutputKeepsPlaces` | client/command.go:346-378 | ASCII output is such |
| `CommandOutput.WidenLowers` | client/command.go:355-365 | a lower-casing as bytes.ToLower is on ASCII and on an invalid byte meets what is assumed of it |
| `CommandOutput.InvalidByteMisplacesTag` | client/command.go:365-367 | a tag at the end of a line behind a byte that lower-casing turns into three does not fit |
| `CommandOutput.InvalidByteShiftsSummary` | client/command.go:353-373 | with more behind the tag, the invalid byte makes the extractor yield "c" for the summary "abc" |
| `CommandOutput.ExtractLine` | client/command.go:350-378 | extraction from a text is extraction from its first line, then from the rest, newlines kept inside |
| `CommandOutput.SummaryIgnoresLines` | client/command.go:350-378 | processing line by line is extracting from the whole text |
| `CommandOutput.ScannerKeepsText` | client/command.go:346-351 | without carriage returns and over-long lines the scanner loses nothing but a missing last newline |
| `CommandOutput.ScannerSplits` | client/command.go:349-352 | on any output: lines come out one by one without one carriage return at their end |
| `CommandOutput.ScannerStops` | client/command.go:349-352 | at a line of 65536 bytes or more nothing comes out any more |
| `CommandOutput.ScannerEnds` | client/command.go:349-352 | a last line without a newline comes out as well |
| `CommandOutput.CrlfMakesNoDifference` | client/command.go:349-352 | writing every newline as on Windows makes no difference to the lines |
| `CommandOutput.TagIsFound` | client/command.go:355-371 | the first tag behind text without that tag is found where it stands, in any letter case |
| `CommandOutput.TagInAnyCase` | client/command.go:355-365 | a tag is recognised if and only if it is, byte by byte, the tag or its capital letters |
| `CommandOutput.ExtractRendered` | client/command.go:346-378 | extraction undoes rendering, for any number of summaries |
| `CommandOutput.EveryTextIsRendered` | client/command.go:346-378 | every text in which extraction ends outside a summary is such a rendering |
| `CommandOutput.SummaryRoundTrip` | client/command.go:346-378 | however the output was chunked, where its tags are found where they stand the summary is exactly what is between them |
| `CommandOutput.CrlfRoundTrip` | client/command.go:346-378 | the round trip for output with Windows line ends: the summary has plain newlines |
| `CommandOutput.CapacityBuffer.Write` | client/command.go:290-303 | keeps the first `capacity` bytes and the overflow flag, and claims all bytes |
| `CommandOutput.LimitedWriter.Write` | client/command.go:400-422 | decodes, passes on at most the limit and reports decoding errors and short writes; a write that does not fail is the one of the agreement theorem on the decoded bytes |
| `CommandOutput.CapacityKeepsPrefix` | client/command.go:290-303 | after any writes the buffer holds the first bytes of everything written, the flag telling whether that is not all |
| `CommandOutput.LimitedKeepsPrefix` | client/command.go:400-422 | after any writes the sink holds the first bytes of everything written |
| `CommandOutput.WritersAgree` | client/command.go:290-422 | both writers keep the same first `limit` bytes for any chunking, and the flag is set exactly on overflow |
| `MultiJobs.RunKeepsInv` | server/api_helper_jobs.go:185-251 | every interleaving keeps the invariant: only the current client's job is in flight and the log follows the sequential loop |
| `MultiJobs.ExecutorKeepsInv` | server/api_helper_jobs.go:185-251 | every step of the executor, of a client's acceptance and of a late sender keeps the invariant |
| `MultiJobs.ResultKeepsInv` | server/client_listener.go:531-569 | reporting, saving and handing over a result keeps the invariant |
| `MultiJobs.SafeIffStartsAreHonest` | server/api_helper_jobs.go:185-251 | all interleavings are safe (sequential log, one outstanding job, none at closing, no panic) if and only if a failed start leaves no job running |
| `MultiJobs.TidyIffNoJobLeft` | server/api_helper_jobs.go:185-251 | every run, of any configuration, is tidy all the time (safe, and only the client just started has a job under way) if and only if no failed start has left a job under way |
| `MultiJobs.PanicsIffJobLeft` | server/client_listener.go:561-569 | in a run that has left no job so far, the next step leaves one if and only if the program can then panic without a further failed start |
| `MultiJobs.LateResultPanics` | server/client_listener.go:561-569 | otherwise a schedule, for every client list, sends on the closed channel |
| `MultiJobs.EndsIffNotLost` | server/api_helper_jobs.go:185-251 | in every reachable state the run can still end, and without further failures, if and only if no awaited result was lost |
| `MultiJobs.StuckForever` | server/client_listener.go:538-542 | once an awaited result could not be saved, no continuation ends the run |
| `MultiJobs.NothingStartsAfterAbort` | server/api_helper_jobs.go:230-247 | after an aborting error or failed result only the closing follows |
| `MultiJobs.StartsInOrder` | server/api_helper_jobs.go:200-249 | clients are started in list order without gaps and every result or error answers the start just before it |
| `MultiJobs.EndsForAReason` | server/api_helper_jobs.go:200-249 | in every run in which ids can be generated, the executor leaves the loop only after starting every client, or if it is to abort on errors and the last event was a failed result or an error other than a missing connection |
| `MultiJobs.NothingOfferedAfterUnregister` | server/client_listener.go:561-569 | once the channel is unregistered, no further result is handed to a goroutine |
| `Upload.UploadManager.HandleUploadRequest` | client/upload.go:115-157 | under every failure pattern and at every instant the old file or the verified new bytes are on disk and no other file changed; success means the source bytes, with the checksum, are at the destination; a sync request is ignored only if checksum, mode, owner and group are as asked for, and without failures exactly then; without failures success is complete |
| `Upload.Job.SafetyMeans` | client/upload.go:330-440 | what is kept at every instant, on the files themselves |
| `Upload.UploadManager.HandleWritingFile` | client/upload.go:221-262 | the same for the write itself; a complete success is in sync if and only if only permission bits were asked for |
| `Upload.UploadManager.CopyFileToTempLocation` | client/upload.go:374-440 | touches only the temporary path and succeeds only with a fresh copy that has the checksum |
| `Upload.UploadManager.ClearTempLocation` | client/upload.go:385-406 | on success the temporary path is free and nothing else changed |
| `Upload.UploadManager.MoveFileToDestination` | client/upload.go:330-354 | replaces the destination by the verified copy, safe at every instant |
| `Upload.UploadManager.SetAttributes` | client/upload.go:231-241 | mode and owner changes keep the bytes and the safety, and are in place when they report success |
| `Upload.UploadManager.ChmodFile` | client/upload.go:311-328 | sets the permission bits only, and does so without failures |
| `Upload.UploadManager.ChownFile` | client/upload.go:264-297 | on success the file has the owner asked for, also when nothing is done because a file of the current user was wanted and given; without failures it succeeds for names that resolve |
| `Upload.UploadManager.FileShouldBeSynched` | client/upload.go:159-219 | answers whether checksum, mode, owner and group differ, changing nothing |
| `Upload.UploadManager.SyncTwice` | client/upload.go:134-156 | after a complete success the same sync request is ignored if and only if it asks for permission bits only, and an ignored request changes no file |
| `Repository.ExpiredIsObsolete` | server/clients/sqlite.go:85-122 | the whole-second condition of the table removes only clients that are obsolete in memory |
| `Repository.ExpiredWithinASecond` | server/clients/sqlite.go:85-122 | exactly, up to one second: connected clients and those disconnected no longer than the keep duration stay, those disconnected a second longer go |
| `Repository.RowRoundTrip` | server/clients/sqlite.go:124-275 | a record survives the table but for its session |
| `Repository.PurgedMeans` | server/clients/cr.go:201-223 | on the fields: which clients and rows a purge keeps |
| `Repository.RestartedMeans` | server/clients/init.go:12-39 | on the fields: which clients a restart brings up, disconnected and otherwise as their rows say, and that it loses no row |
| `Repository.ClientRepository.Save` | server/clients/cr.go:87-114 | store and memory change together, or neither does |
| `Repository.ClientRepository.Delete` | server/clients/cr.go:116-132 | store and memory change together, or neither does |
| `Repository.ClientRepository.QueryClients` | server/clients/cr.go:383-400 | returns the matching clients, each once |
| `Repository.ClientRepository.DeleteObsolete` | server/clients/cr.go:201-223 | removes and returns exactly the obsolete clients in memory, and the expired rows of the table |
| `Repository.ClientRepository.RemoveClients` | server/clients/cr.go:215-220 | removes exactly these clients from memory |
| `Repository.ClientRepository.GetByID` | server/clients/cr.go:252-259 | returns the client if it is known and connected, kept for ever, or disconnected no longer than the keep duration |
| `Repository.ClientRepository.GetActiveByID` | server/clients/cr.go:262-269 | returns the client if it is connected |
| `Repository.ClientRepository.GetAllByClientAuthID` | server/clients/cr.go:272-283 | returns exactly the non-obsolete clients with that auth id |
| `Repository.ClientRepository.IsClientAuthIDInUse` | server/clients/client_service.go:633-640 | true exactly if another non-obsolete client has the auth id |
| `Repository.LoadInitialClients` | server/clients/init.go:12-39 | loads the unexpired rows and marks all of them disconnected, in memory and in the table; a failure leaves some rows marked |
| `Repository.ClientRepository.Restart` | server/clients/init.go:12-39 | a restart replaces the memory by what was loaded |
| `Sessions.ClientService.StartClient` | server/clients/client_service.go:340-427 | the order of the checks, the record filled in place with what a request leaves alone, and the save, on the whole repository state; a connected client is refused if and only if the request does not carry its session |
| `Sessions.ClientService.Terminate` | server/clients/client_service.go:578-599 | deletes or marks as disconnected, on the whole repository state, also for a record that the repository no longer holds; when it reports success |
| `Sessions.ClientService.DeleteOffline` | server/clients/client_service.go:614-630 | deletes exactly a known, disconnected client |
| `Sessions.FindMatchingAND` | server/clients/cr.go:153-180 | exactly the clients with all tags |
| `Sessions.FindMatchingOR` | server/clients/cr.go:183-199 | exactly the clients with one of the tags |
| `Sessions.PurgeIsInvisible` | server/clients/cr.go:134-289 | every lookup and count answers the same before and after purging, for every repository state |
| `Sessions.RestartedAgrees` | server/clients/init.go:12-39 | after a restart, from any state, memory and store agree and nobody is connected |
| `Sessions.MemoryOnlyAgrees` | server/clients/client_service.go:397-421 | filling in a live record in memory alone keeps the agreement if and only if the store has its row |
| `Sessions.StepAgrees` | server/clients/cr.go:87-223 | an operation keeps memory and store in agreement if and only if it does not write a record in memory alone that the store does not have |
| `Sessions.MemoryAgreesWithStore` | server/clients/cr.go:46-223 | over every run with failing store calls and restarts, memory and store have the same non-obsolete clients all the time if and only if no operation leaves them apart |
| `Sessions.StepKeepsRows` | server/clients/client_service.go:353-427 | an operation keeps the auth ids of live rows unique if and only if it does not write one that another live row has |
| `Sessions.StartKeepsRows` | server/clients/client_service.go:397-421 | a start that succeeds keeps live rows unique if and only if no other live row has the auth id |
| `Sessions.RowsStayUnique` | server/clients/client_service.go:353-427 | over every run at all, live rows have different auth ids all the time if and only if no operation writes one in use |
| `Sessions.RestartIsUniqueIffRows` | server/clients/init.go:12-39 | a restart brings up clients with different auth ids if and only if the live rows have them |
| `Sessions.StepKeepsUnique` | server/clients/client_service.go:353-427 | an operation, whichever it is, keeps the auth ids of clients unique if and only if it does not put one in use in memory, a restart if and only if the live rows are unique |
| `Sessions.SingleUseSpoilsNothing` | server/clients/client_service.go:397-401 | the check of StartClient is enough for single-use credentials and terminations of connected clients |
| `Sessions.OneClientPerAuthID` | server/clients/client_service.go:353-427 | so for these operations no reachable state has two clients with one auth id, failed saves included, until a server comes up again |
| `Sessions.ClientsStayUnique` | server/clients/client_service.go:353-427 | over every run at all, clients have different auth ids all the time if and only if no operation puts one in memory that another client has and the live rows are unique at each restart |
| `Sessions.AgreementPreventsClash` | server/clients/client_service.go:397-401 | while memory and store agree, an operation that saves an auth id in use also puts it in memory |
| `Sessions.AgreeingRunsAreUnique` | server/clients/client_service.go:353-427 | in a run that never leaves memory and store apart restarts do no harm: clients stay unique if and only if no operation puts an auth id in use in memory |
| `Sessions.FailedStartChangesMemory` | server/clients/client_service.go:397-421 | exactly when a start that fails leaves the repository unchanged, and exactly when it leaves memory and store in agreement |
| `Sessions.StartedMeans` | server/clients/client_service.go:397-421 | what a successful start writes, field by field, and that with single-use credentials every other client with the auth id is obsolete |
| `Sessions.SessionLasts` | server/clients/client_service.go:353-372 | over every run, a connected client stays connected with its session until it is terminated, deleted, saved from outside or the server restarts |
| `Sessions.FailedSaveThenRestartSharesAuthID` | server/clients/client_service.go:397-421 | a run with a failed save and a restart after which two clients share an auth id |
| `Sessions.OrphanSharesAuthID` | server/clients/client_service.go:578-599 | a run with no failure, restart or multi-use credentials after which two clients share an auth id |
| `MeasurementQueue.RunKeepsInv` | server/monitoring/measurement_queuing.go:30-74 | under every interleaving, accepted is attempted, then in hand, then queued |
| `MeasurementQueue.SavedInOrder` | server/monitoring/measurement_queuing.go:30-74 | attempts follow acceptance, each at most once, within capacity, and all accepted before shutdown began are attempted when Close returns |
| `MeasurementQueue.CancelledByClose` | server/monitoring/measurement_queuing.go:30-61 | Notify turns a measurement down, and the goroutines stop, only after Close was called |
| `MeasurementQueue.SavedIffDoneBeforeClose` | server/monitoring/measurement_queuing.go:30-74 | an accepted measurement is saved under a live context if and only if its save had ended when Close was called |
| `MeasurementQueue.AllSavedIffIdle` | server/monitoring/measurement_queuing.go:30-74 | everything accepted is saved under a live context if and only if the queue was idle when Close was called and accepted nothing afterwards |
| `MeasurementQueue.CutOffIsNotSaved` | server/monitoring/measurement_queuing.go:45-74 | for every capacity a schedule accepts a measurement whose save is cut off by Close |
| `MeasurementQueue.LateNotifyIsNotAttempted` | server/monitoring/measurement_queuing.go:36-74 | with any buffer a schedule accepts a measurement that nobody attempts to save |
| `MeasurementQueue.AttemptsAllIffUnbuffered` | server/monitoring/measurement_queuing.go:30-111 | everything accepted is attempted when Close returns if and only if the queue is unbuffered |
| `IdleTimeout.RunKeepsInv` | server/clients/client_service.go:980-999 | every activity pattern keeps the deadline within last activity (or start) plus timeout |
| `IdleTimeout.TerminatesExactlyWhenIdle` | server/clients/client_service.go:980-999 | a firing terminates exactly after more than the timeout of inactivity, and every firing behind the last activity plus timeout does |
| `IdleTimeout.TerminatedIffIdle` | server/clients/client_service.go:980-999 | for every pattern of activity and firings, the tunnel is terminated if and only if the timer fired more than the timeout behind every activity so far |
| `IdleTimeout.LastIsLatest` | server/clients/client_service.go:980-999 | the last activity that the loop sees is the latest one reported |
| `Ports.PortDistributor.GetRandomPort` | server/ports/port_distributor.go:38-65 | hands out a port free in every pool concerned, and fails only if none is left or a listing fails |
| `Ports.PortDistributor.Pop` | server/ports/port_distributor.go:53-64 | pops a port from the pool and removes it from every pool concerned |
| `Ports.PortDistributor.EnsurePools` | server/ports/port_distributor.go:43-51 | fills in missing pools and leaves the others alone |
| `Ports.PortDistributor.RefreshOne` | server/ports/port_distributor.go:95-105 | the pool becomes allowed minus busy, or nothing changes |
| `Ports.PortDistributor.Refresh` | server/ports/port_distributor.go:83-93 | both pools become allowed minus busy |
| `Ports.PortDistributor.IsPortBusy` | server/ports/port_distributor.go:71-73 | busy exactly if not allowed, or taken in one of the protocols concerned |
| `Ports.TakeIsAccounted` | server/ports/port_distributor.go:53-62 | handing out a port keeps pool and handed-out ports disjoint and together allowed minus busy |
| `Ports.TakeMeans` | server/ports/port_distributor.go:53-81 | a joint request takes a port that both pools have out of both, any other one out of its own pool only |
| `Ports.NoneLeft` | server/ports/port_distributor.go:53-56 | an empty (joint) pool means that every allowed port is busy or handed out in one of the protocols |
| `Ports.TakeAllAccounts` | server/ports/port_distributor.go:38-65 | after any requests a pool is what it was minus what was handed out for that protocol |
| `Ports.GrantsAreDistinct` | server/ports/port_distributor.go:38-65 | ports handed out between refreshes for a common protocol differ, in any mix of modes |
| `ClientAuth.FileProvider.Get` | server/clientsauth/file.go:77-93 | with an agreeing cache returns the file's entry |
| `ClientAuth.FileProvider.Add` | server/clientsauth/file.go:95-114 | adds exactly a new id and never changes an existing one |
| `ClientAuth.FileProvider.Delete` | server/clientsauth/file.go:116-130 | succeeds exactly if the file can be read and written, and drops the entry from cache and file |
| `ClientAuth.StepIsCoherent` | server/clientsauth/file.go:77-130 | an operation keeps cache and file in agreement if and only if it does not tear the file under the cache |
| `ClientAuth.CacheIsCoherent` | server/clientsauth/file.go:77-130 | over every run, every cached credential is the one in the file all the time if and only if no operation tears the file under the cache |
| `ClientAuth.TornRunIsIncoherent` | server/clientsauth/file.go:150-164 | for all credentials: reading one and then failing to write another leaves a cached credential in no readable file |
| `ClientAuth.AddKeepsPassword` | server/clientsauth/file.go:95-114 | no run without deletion of an id changes its password |

## Left out

- HTTP handlers, SSH transport, JSON payloads, audit log, Caddy, alerting and plus plugins.
- The vault's cipher is ideal: only the encrypting password decrypts. The AES code, `Status` and `List` are not modelled.
- SQL text, migrations and retries: tables are maps whose operations may fail. A database call of the vault may also fail after its effect.
- `CommandOutput.TagPlace`: Unicode lower-casing itself; what is used of it are the two facts in `Lowers`.
- `CommandOutput.LimitedWriter.Write`: the character tables of a decoder, which is any function here.
- Interface and proxy tunnels (`startTunnelWithProxy`, Caddy downstream) and automatic closing at a deadline.
- `Reconnects.StartClientTunnels`: the ports and failures are given from outside; `Batches.StartBatch` has the distributor and the port check, with ACL parsing and listener errors as one failure per remote. Paused clients, which start no tunnels, are not modelled.
- `MultiJobs.SafeIffStartsAreHonest`: one multi-client job at a time, so the keys of the channel map are not modelled; in concurrent mode the executor waits for no result.
- `Batches.StartBatch`: `Atoi` reads digits only, which is what a remote may name as its port; signs and overflow are not modelled.
- `MultiJobs.EndsIffNotLost`: a client that never reports is not told apart from one that reports later.
- `MeasurementQueue.SavedIffDoneBeforeClose`: a save that is cut off by the cancellation counts as not saved, although the database may have completed it.
- `IdleTimeout.TerminatesExactlyWhenIdle`: reading the last activity and resetting the timer is one instant.
- `Upload.UploadManager.HandleUploadRequest`: decoding, validation and the protected-path check of a request, directories and links; modes are plain numbers without file-type bits.
- `Upload.UploadManager.ChownFile`: the fallback to `sudo`, also for moving a file, is part of the file operation and its outcome.
- `Sessions.ClientService.Terminate`: closing the connection's tunnels is not modelled.
- `Ports.PortDistributor.IsPortBusy`: needs the pools concerned to be there, as the code does, which has no pool to look into otherwise.
- Aliasing of client records: where the code writes into a record that the repository holds, the model writes the repository's map.
- Interleavings inside one vault, repository or credentials-file operation: each is one step.
- Sorting, filtering and pagination of lists; validation of token lifetimes, port ranges and interpreter names.
