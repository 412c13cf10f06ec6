# tunnelcat-core, modelled in Dafny

This project models the parts of tunnelcat-core where correctness is hard to see from one
function, and proves what they guarantee over every input, every run or every interleaving.

| files | what they model |
|---|---|
| `Manifests`, `ContentNode`, `GossipNet`, `GossipLaws`, `Convergence` | the Have/Want/Data gossip of the signed content manifest over any number of nodes |
| `Mirror`, `ChunkIndex`, `MirrorManager` | one sync by itself: downloading, checking, writing, deleting and serving mirrored files |
| `FileSystem`, `MirrorRace`, `MirrorTraces` | overlapping syncs of one directory, system call by system call, and the runs that go wrong |
| `MirrorOverlap`, `MirrorLocal`, `MirrorSpare`, `MirrorServing` | when overlap is harmless: for whole syncs, for single files, for the served index |
| `RoutePlan`, `Router`, `RouteLaws` | control selection, path generation, scoring, the best five, the path cursor |
| `TunnelRead`, `PipeWrite`, `PipeClose`, `StreamLoop` | the download buffers, the pipelined writer and the reconnect loop of a tunnel connection |
| `DialWindow` | the rolling outcome window and its two eviction hooks |
| `UdpRelay`, `UdpHistory` | UDP relay round trips, what they record and when the connection is given up |
| `RelayCodec`, `TunnelCodec`, `WireLayout` | the frame codecs and the layout of each frame |
| `Cidr`, `CidrText`, `NodeId`, `RoutingTable`, `RingBuffer` | the fast data structures, each against a simple description |
| `Common`, `Wire`, `Numbers`, `Sorting` | shared vocabulary: byte strings, big-endian fields, bit arithmetic, sorting |

How the code is represented:

- An object whose methods update fields is a class with those fields. Each method is proved to
  compute a function of the old state, and the laws are lemmas about that function.
- Concurrent code is a state machine whose steps are the code's critical sections. Any
  interleaving of the steps is a run, and the laws hold for every run.
- A datagram network is the set of packets ever sent: a packet may arrive never, late or often.
- Signatures, hashes, encryption, JSON, the resolver, clocks, file-system errors and random
  choices are parameters that may answer anything; `SortBy` and `Shuffle` promise their callers
  only what `sort.Slice` and `rand.Shuffle` promise. Floats are reals and durations are
  integers of nanoseconds.

Results that a reader of the code may not expect:

- After a sync that reports complete, a file is verified on disk exactly when no other file keeps
  its temporary at the same place and, if the file was skipped, it was right before
  (`CompleteMeansOnDisk`). State is persisted even after a failed file, so a failed file is
  skipped for ever (`FailedFileIsSkippedForever`); the comment above `sync` says otherwise, and
  the model follows the code.
- Syncs overlap on disk. A newer sync can report complete over a file that an older one has
  overwritten (`OverlapCorrupts`), and an older one can record its state last
  (`LateRecordWins`). Overlap is harmless where each sync reads the old list only after the
  earlier ones have recorded theirs, have ended or stand between two files
  (`InTurnIsSequential`), and for each single file that the older syncs are not working on when
  the newest one starts (`NewestFileOnDisk`).
- Even then an older sync can store its chunk index last, and chunks of the newest manifest that
  are on disk are not served (`LateIndexWins`); and until the newer index is stored the older one
  leads into the newer bytes, which are sent unchecked (`StaleIndexMisleads`). Exactly when the
  newest manifest is served is stated by `InTurnRunServesExactlyWhen`, in terms of the two
  manifests and what the publisher cut.
- A node restarted with the newest version cached never holds or announces it again; with any
  older version cached it converges (`ConvergesExactlyWhen`).
- A write that has passed its second error check is accepted although an error has been recorded
  (`RacingWriteIsAccepted`); fewer than the pipeline's width are (`FirstErrorSticks`). One past its
  closed check is accepted although the connection has been closed (`ClosingWriteIsAccepted`).
- A close that cuts off the fifth open or the fifth young stream is reported as a failing path
  (`CloseAfterFourReports`).
- A UDP relay call that draws the id of a finished call can take that call's late reply for its
  own (`ReusedIdTakesLateReply`).
- The reconnect loop need not terminate (`AlternatingNeverGivesUp`).
- The ring buffer forgets everything when a write ends exactly at its end
  (`ExactFillIsForgotten`).
- Overlapping prefixes can make the CIDR search miss addresses (`Search4ExactlyWhen`,
  `Search6ExactlyWhen`), and a network of IPv4 addresses written in IPv6 form is never matched
  (`MappedNetworkIsMissed`). Exactly when the set answers as a scan over all its networks is
  stated for two readings of "covered": an IPv4 address lies in an IPv6 network when its
  sixteen-byte form does (`AnswersExactlyWhen`), or when Go's `net.IPNet.Contains` says so
  (`ContainsExactlyWhen`).
- Sequence numbers are sent as 32 bits, so that only the first 2^32 - 1 requests of a connection
  can be told apart (`ToldApartExactlyWhen`, `WrappedNumberMisleads`).
- The header comment of `router.go` speaks of a score threshold of 1.5 times the best and of
  excluding out-of-country controls entirely; the code has no such threshold and supplements
  from abroad when fewer than three controls remain. The model follows the code.

`dafny verify dfyconfig.toml` checks the whole project.

## Model

| member | source | states |
|---|---|---|
| ContentNode.Node.CompletePeers | dht/dht_content.go:217-236 | lists, without repetition, exactly the peers last heard complete for that version within the time limit |
| GossipNet.NeverRollsBack | dht/dht_content.go:27-37 | in every run no node's stored or mirrored version ever decreases, and stored bytes change only with the version |
| GossipLaws.StoredIsGenuine | mirror.go:171-224 | in every run, whatever packets claim, a stored manifest parses, is a content manifest, is signed if a key is configured, and carries exactly the stored timestamp |
| GossipLaws.AcceptedExactlyWhen | mirror.go:171-198 | in every run a manifest handed over is accepted exactly when it is genuine and newer than every one accepted or cached, and otherwise dropped without effect |
| GossipLaws.SentExactlyWhen | dht/dht_content.go:78-153 | in every run packets come into being exactly as announcements of what is stored, as requests for what was announced as newer, and as answers with what is stored, forgeries aside |
| GossipLaws.TakenExactlyWhen | dht/dht_content.go:155-174 | in every run data is handed on exactly when it claims to be newer than what is stored; otherwise nothing happens |
| GossipLaws.SupersededExactlyWhen | mirror.go:251-270 | in every run a sync passes its last check only while its version is the newest accepted, and is given up only when a newer one has been |
| GossipNet.RunIsHonest | mirror.go:229-291 | in every run every completeness flag, in a node, a packet or a peer table, was earned by a finished sync |
| GossipNet.ListedPeersFinished | dht/dht_content.go:61-68 | whoever CompletePeers(ts) lists earlier finished a sync of exactly ts with every file ok, or an outsider sent that very claim under its address; under any interleaving of overlapping syncs and delayed packets |
| GossipNet.LastWordCounts | dht/dht_content.go:107-236 | in every run a peer is listed for ts if and only if the last Have heard from it claimed ts complete and is younger than the time limit |
| GossipNet.FinishedStaysComplete | dht/dht_content.go:44-103 | in every run, once a node has finished the version it stores with every file ok, each of its announcements says so for as long as it stores that version |
| Convergence.AcceptedIsStored | mirror.go:178-198 | a version the mirror has accepted since the start is stored by the end of a loss-free round |
| Convergence.RoundCarries | dht/dht_content.go:78-174 | one loss-free round carries a version across one contact edge, to a node that started with an older version cached or none |
| Convergence.GossipConverges | dht/dht_content.go:78-174 | after d loss-free rounds every node within d hops of a holder of version t, over nodes that started with older versions cached or none, holds t or newer, verified |
| Convergence.CachedNodeNeverHolds | mirror.go:134-154 | a node restarted with the newest version cached drops every manifest and never holds or announces one |
| Convergence.ConvergesExactlyWhen | mirror.go:134-198 | for the newest version the end of such a path holds it if and only if it did not start with it cached |
| Mirror.FetchIsChecked | mirror.go:415-449 | a chunk is returned exactly when some source offers bytes of that hash, and only such bytes |
| Mirror.FirstSourceWins | mirror.go:415-449 | peers are asked in order and the relay last: the first good answer is returned |
| Mirror.SyncedFileIsVerified | mirror.go:375-410 | of a sync by itself: success means the file is a concatenation of chunks of the listed hashes; nothing but it and its temporary file is touched |
| Mirror.CompleteMeansOnDisk | mirror.go:229-291 | of a sync by itself that reports complete, for manifests of any length: a file is verified on disk if and only if no temporary destroys it and, if skipped, it was right before and not deleted |
| Mirror.FileSyncsExactlyWhen | mirror.go:375-411 | a file syncs if and only if it can be created and renamed and every chunk is offered with the right hash by some source and written |
| Mirror.FileMapIsLast | mirror.go:232-235 | the maps of the wanted and the previous files have exactly the listed paths, each with its last entry |
| Mirror.StateRecordedExactlyWhen | mirror.go:268-277 | of a sync by itself: the state is left alone exactly by an aborted one or a failed open, and is the new one otherwise, even after a failed file |
| Mirror.CompletesExactlyWhen | mirror.go:229-291 | a sync is complete if and only if it is never superseded and every file is skipped or can be synced |
| Mirror.CleanSyncMirrors | mirror.go:229-291 | a clean sync by itself takes an exact mirror of one manifest to an exact mirror of the next, if and only if no temporary destroys a file of it |
| Mirror.CleanRunMirrors | mirror.go:229-291 | after any run of clean syncs one after another from an empty directory the files are exactly the last manifest's, each verified chunk by chunk |
| Mirror.FailedFileIsSkippedForever | mirror.go:257-277 | a missing file that failed once, for any reason, in a manifest of any length stays missing over every later run of syncs that list it with the same chunks, and whether one of them reports complete depends on the other files only |
| MirrorOverlap.UndisturbedIsSequential | mirror.go:229-411 | whatever other syncs do elsewhere, on places they leave alone a sync does exactly what it does by itself |
| MirrorLocal.OverlappedCompleteMeansOnDisk | mirror.go:229-411 | of a sync overlapped by any others: a file whose place and temporary they leave alone, whatever they do to its other files, is verified on disk at the complete report if and only if it survives |
| MirrorSpare.NewestFileOnDisk | mirror.go:229-411 | the same from a condition at the moment a sync starts that is still the newest at its report: every older sync has read its list, has nothing left to delete at the file's place and is not working on a file of that place; over manifests in which no place is a temporary and the state file is neither |
| MirrorSpare.SparesAllButOne | mirror.go:339-411 | an older sync past its deletions fails that condition for at most one file of the newest manifest |
| MirrorOverlap.InTurnIsSequential | mirror.go:229-291 | if each sync reads the old list only when all earlier ones have recorded their state, have ended or stand at a check between two files, every interleaved run leaves the disk of the syncs one after another, aborted and failed ones included |
| MirrorOverlap.InTurnRunMirrors | mirror.go:229-291 | under that condition an interleaved run of clean syncs ends with exactly the last manifest's files |
| MirrorServing.IndexIsLastStored | mirror.go:279-283 | in every interleaved run the chunk index is that of the last sync to store one, and empty before |
| MirrorServing.InTurnRunServesExactlyWhen | mirror.go:279-337 | after an interleaved run of clean syncs that take turns on the disk the last manifest is served exactly if and only if the manifest whose index was stored last is still good for it: each hash listed now was listed then and a file of the last manifest was cut to hold its bytes where it was listed last, and where a hash listed only then was listed last no file of the last manifest reaches; in particular if the newest sync stored last |
| MirrorServing.CutAlikeIsSameHash | mirror.go:295-310 | where two versions of a file are cut alike up to a chunk, whether the older location holds the older chunk is decided by the two lists of hashes alone |
| MirrorOverlap.SupersededStopsSoon | mirror.go:339-411 | once superseded, a sync changes the disk at most three more times, deletions of unlisted files aside |
| MirrorTraces.OverlapCorrupts | mirror.go:381-408 | two syncs of one path share a temporary: a run in which the newer one skips nothing, is never superseded, reports complete and leaves the older one's bytes, whatever the older one's later checks see |
| MirrorTraces.LateRecordWins | mirror.go:268-291 | a run in which an older sync past its last check records its state over a newer one's, both report complete and a file that is no longer listed stays |
| MirrorTraces.LateIndexWins | mirror.go:278-283 | a run of clean syncs that take turns on the disk in which the older one stores its index last, and a chunk of the newer manifest that is on disk is not served |
| MirrorTraces.StaleIndexMisleads | mirror.go:317-337 | a run in which the older index leads into the newer bytes and a peer is sent a chunk of another hash |
| ChunkIndex.BuildChunkIndex | mirror.go:295-310 | the nested loops build the index Indexed describes |
| ChunkIndex.IndexedIsLast | mirror.go:295-310 | the index maps exactly the listed hashes, each to the position of the last chunk that has it |
| ChunkIndex.OffsetsFollowPieces | mirror.go:299-307 | the running offset and size are where the publisher's k-th piece lies |
| ChunkIndex.ServesExactlyTheManifest | mirror.go:295-337 | with a well-cut manifest on disk, exactly its hashes are answered, each with bytes of that hash, even when hashes recur |
| ChunkIndex.CleanRunServes | mirror.go:279-337 | after any run of clean syncs one after another a node serves exactly the last manifest |
| MirrorManager.Manager.OnContentManifest | mirror.go:171-198 | accepted exactly when verified and newer; each acceptance raises version and generation |
| MirrorManager.Manager.FetchChunk | mirror.go:415-444 | peers in order, then the relay, each answer checked |
| MirrorManager.Manager.SyncFile | mirror.go:375-410 | chunk by chunk into a temporary file, renamed at the end, removed on any failure |
| MirrorManager.Manager.DeleteStale | mirror.go:239-249 | removes the previously listed files that are no longer wanted, in any order |
| MirrorManager.Manager.ListFiles | mirror.go:345-359 | path to entry, later entries winning |
| MirrorManager.Manager.SyncFiles | mirror.go:251-266 | the loop over the files ends as FilesSynced says, aborted at the first superseded check |
| MirrorManager.Manager.Sync | mirror.go:229-291 | the disk, including a state file cut short by a failed write, and the completeness report end as Synced says, and the index is rebuilt exactly on completion |
| RoutePlan.CandidatesAreRoutes | router.go:732-778 | the nested loops generate exactly the chains of at most three live relays, pairwise distinct in id and operator, for each control |
| RouteLaws.LeftOutOnlyIfWorse | router.go:732-798 | for every built list: a route through live relays to a chosen control that is not stored leaves five others, none of which it is preferable to: paths through relays go before direct ones, and among paths of one kind the lower score is kept |
| RouteLaws.ScoreAddsUp | router.go:1063-1112 | the score of a path is, in the nodes its control and hops are looked up as, their milliseconds, a hundred for loss, twenty or a hundred for silence, ten a relay, thirty off for a UDP first hop, whose connection it carries |
| RouteLaws.NodeScoreAddsUp | router.go:1050-1061 | the score that ranks nodes is its round trip, traffic counting seven parts to the probe's three, a hundred for loss and two hundred an eviction of the last five minutes up to two thousand |
| RouteLaws.AliveExactlyWhile | router.go:1019-1027 | a node is alive exactly until thirty seconds after it was seen, and not while its data path is known dead |
| RouteLaws.ControlsTakePart | router.go:633-705 | exactly which controls are chosen: the alive ones, of the country if one there is alive, TCP ones if there are any; TCP ones abroad only to fill up to three, as many as there are, the cheapest |
| RouteLaws.RelaysTakePart | router.go:707-730 | exactly which relays take part: all alive ones, of the country if one there is alive, or twenty of them than which no other scores lower |
| Router.ShorterIsCheaper | router.go:1089-1110 | dropping the last relay of a multi-hop path lowers its rank key |
| Router.ClosedUnderDropLast | router.go:732-808 | the stored list is closed under dropping the last relay of a multi-hop path |
| Router.ShortPathKept | router.go:732-808 | with every stored path a path of at most one relay to the same control is stored |
| Router.RelaysWithinPathDiffer | router.go:746-766 | relays within a stored path are known, alive and pairwise distinct in id and operator |
| Router.PathsExistIffControlAlive | router.go:633-690 | there are paths if and only if some control is alive |
| Router.OutOfCountryOnlyAsSupplement | router.go:640-705 | with an in-country control alive, an out-of-country one appears only if fewer than three in-country survive the TCP filter, is TCP, and no cheaper TCP one abroad was left out |
| Router.CursorAlwaysValid | router.go:808-859 | the path index is valid after any mix of rebuilds, advances and resets |
| RouteLaws.CursorCountsAdvances | router.go:808-859 | after any operations the paths are those of the last rebuild and the cursor has gone round them once for each advance since that or the last reset |
| Router.AdvanceVisitsEachOnce | router.go:841-852 | from the first path Advance visits each path once, in order, before it reports exhaustion and wraps |
| Router.Router.FilterControls | router.go:633-684 | the country and TCP filters |
| Router.Router.SelectControls | router.go:686-705 | the supplement takes the lowest-scored spare controls up to three in all |
| Router.Router.SelectRelays | router.go:707-730 | same-region live relays, else all live ones, the twenty lowest-scored |
| Router.Router.GenerateChains | router.go:739-777 | the relay loops produce the chains in order |
| Router.Router.ScorePath | router.go:1075-1112 | control and relay costs, ten per hop, thirty off for a UDP first hop |
| Router.Router.PickFive | router.go:785-806 | five or all of the candidates, none of those left out preferable to one kept |
| Router.Router.BuildPaths | router.go:629-809 | stores what Built describes and restarts the cursor unless no path exists |
| TunnelRead.FramedReader.Read | tunnel.go:149-178 | copies from the buffer or the next decrypted frame; a short, oversized or broken frame is an error |
| TunnelRead.ReadConserves | tunnel.go:149-178 | one Read neither loses nor invents bytes and fails only when nothing is left |
| TunnelRead.ReadFailsExactlyWhen | tunnel.go:149-178 | a Read fails exactly when nothing is buffered and the next frame is cut short, over a megabyte or does not decrypt, and otherwise returns as much as fits |
| TunnelRead.DeframeInvertsFrame | tunnel.go:135-178 | reading back framed plaintexts gives their concatenation |
| TunnelRead.TunnelConn.Read | session.go:187-217 | buffered bytes first, else the next chunk with the rest kept; fails exactly when nothing is buffered and the close or the end of the channel is taken |
| TunnelRead.TakeMakesProgress | session.go:187-217 | a Read with room returns as much as fits of the buffer or the next chunk, never nothing, and keeps the rest |
| TunnelRead.BytesConserved | session.go:349-367 | at every step of every interleaving, delivered, buffered, queued, held and still encrypted bytes are in order exactly the bytes owed |
| TunnelRead.PullEndsExactlyWhen | session.go:349-367 | the producer's stream is over exactly when a Read of it fails; otherwise what was read, at most 64 KB, is held for the channel |
| TunnelRead.CallerReadsInOrder | session.go:187-217 | what was delivered is a prefix of what is owed, and all of it once the buffers are empty |
| PipeWrite.PipelineIsSound | session.go:125-163 | sequence numbers are 1, 2, 3, ..., at most the width are outstanding and one more, the farewell, once closed, payloads in number order are the accepted writes |
| PipeWrite.ToldApartExactlyWhen | tunnel.go:1138-1145 | in every run the numbers on the wire are distinct, and distinct from Dial's, if and only if fewer than 2^32 requests were launched |
| PipeWrite.ReorderingRestoresWrites | tunnel.go:897-902 | whatever arrives in whatever order, while requests can be told apart, the gapless part is a prefix of the accepted bytes, and all of them once everything arrived |
| PipeWrite.WrappedNumberMisleads | tunnel.go:1145 | a run, from the start, of 2^32 + 1 requests in which the last can arrive in the place of the first, and what is passed on is no prefix of what was written |
| PipeWrite.NoWriteAfterError | session.go:128-149 | a Write begun after the first recorded error is never launched |
| PipeWrite.FirstErrorSticks | session.go:146-161 | the first recorded error stays, and the Writes still accepted are exactly those past their second check that take their number, fewer than the width |
| PipeWrite.RacingWriteIsAccepted | session.go:146-161 | with a width of two or more there is a run, from the start, in which such a Write is accepted after an error has been recorded |
| PipeWrite.FreeWriteIsLaunched | session.go:125-163 | without error, close or full window a Write is launched with the next number |
| PipeClose.NoWriteAfterClose | session.go:132-136 | in every run a Write whose closed check comes after the close is never launched |
| PipeClose.OnlyEnteredAfterClose | session.go:132-145 | in every run the Writes launched after the close are among those already past their closed check |
| PipeClose.ClosingWriteIsAccepted | session.go:132-163 | a run, from the start, in which such a Write is accepted after the close |
| PipeClose.OpenPipeRefusesNone | session.go:125-163 | in every run, while there is neither an error nor a close, every Write is in progress or launched |
| PipeClose.FarewellIsLastWord | session.go:395-406 | in every run at most one request is nobody's Write; it is empty and comes after the close |
| StreamLoop.Run | session.go:266-391 | the loop reaches the state the outcomes determine |
| StreamLoop.HeadBounds | session.go:306-343 | at the loop head both counters are below five and never both positive |
| StreamLoop.FailsByBursts | session.go:313-390 | renewals, reports and failure are determined by the number of bursts of five uninterrupted same-kind failures |
| StreamLoop.OnlyAfterFive | session.go:327-379 | a renewal or failing give-up follows five uninterrupted failures of one kind, the last possibly the work of a close |
| StreamLoop.ReportsBounded | tunnel.go:1176-1195 | at most one report beyond the renewals; a 404 or a close that is merely noticed adds none |
| StreamLoop.CloseReportsExactlyWhen | session.go:304-379 | a close that aborts an open or a young stream adds a report if and only if it is the fifth failure of a burst |
| StreamLoop.CloseAfterFourReports | session.go:327-334 | four failures of one kind and a close that cuts off the fifth give a report |
| StreamLoop.StopsAsNoticed | session.go:304-345 | a running loop that meets a 404 is gone, one that notices a close is closed; nothing else about it changes, then or later |
| StreamLoop.GivesUpAtTwenty | tunnel.go:1181-1195 | a connection failing in one way gives up at exactly the twentieth failure with four reports |
| StreamLoop.AlternatingNeverGivesUp | session.go:327-345 | alternating failures are retried for ever without a report |
| DialWindow.Dialer.RecordDialOutcome | tunnel.go:1306-1376 | prunes, appends, updates both flags and fires on rising edges |
| DialWindow.Dialer.FailRatio | tunnel.go:1385-1413 | prunes and returns the ratio, zero when there is too little to judge |
| DialWindow.WindowIsRecentHistory | tunnel.go:1316-1326 | the kept window is the full history of the last thirty seconds after any interleaving |
| DialWindow.FailRatioIsOfHistory | tunnel.go:1385-1413 | the ratio is the failed share, counted by position, of all outcomes of the last thirty seconds, zero with fewer than three or less than ten seconds between |
| DialWindow.HardImpliesSoft | tunnel.go:1336-1356 | the hard flag is never up without the soft one |
| DialWindow.FiringsAreSeparated | tunnel.go:1336-1356 | two firings of one hook are separated by a recording with enough outcomes of which less than its share failed |
| DialWindow.FlagIsLastVerdict | tunnel.go:1336-1356 | a hook's flag is up if and only if the last recording that looked back on three outcomes over ten seconds found half of them, or four fifths, failed |
| DialWindow.FiresExactlyWhen | tunnel.go:1336-1375 | in terms of the recorded outcomes alone: a hook fires if and only if half, or four fifths, of the last thirty seconds failed, with enough of them, and the last earlier recording with enough did not find so |
| UdpRelay.RoundTripsMatch | udp_relay.go:184-230 | while ids do not repeat, a successful round trip returns a response produced for its own request; at most three sends; pending is exactly the calls in progress |
| UdpRelay.ReusedIdTakesLateReply | udp_relay.go:185-194 | a run, from the start, in which a call that draws the id of one that gave up returns the late reply to that one |
| UdpRelay.LateRepliesDropped | udp_relay.go:113-126 | replies to a finished call change nothing |
| UdpRelay.ReplyInTimeSucceeds | udp_relay.go:113-126 | a response delivered while the call waits is what the call returns, and it clears the failure count |
| UdpRelay.FailedLatches | udp_relay.go:241-249 | failed, once set, stays set |
| UdpHistory.EndsExactlyWhen | udp_relay.go:184-230 | in every run a call ends exactly with the first response delivered to it, after three writes that timed out, on a failed write or on a close, and returns just that |
| UdpHistory.OutcomesAreRecorded | udp_relay.go:203-237 | in every run the outcomes recorded are a success for each call that returned a response and a failure for each other one and for each ping that could not be written, none for a call cut off by a close |
| UdpHistory.LatchExactlyWhen | udp_relay.go:234-275 | a caller goes on to set the latch exactly at the fifth failure so recorded in a row or the third ping without a pong between, and nothing else sets it |
| UdpHistory.KeepaliveStops | udp_relay.go:253-275 | after a ping that could not be written, or the third without a pong, no other follows |
| UdpHistory.StoppedOnlyByClose | udp_relay.go:222-258 | in every run calls are cut off only after a close, and no ping is written then |
| UdpHistory.PendingIdsAreAvoided | udp_relay.go:185-194 | whatever ids are drawn, a call in progress is never displaced by another |
| RelayCodec.EncodeRequest | udp_relay.go:290-310 | the buffer holds header and fields in order |
| RelayCodec.EncodeResponse | udp_relay.go:350-365 | the buffer holds header and fields in order |
| RelayCodec.DecodeRequestExactly | udp_relay.go:312-339 | accepts exactly the frames that carry the request's encoding |
| RelayCodec.RequestRoundTrip | udp_relay.go:290-339 | a request survives if and only if its fields fit their length fields |
| RelayCodec.DecodeResponseExactly | udp_relay.go:367-382 | accepts exactly the frames that carry the response's encoding |
| RelayCodec.ResponseRoundTrip | udp_relay.go:350-382 | a response survives if and only if status and body length fit |
| RelayCodec.DispatchRecognises | udp_relay.go:105-112 | every written frame is dispatched under its own id and type |
| WireLayout.FieldsAreBigEndian | udp_relay.go:290-310 | 16- and 32-bit fields hold the value, truncated, most significant byte first |
| WireLayout.DispatchedExactlyWhen | udp_relay.go:105-112 | a frame is dispatched exactly when it starts with the bytes SNCU, an id and a type |
| WireLayout.RequestLayout | udp_relay.go:290-310 | header with type 1, then path, token and body, each behind its length, at these offsets |
| WireLayout.ResponseLayout | udp_relay.go:350-365 | header with type 2, then status, body length and body, at these offsets |
| TunnelCodec.BuildUploadPlain | tunnel.go:78-96 | the buffer holds type, id, sequence number, target and payload |
| TunnelCodec.UploadRoundTrip | tunnel.go:1713-1729 | an upload survives if and only if its target fits the 16-bit length |
| WireLayout.UploadLayout | tunnel.go:78-96 | type 0, id, sequence number, target length, target and payload, at these offsets |
| WireLayout.ConnFieldIs | tunnel.go:84-86 | the id's field holds the first sixteen bytes it spells, zeros behind a shorter one, all zeros if it is not hexadecimal |
| WireLayout.UploadReadExactly | tunnel.go:1713-1729 | an upload is read exactly from the frames of that layout |
| TunnelCodec.BuiltResponse | tunnel.go:1733-1746 | the plaintext is never shorter than 516 bytes |
| TunnelCodec.ResponseRoundTrip | tunnel.go:112-131 | padding is transparent; the data comes back if and only if its length fits 32 bits |
| WireLayout.PaddedLayout | tunnel.go:1733-1746 | the data stands behind its length, padded to 512 bytes |
| WireLayout.ResponseReadExactly | tunnel.go:112-131 | a response is refused exactly when it does not decrypt, is too short or announces more than it has; an empty body is no data |
| TunnelCodec.DecodeDatagramBatch | tunnel.go:864-887 | total on arbitrary bytes; reads the frames Decoded describes unless the announced count cannot be reserved |
| TunnelCodec.ReservationIsSafe | tunnel.go:871-873 | with room for a quarter of the data's length every batch that decodes is decoded in full |
| TunnelCodec.BatchDecodesExactly | tunnel.go:864-887 | accepts exactly the byte strings that start with an encoded batch and returns it |
| TunnelCodec.BuildHeader | udp_assoc.go:469-485 | the SOCKS5 UDP header in its IPv4 or IPv6 form, then the payload |
| TunnelCodec.HeaderRoundTrip | udp_assoc.go:414-466 | parsing gives back port and payload and the address in shortest form; the same address exactly when it embeds no IPv4 address |
| WireLayout.HeaderLayout | udp_assoc.go:469-485 | three zero bytes, type 1 or 4, the address in shortest form, zeros for none, port, payload |
| WireLayout.AddressIsRead | udp_assoc.go:414-466 | a packet with a literal IPv4 or IPv6 address is read as laid out in section 7 of RFC 1928, whatever its reserved bytes |
| WireLayout.DomainIsRead | udp_assoc.go:439-456 | a domain name behind its length is resolved; the packet is refused if that fails |
| WireLayout.OthersAreRefused | udp_assoc.go:416-460 | other address types and packets that end too early are refused |
| Cidr.ParseCidrs | cidr.go:29-74 | skips invalid entries, splits the families, sorts each by first address |
| Cidr.Contains4 | cidr.go:87-106 | bisection finds the last entry starting at or below the address and tests only it |
| Cidr.Contains6 | cidr.go:108-133 | the same on sixteen-byte addresses |
| Cidr.Contains | cidr.go:77-85 | IPv4 and IPv4-mapped addresses go to the IPv4 list, other sixteen-byte ones to the IPv6 list |
| Cidr.Search4ExactlyWhen | cidr.go:87-106 | for IPv4 the search answers as a linear scan for every address if and only if no network of the sorted list hides the rest of an earlier one |
| Cidr.Search6ExactlyWhen | cidr.go:108-133 | the same for IPv6 |
| Cidr.AnswersExactlyWhen | cidr.go:76-133 | the set answers for every address as a scan over the networks of both lists if and only if neither list hides an address that is looked up in it and every IPv4 address whose sixteen-byte form is in a listed IPv6 network is in a listed IPv4 network too |
| Cidr.ContainsExactlyWhen | cidr.go:76-133 | the set answers for every address as net.IPNet.Contains over all networks if and only if neither list hides an address that is looked up in it and every address of a listed prefix of ::ffff:0:0/96 is in a listed IPv4 network too |
| Cidr.MappedNetworkIsMissed | cidr.go:41-80 | a prefix such as ::ffff:1.2.3.0/120, alone in the input, contains in either reading IPv4 addresses none of which is matched |
| Cidr.SearchIsScan | cidr.go:12-133 | on disjoint prefixes in any order the search answers as either scan if and only if the IPv4 addresses that this scan finds in listed IPv6 networks are in listed IPv4 networks too |
| Cidr.AnswerIsJustified | cidr.go:76-133 | for arbitrary prefixes a positive answer is justified |
| Cidr.AnswerIsContained | cidr.go:76-133 | for parsed prefixes, overlapping or not, a positive answer is one that net.IPNet.Contains gives for some network |
| CidrText.TextExactlyWhen | cidr.go:26-133 | from the strings to the answer: the set answers for every address as net.IPNet.Contains does for what some string parses to, if and only if neither list hides an address that is looked up in it and the IPv4 addresses of sixteen-byte strings are in four-byte ones too |
| CidrText.DisjointTextIsScan | cidr.go:12-133 | on strings with pairwise disjoint networks, in any order, only the last condition remains |
| CidrText.TextJustifies | cidr.go:26-133 | whatever the strings, a positive answer is one that some string's network gives |
| NodeId.XorIds | dht/dht.go:79-85 | the byte-wise XOR distance |
| NodeId.FindBucketIndex | dht/dht.go:88-95 | the position of the first one bit, 255 for distance zero |
| NodeId.IsCloser | dht/dht.go:98-107 | lexicographic order of the distances |
| NodeId.BucketIsDistanceRange | dht/dht.go:87-95 | bucket i is exactly the distances in [2^(255-i), 2^(256-i)) |
| NodeId.LeadDecides | dht/dht.go:169-173 | a smaller leading 64-bit distance means closer in the full metric |
| NodeId.CloserIsNumeric | dht/dht.go:98-107 | closer means a smaller distance as a number |
| NodeId.LeadIsFront | dht/dht.go:169-173 | the leading part is the distance without its last 24 bytes |
| NodeId.DistanceIsMetric | dht/dht.go:79-85 | the distance is symmetric, zero only between equal ids, has exactly one id at each distance, and a detour is never shorter |
| RoutingTable.Table.AddContact | dht/dht.go:139-147 | replaces by id, or evicts the oldest of a full bucket and appends; never adds ourselves |
| RoutingTable.Table.RemoveContact | dht/dht.go:149-154 | removes the contact of that id |
| RoutingTable.Table.Miss | dht/dht.go:204-209 | counts a miss, marks suspect, evicts at four |
| RoutingTable.Table.Reset | dht/dht.go:211-216 | clears misses and suspicion |
| RoutingTable.TableAlwaysOk | dht/dht.go:235-300 | every sequence of operations keeps every bucket well formed |
| RoutingTable.BucketsHoldTheirRange | dht/dht.go:139-154 | bucket i holds at most eight distinct contacts, none ourselves, at distances in its range, under four misses, suspect iff missed |
| RoutingTable.AddedIsPresent | dht/dht.go:235-248 | an added contact is in its bucket; others stay, save the same id or the oldest of a full bucket |
| RoutingTable.BucketKeepsLastEight | dht/dht.go:235-248 | of new contacts added to one bucket the last eight are kept, in the order they came |
| RoutingTable.AddedAgainReplaces | dht/dht.go:235-243 | a contact that is added again takes the place of the old one |
| RoutingTable.RemovedIsGone | dht/dht.go:250-259 | removing an id takes its contact out and leaves all others in their order; none of that id is left |
| RoutingTable.FourMissesEvict | dht/dht.go:275-288 | repeated misses are counted up to three and the fourth removes that contact only |
| RoutingTable.MissMarksSuspect | dht/dht.go:275-288 | a miss short of the fourth marks the contact suspect and changes nothing else |
| RoutingTable.ResetClears | dht/dht.go:290-299 | a reset gives the contact of that id a clean record and changes nothing else |
| RoutingTable.Table.Closest | dht/dht.go:157-178 | the n first of the non-suspects ordered by leading 64 bits |
| RoutingTable.ClosestCount | dht/dht.go:156-178 | min(n, available) contacts are returned |
| RoutingTable.ClosestAreNearest | dht/dht.go:156-178 | they are non-suspects of the table and no omitted one is nearer in the leading 64 bits |
| RoutingTable.ClosestFollowsCloser | dht/dht.go:97-107 | where leading bits differ the order is that of the full metric |
| RingBuffer.Buffer.Write | log_upload.go:30-52 | overwrites in place, wrapping at the end |
| RingBuffer.SnapshotIsSuffix | log_upload.go:30-68 | after any writes the snapshot is a suffix of everything written, and exactly the capacity once full |
| RingBuffer.FullExactlyWhenOverrun | log_upload.go:35-50 | full from exactly the first write that crosses the end or is at least the capacity |
| RingBuffer.MostRecentExactlyWhen | log_upload.go:16-17 | the snapshot is the most recent bytes up to the capacity if and only if a write overran or less than the capacity was written |
| RingBuffer.ExactFillIsForgotten | log_upload.go:41-50 | writes that fill the buffer a whole number of times without overrunning it leave an empty snapshot |

## Left out

- Cryptography, JSON, HTTP, uTLS, yamux, TUN, OS commands: foreign code, represented by parameters where a law needs them.
- Directories of mirrored files: the disk is flat, and a failing mkdir or open is the environment's `createOk`.
- The polling mode of TunnelConn and synchronous writes: one request at a time, without the buffers proved here.
- MirrorLocal.OverlappedCompleteMeansOnDisk: the condition is on what other syncs touch of this file while this one runs; an interference that happens to be repaired before the report is not told apart from one that is not.
- MirrorRace: the deferred removal of a temporary always succeeds, and a failed chunk write leaves the file as it was.
- UdpRelay: a call leaves the pending table in the step in which it returns.
- The peer connection pool of the mirror and `mirror_transport.go`: the same protocol shape as the UDP relay.
- RouteLaws.LeftOutOnlyIfWorse: which of equally ranked candidates at the cut of five are kept is not fixed, because relays are ranked by an unstable sort and the result is shuffled.
- RoutingTable: locks, timestamps' use and re-probing of suspects in `dht_node.go`; contacts are added with a suspect flag that agrees with their miss count, as every caller does.
- Control-manifest gossip and the discoverer: the content channel without the inner timestamp check.
- Watchdog, DNS cache, bypass manager, SOCKS5 handshake, dialer pool weights, log rotation: single-branch facts or library wrappers.
