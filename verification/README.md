# ttracker: a verified model

ttracker is a BitTorrent tracker. Its main thread accepts clients; reader threads parse their requests; worker
threads answer announces and scrapes with bencoded replies. Requests travel in `thread_data` taken from one
bounded pool, text travels in buffers taken from another, and the threads meet at a last-in first-out list
(main to readers) and a first-in first-out queue (readers to workers).

This project models that server and proves what it relies on. Everything is in Dafny; `dafny verify dfyconfig.toml`
checks all of it.

| files | what they model |
|---|---|
| `Pipeline`, `PipelineInvariant`, `PipelineSteps`, `PipelineTheorems`, `PipelineSchedules`, `PipelineTight`, `PipelineDrain`, `PipelineDeadlock`, `PipelineOrder` | the running server as a step system: every region under a mutex is one step, and every condition wait is split into falling asleep, being woken (also spuriously) and testing again; the numbers of readers and workers and the pools' caps are parameters |
| `Queues` | the job queue and the thread_data list as objects, with what order they keep |
| `PoolSpec`, `BufferPool`, `TdPool` | the two bounded pools: the locked regions as functions, and the pools as objects whose scans and loops are proved against them |
| `Decimal`, `Bencode`, `BencodeWriter` | decimal numerals, bencoding (BEP 3) with a decoder, and the recursive writer over a bounded array |
| `Announce`, `Scrape` | the two hand-written reply printers, and the arithmetic of their 128 bytes per entry; the scrape reply follows BEP 48 |
| `TorrentPeers`, `TrackerRuns`, `TrackerAnnounces`, `TrackerReplies`, `TrackerExamples` | a torrent's peer list and counters; any number of workers handling announces and scrapes at once; what each announcement does; the lists printed; and runs in which something goes wrong |
| `Query`, `QueryTheorems`, `QueryLaws` | the query scanner, a printer of requests it undoes, and which requests it lets through |
| `Buffer`, `Response` | the growable buffer, and the reply path with its write loop |
| `Sums`, `Lists`, `CStrings`, `Monitors` | totals over sequences, lists built by head insertion, C strings, and what a region that may wait answers |

Main results:

- **Buffers.** In every reachable state at most `tdCap + 2 * readers + workers` buffers are out (28 as shipped), so with
  the shipped cap no thread ever waits for a buffer. The bound is exact: some run has them all out at once.
- **Progress.** Whenever anything is outstanding some thread can step; once no more clients are accepted, every schedule
  ends within a computed number of steps, with both pools full and every accepted client closed exactly once. The server
  never deadlocks exactly when it has more than `tdCap + min(readers, tdCap)` buffers (64 against 20 as shipped).
- **Wakeups.** No wakeup is lost on any of the four condition variables, although adding an item and signalling are
  separate critical sections and running consumers may overtake woken ones.
- **Order.** In every run the jobs workers have taken, followed by those queued, are the jobs readers handed over, in that
  order; and a reader always gets the client accepted last among those waiting.
- **Ownership.** Each buffer, `thread_data` and open client has exactly one holder; the pools' aborts are unreachable.
- **Bencoding.** A decoder reads a value off a text exactly when the text starts with its encoding; both printers leave exactly
  the encoding of their trees, and so does the recursive writer exactly for trees without empty strings.
- **Replies.** A scrape reply always fits its allocation and decodes to the torrents asked for, keyed by the raw hashes.
  In every run of conforming clients an announce reply fits exactly when two or more peers are listed, or one whose entry
  leaves room for the counters, as long as no removal has missed its peer.
- **Announcements.** In every run each announcement does exactly what its event asks for: only a start from an unlisted address
  inserts, only a completion counts, only a stop removes, and any other changes nothing.
- **Torrent state.** Peer uniqueness and the removal guard hold in every run of any number of workers. A peer a worker has
  found is still listed exactly when no earlier step removed it; a removal misses exactly when the peer was removed before;
  and the peer count is the list's length exactly as long as no removal has missed.
- **Queries.** The scanner undoes the printer exactly when the last value has at most 246 characters. An announce is let
  through exactly when its repeated required keys make up for the missing ones.

Where the code and what it is meant to do disagree, the code is modelled, a concrete input or run shows the disagreement, and
a theorem says exactly when the code does what was meant:

| shown by | exactly when it is right |
|---|---|
| `QueryTheorems.RepeatsPass`: a request with six `info_hash` pairs is let through, and the lookup of its port gives NULL | `QueryTheorems.AcceptedIffComplete`, `MandatoryLookupsSucceed`: nothing is missing, or the surplus falls short of what is |
| `QueryTheorems.ParseOfPrint`: an over-long last value leaves a pair that was never sent | `QueryTheorems.ParseUndoesPrint`: the last value has at most 246 characters |
| `TrackerExamples.RemovalCanMiss`: two stops of one peer leave a peer count of -1 | `TrackerRuns.ListedUnlessRemoved`, `MissedIffRemovedTwice`, `CountRightUnlessMissed`: no peer is removed twice |
| `TrackerExamples.ReplyCanBeEmpty`: a reply is given room for no peer | `TrackerReplies.ReplyRoom`: the list is longer than the removals that missed |
| `TrackerExamples.OnePeerOutgrows`: one peer's reply no longer fits after 100000 completions | `TrackerReplies.RepliesFit`: two peers, or one with room for the counters |
| `BencodeWriter.WriteOneEmpty`: a list of one empty string comes out as `e` | `BencodeWriter.ReturnedExact`: no string is empty |
| `Announce.AgreeWhateverFollows`: a field of 64 characters or more is stored without an end | `Announce.PeerDictsAgree`: each field is read back as it was |
| `PipelineDeadlock.CanDeadlock`: with too few buffers every thread sleeps | `PipelineDeadlock.DeadlockThreshold`: more buffers than thread_data and readers that can sleep with two |

## Model

| member | source | states |
|---|---|---|
| PipelineTheorems.BufferDemandBound | main.c:385-413 | in every reachable state, for any configuration, no more than tdCap + 2 readers + workers buffers are out; if the cap covers that, every thread at a get is running and gets a buffer at once, and the pool stops growing at that number rounded up to fours |
| PipelineTheorems.ShippedDemand | main.c:241-261 | with four readers, four workers, 16 thread_data and 64 buffers: at most 28 buffers out, at most 28 ever made, and nobody asleep at a get |
| PipelineTight.DemandAttained | main.c:385-413 | the bound is exact: whenever there are thread_data enough to keep all readers and workers busy, some run has all the demand out at once, as shipped 28 |
| PipelineTheorems.BufferDemand | work.c:301-308 | the buffers out are bounded by the thread_data in use plus two for each reader and one for each worker, from the equality of what is held and what the pools have handed out |
| PipelineTheorems.RoomForOneMore | http.c:226-236 | a thread about to take its next buffer, with up to two in hand, leaves the total below the bound |
| PipelineTheorems.GetBufferSucceeds | buffer_pool.c:52-72 | while the demand is covered, the get region hands out a buffer and does not wait |
| PipelineTheorems.Exclusive | main.c:393-411 | in every run a buffer, thread_data or open client is held in at most one place, never by two threads, and what a thread holds is marked in use |
| PipelineTheorems.JoinNeverAborts | buffer_pool.c:74-91 | every join the server makes is of an entry in use: neither the assert nor the abort can be reached, in either pool |
| PipelineTheorems.ClosedAtMostOnce | work.c:302-308 | a client is closed at most once, never unless accepted, and an accepted one not yet closed is in exactly one place |
| PipelineTheorems.WakeupsNeverLost | work.c:19-44 | in every run a sleeper on any condition implies that no more is available than woken consumers and producers between adding and signalling; sleepers on a pool exist only at its cap |
| PipelineOrder.JobsInOrder | work.c:34-66 | in every run the jobs taken by workers so far, followed by those in the queue, are the jobs handed over by readers, in the order in which they were; both read off where the threads are |
| PipelineOrder.ThreadDataNewestFirst | work.c:343-371 | in every run the thread_data on the list stand newest client first, and each step puts on and takes off at the head |
| PipelineOrder.ReaderGetsNewest | work.c:360-380 | a reader that takes a thread_data gets the client accepted last among those waiting, and leaves the others in order |
| PipelineOrder.LastTakenFirstReturned | http.c:226-314 | each thread gives buffers back in the reverse order of taking them, hands over with a job the one taken last, and closes a client with its first still held |
| PipelineOrder.ReadHasThreeEnds | http.c:204-241 | reading a request ends as a query, a malformed one or nothing usable, and in no other way |
| PipelineSteps.NextKeeps | main.c:368-413 | every step of every thread, spurious wakeups included, keeps ownership, the pools and the wakeup account |
| PipelineSteps.InitHolds | main.c:241-261 | they hold when the threads start |
| PipelineSteps.AcceptKeeps | main.c:174-183 | accepting a client keeps them |
| PipelineSteps.GetTdKeeps | td_pool.c:50-69 | taking a thread_data, or falling asleep for one, keeps them |
| PipelineSteps.EnqueueTdKeeps | work.c:343-352 | putting a thread_data on the list without yet signalling keeps them |
| PipelineSteps.SignalReadersKeeps | work.c:354-358 | the separate signal keeps them, whichever reader it wakes |
| PipelineSteps.DequeueTdKeeps | work.c:360-380 | taking a thread_data off the list or falling asleep keeps them, also when the item was meant for another reader |
| PipelineSteps.GetBufferKeeps | buffer_pool.c:52-72 | the five gets of the server keep them |
| PipelineSteps.ReturnBufferKeeps | buffer_pool.c:74-91 | so do the six joins, with the signal they end in |
| PipelineSteps.CloseKeeps | main.c:404-407 | closing a client moves it from its one holder to the closed |
| PipelineSteps.EnqueueJobKeeps | http.c:229-236 | handing a job over moves its thread_data and body buffer to the queue, before the reader has signalled |
| PipelineSteps.SignalWorkersKeeps | work.c:28-32 | the reader's later signal keeps them |
| PipelineSteps.DequeueJobKeeps | work.c:19-26 | taking a job or falling asleep keeps them |
| PipelineSteps.ReturnTdKeeps | td_pool.c:71-90 | giving a thread_data back, with its signal, keeps them |
| PipelineSteps.LocalKeeps | http.c:204-241 | reading a request ends as parsed, malformed or unusable, and each keeps them |
| PipelineInvariant.MoveCovers | work.c:19-26 | when a thread may move, fall asleep or overtake without losing a wakeup |
| PipelineInvariant.SignalCovers | work.c:28-32 | a signal makes up for one more item, whichever sleeper it wakes |
| PipelineDrain.RequestsFinish | main.c:368-413 | for every configuration with more than tdCap + min(readers, tdCap) buffers, threads that wait for buffers included: in every reachable state with anything outstanding some thread can step; without further accepts every schedule is bounded, and where it can go no further both pools are full, list and queue empty, and every accepted client closed exactly once |
| PipelineDeadlock.DeadlockThreshold | buffer_pool.c:7-10 | that number is exact: the server never stops with anything outstanding if and only if the buffer cap is above it |
| PipelineDeadlock.CanDeadlock | main.c:403-404 | at or below it, some run ends with no step left, every thread but main asleep and every buffer held |
| PipelineDrain.AmpleIsRoomy | buffer_pool.h:10 | the shipped sizes, and every cap that covers the demand, are above it |
| PipelineDrain.StepShrinks | work.c:269-311 | every step but accepting and spurious waking decreases one measure over stages, pending signals and woken threads |
| PipelineDrain.AwakeCanStep | main.c:393-413 | no thread that is awake is ever stuck |
| PipelineDrain.QuietIsDrained | td_pool.c:27-90 | a state in which nobody can step is drained: there is no deadlock among the pools, the list and the queue |
| PipelineDrain.CanDrain | work.c:343-380 | from every reachable state a drained one can be reached without accepting |
| Queues.FirstInFirstOut | work.c:34-44 | whatever is queued and taken in between, what has been taken followed by what waits is what was queued, in order |
| Queues.LastInFirstOut | work.c:343-371 | the thread_data taken is the newest of those waiting |
| Queues.NothingLost | work.c:343-371 | each thread_data put on the list is there or has been taken, as often as it was put |
| Queues.WorkQueue.Enqueue | work.c:34-44 | the queue is what its history says after one more put |
| Queues.WorkQueue.TryDequeue | work.c:19-26 | one pass of the wait loop: waits exactly when empty, otherwise gives the next job in order |
| Queues.TdList.Enqueue | work.c:343-352 | the list is what its history says after one more put |
| Queues.TdList.TryDequeue | work.c:360-380 | waits exactly when empty, otherwise gives the first thread_data of the list |
| PoolSpec.EnterHandsOut | buffer_pool.c:52-72 | a get waits exactly when all entries up to the cap are in use, grows only when full, and otherwise hands out an identity nobody holds and changes no other |
| PoolSpec.ResumeHandsOut | buffer_pool.c:7-10 | a woken caller sleeps again exactly when the pool is full and never finds nothing: get does not return NULL |
| PoolSpec.TakeFinds | buffer_pool.c:60-71 | whenever the counters leave room, the scan finds a free entry |
| PoolSpec.JoinGivesBack | buffer_pool.c:74-91 | a join succeeds exactly for an identity in use and frees that one only |
| PoolSpec.TakeThenJoin | buffer_pool.c:60-91 | handing out and giving back restores the pool, list order included |
| PoolSpec.InUseWithin | buffer_pool.c:54-59 | inuse counts the entries in use, so it reaches num exactly when all are |
| PoolSpec.GrownIsValid | buffer_pool.c:35-50 | growing by four below the cap keeps num the list's length, a multiple of four and within the cap |
| BufferPools.BufferPool.constructor | buffer_pool.c:20-33 | a new pool has four free buffers |
| BufferPools.BufferPool.Populate | buffer_pool.c:35-50 | adds four free fresh buffers at the head, or reports the cap and changes nothing |
| BufferPools.BufferPool.TakeFirstFree | buffer_pool.c:60-71 | takes the first free entry of the list, whose buffer was not held and is empty; NULL exactly when all are in use |
| BufferPools.BufferPool.GetBuffer | buffer_pool.c:52-72 | does what the locked region is specified to do, never returns NULL, and adds exactly the buffer returned to those held |
| BufferPools.BufferPool.ResumeGetBuffer | buffer_pool.c:7-10 | the same for a caller that has been woken |
| BufferPools.BufferPool.JoinBuffer | buffer_pool.c:74-91 | aborts exactly for a buffer not held; otherwise empties it and takes it, and only it, out of those held |
| TdPools.TdPool.constructor | td_pool.c:5-17 | a new pool has four free thread_data |
| TdPools.TdPool.Populate | td_pool.c:32-48 | adds four, or reports the cap of sixteen |
| TdPools.TdPool.TakeFirstFree | td_pool.c:59-68 | takes the first free entry; NULL exactly when all are in use |
| TdPools.TdPool.GetTd | td_pool.c:50-69 | does what the locked region is specified to do and hands out a thread_data that was not held |
| TdPools.TdPool.ResumeGetTd | td_pool.c:27-30 | the same for a caller that has been woken |
| TdPools.TdPool.JoinTd | td_pool.c:71-90 | aborts exactly for a thread_data not held; otherwise frees that one only |
| Bencode.RoundTrip | bncode.c:141-170 | decoding an encoded value gives the value and the untouched rest |
| Bencode.DecodeExact | bncode.c:141-170 | a text decodes to a value and a rest exactly when it is the value's encoding followed by the rest |
| Bencode.PrefixFree | bncode.c:141-170 | different values have different encodings and none is a proper prefix of another |
| Bencode.DecodeSound | bncode.c:10-29 | whatever the decoder accepts is an encoding, so there is one text for each value |
| Decimal.ReadIntExact | bncode.c:23-29 | a numeral is read as n exactly when it is what %d prints for n |
| Decimal.Int32Length | bncode.c:27-28 | a 32-bit int prints in at most eleven characters |
| BencodeWriter.EncodeBytes | bncode.c:10-21 | prints length, colon and text, cut at the room with a terminator, and returns the length of what is there, also when there is no room at all; -1 and nothing written for the empty string |
| BencodeWriter.EncodeInt | bncode.c:23-29 | prints the int form, cut at the room with a terminator, and returns the length of what is there, also when there is no room at all |
| BencodeWriter.WriteValue | bncode.c:141-170 | for every tree of C strings, empty ones included, ints, lists and dictionaries, with room for the encoding and as much before it as the place may move back: what the writer returns and leaves, each empty string moving its place back by one, and nothing changed past the room; ints are narrowed to 32 bits |
| BencodeWriter.WriteEncoding | bncode.c:141-170 | for trees without empty strings: exactly the encoding and its NUL are left, its length is returned, and no other character of the array changes |
| BencodeWriter.WriteItems | bncode.c:151-156 | the list case, element by element at the running place |
| BencodeWriter.WriteEntries | bncode.c:157-164 | the dictionary case, in list order |
| BencodeWriter.ReturnedExact | bncode.c:151-164 | what WriteValue returns falls short of the encoding's length by three for each empty string; it is that length, and what is left is the encoding, exactly for trees without any |
| BencodeWriter.EmptyStringMiscounted | bncode.c:12-14 | a list of one empty string: 1 is returned for an encoding of 4 characters, and its end mark overwrites its start |
| BencodeWriter.WriteOneEmpty | bncode.c:151-156 | the writer run on that list returns 1 and leaves the C string `e` |
| Announce.ReplyText | torrent.c:61-70 | the printer's three formats together are the encoding of {complete, incomplete, interval 30, peers} |
| Announce.BencodeTorrent | torrent.c:52-71 | with room, the fast printer leaves a text that decodes to complete = seeders, incomplete = leechers, interval = 30 and a peers list of the first min(80, n) peers in list order, each with its port, peer_id and ip, and nothing else changes past it |
| Announce.ReplyAnswers | torrent.c:61-70 | the same of the encoded reply with anything after it |
| Announce.PeerDictsAgree | bncode.c:62-98 | a peer's printed dictionary and the tree of bencode_init_peer decode to equal maps, keys in another order, exactly when each field is read back as it was, whatever follows it in memory |
| Announce.AgreeWhateverFollows | bncode.c:69-70 | they agree whatever follows exactly for fields of fewer than 64 characters and ports that fit an int |
| Announce.ReplyLength | torrent.c:61-70 | the exact length of the reply |
| Announce.ReplyFits | torrent.c:222-227 | with conforming peers and a peer count that is the list's length, the reply and its NUL fit 128 bytes for each peer exactly when there are two or more, or one and counters and entry take at most 75 characters; counters of six characters in all always leave room |
| Announce.OnePeerTooLong | torrent.c:255-257 | for one leeching peer with the longest conforming entry the reply fits exactly below 100000 completions |
| Scrape.HexRoundTrip | http.c:167-168 | twenty bytes printed in hex and scanned again are the same bytes |
| Scrape.HexAt | http.c:167-168 | each byte is printed as two lower-case hex digits, the high one first |
| Scrape.RawRoundTrip | torrent.c:340-343 | and hex text scanned and printed again is the same text |
| Scrape.HexEncode | http.c:161-168 | the loop prints forty hex digits of the first twenty bytes, however many follow |
| Scrape.HexDecode | torrent.c:340-343 | the loop scans them back |
| Scrape.ScrapeFits | work.c:120-122 | n snapshots take at most 100 n + 12 bytes with the NUL, for all 32-bit counters, negative ones included, so 128 n always suffice |
| Scrape.BencodeScrapeCtx | torrent.c:328-353 | every write stays inside the allocation, exactly the encoding of the files tree is left, and its length is returned |
| Scrape.BuildHashList | http.c:36-50 | the hash list is the hex of the values, reversed |
| Scrape.ScrapeCtx.AddTorrent | torrent.c:302-314 | a snapshot goes to the head of the list, each of its fields that of the torrent |
| Scrape.Collect | work.c:105-119 | the loop over the hashes collects one snapshot for each, as its own lookup found the torrent, newest first, or stops at the first hash that is not found |
| Scrape.HandleScrape | work.c:97-125 | the missing-hash error exactly when some lookup fails; otherwise a reply that decodes to a files dictionary with, for each value in list order, its first twenty bytes as the key, and complete, downloaded and incomplete = seeders, complete and leechers of the torrent its lookup found, whatever other workers do between lookups |
| Scrape.ScrapeAnswersQuery | work.c:105-122 | the same of the encoded reply with anything after it |
| TorrentPeers.CountersAddUp | torrent.c:209-277 | seeders + leechers = peer_count + completions, and complete <= seeders, always; each counter agrees with the list exactly while no removal that it counts has missed |
| TorrentPeers.AddInserts | torrent.c:213-220 | an insertion puts the given peer at the head and counts it as seeder or leecher, unless its address is listed; then nothing changes |
| TorrentPeers.UpdateCounts | torrent.c:240-253 | what each action does to each counter; none touches the list |
| TorrentPeers.RemoveUnlinks | torrent.c:262-275 | which peer goes, which stay in which order, and what happens to each counter |
| TorrentPeers.AddKeeps | torrent.c:209-220 | inserting, or not inserting a known address, keeps counters and uniqueness, and leaves the peer listed |
| TorrentPeers.UpdateKeeps | torrent.c:240-253 | completing adds one completion; other updates change nothing |
| TorrentPeers.RemoveKeeps | torrent.c:262-277 | removing a listed peer keeps counters and uniqueness, counts a finished peer as departed, and removes that peer only |
| TorrentPeers.MissKeeps | torrent.c:266-274 | removing a peer no longer listed lowers the counters and is tallied as missed |
| TorrentPeers.TorrentEntry.constructor | torrent.c:133-146 | a new torrent has no peers and zero counters |
| TorrentPeers.TorrentEntry.SearchPeer | torrent.c:161-170 | finds the first peer with that address and port |
| TorrentPeers.TorrentEntry.AddPeerAndReturnList | torrent.c:209-230 | the new state, and the encoded reply of the new state when it fits its allocation |
| TorrentPeers.TorrentEntry.UpdatePeerAndReturnList | torrent.c:233-260 | the new state and its reply; the action that takes only the read lock changes nothing |
| TorrentPeers.TorrentEntry.RemovePeerAt | torrent.c:262-277 | the new state after unlinking a listed peer |
| TrackerRuns.CountersHold | torrent.c:209-277 | in every run of any number of workers, removals that miss included, the counters of every torrent follow its list, completions, departures and missed removals; the peer count is the list's length less the misses |
| TrackerRuns.CountRightUnlessMissed | torrent.c:262-277 | in every run the peer count of a torrent is its list's length exactly when no step so far was a removal that missed |
| TrackerRuns.MissedIffRemovedTwice | torrent.c:264-266 | a removal misses exactly when an earlier step removed the same peer |
| TrackerRuns.PeersStayUnique | work.c:202-237 | in every run no two listed peers share address and port, although the first search is made without the lock |
| TrackerRuns.ReferencesStayListed | torrent.c:172-207 | in every run working is the number of workers between workon and jobdone, never negative, and a torrent a worker points to there is listed; at zero no worker is inside |
| TrackerRuns.NextKeeps | work.c:129-254 | every step of both handlers and of torrent removal, also a peer removal that misses, keeps all of this |
| TrackerAnnounces.AnnounceActs | work.c:202-253 | in every run, each step of a worker against the announcement it entered with: the search leads to an update exactly for a listed address, and to an insertion exactly for a start from one that is not; an insertion puts in the announced peer; an update for a completion adds one to complete and seeders, and for no other event anything; only a stop removes |
| TrackerAnnounces.ReannounceChangesNothing | work.c:246-252 | an announce without an event, and a repeated start of a listed address, changes no torrent from its search on |
| TrackerAnnounces.CompletionsCounted | work.c:239-245 | in every run a torrent's completions are the updates made for announcements of a completion |
| TrackerAnnounces.LookupOutcome | torrent.c:85-115 | a lookup succeeds exactly for a torrent that is listed or that the database knows; only in the second case does it list one, which is empty |
| TrackerAnnounces.LookupLaw | work.c:187-193 | an announcement goes on exactly then, and otherwise leaves |
| TrackerAnnounces.ScrapeLaw | work.c:108-119 | a scrape goes on to its next hash exactly then, and otherwise leaves |
| TrackerAnnounces.DelistLaw | torrent.c:196-207 | a torrent goes off the list only with every worker outside, and alone |
| TrackerRuns.DelistKeeps | torrent.c:196-207 | removing a torrent at zero takes it from nobody |
| TrackerRuns.LookupKeeps | torrent.c:85-115 | looking a torrent up, or creating one the database knows, hands out a listed torrent and never lists a hash twice |
| TrackerRuns.ListedUnlessRemoved | work.c:226-237 | in every run the peer a worker points at, while it updates or removes it, is still listed exactly when no earlier step was a removal of that peer |
| TrackerRuns.ListedUntilRemoved | torrent.c:262-277 | a listed peer leaves its list in a step exactly when that step is a removal of that very peer |
| TrackerRuns.GoneForGood | torrent.c:262-277 | a peer that is off its list is never on it again |
| TrackerReplies.ReplyRoom | torrent.c:222-257 | at each step that prints a list, in every run: the peer count that its room is computed from is positive exactly when the list is longer than the removals that missed, and while none has, exactly when a peer is listed; one is after each insertion, and at an update unless the peer seen was removed |
| TrackerReplies.RepliesFit | torrent.c:222-257 | in every run of conforming announcements with 32-bit counters, each printed list fits its 128 bytes for each counted peer exactly as its length says; while no removal has missed, exactly for two or more peers, or one within 75 characters |
| TrackerReplies.RunConforms | work.c:195-207 | conforming announcements leave only conforming peers listed |
| TrackerExamples.ReplyCanBeEmpty | work.c:230-237 | a run in which, after the first of two concurrent stops of one peer, the second worker prints with a peer count of zero |
| TrackerExamples.RemovalCanMiss | torrent.c:264-268 | and then removes a peer that is no longer listed: the comment's condition does not hold by itself, and the peer count ends at -1 with an empty list |
| TrackerExamples.OnePeerOutgrows | torrent.c:240-257 | for every n a run of conforming announcements, without removals, in which one peer is completed n times: the list printed then fits exactly if n is below 100000 |
| Query.CopyField | http.c:370-389 | a field runs to its stop character, its limit or the end, and is kept up to its first NUL |
| Query.ScanQuery | http.c:369-397 | the scan ends, fails exactly on an empty key, and leaves the scanned pairs reversed |
| Query.FindLineEnd | http.c:340-348 | finds the first line feed that follows a carriage return |
| Query.CountRequired | http.c:401-404 | counts the pairs with a required key, repeats included |
| Query.CheckScrapeKeys | http.c:422-427 | the loop says whether every key is info_hash |
| Query.ParseQuery | http.c:325-436 | line end, version, scan and acceptance together, with every rejection, on any input that starts as a request of its kind |
| QueryTheorems.ScanUndoesPrint | http.c:369-397 | scanning printed pairs gives them in order, and after a last value of more than 246 characters one more pair |
| QueryTheorems.ParseOfPrint | http.c:325-436 | parsing any printed request goes on exactly its pairs reversed, preceded by that left-over pair |
| QueryTheorems.ParseUndoesPrint | http.c:325-436 | the parser gives back the pairs reversed exactly when the last value has at most 246 characters and they are accepted |
| QueryLaws.ScrapeLetThrough | http.c:422-432 | a scrape request is let through exactly when every key is info_hash and the last value has at most 246 characters, and gives its pairs reversed |
| QueryLaws.LineNeeded | http.c:340-361 | whatever is let through has a first line that ends, at least eleven characters on, in a carriage return and a line feed right after HTTP/1.1 or HTTP/1.0 |
| QueryLaws.EmptyKeyRejected | http.c:376-379 | a request with an empty key is turned down, whatever comes after it |
| QueryLaws.LongKeyCut | http.c:370-375 | of a key without an equals sign in its first 127 characters those are kept |
| QueryLaws.LongValueCut | http.c:381-386 | of a value without an ampersand in its first 255 characters those are kept |
| QueryLaws.RequestLine | http.c:367-370 | the printed requests, spelled out |
| QueryLaws.RequiredKeys | http.c:332-334 | the six keys an announce must have |
| QueryTheorems.AcceptedIffComplete | http.c:399-421 | an announce is let through exactly when the surplus of its required keys makes up for the missing ones; so it is let through exactly if complete, if and only if none is missing or the surplus falls short; in particular when none is repeated |
| QueryTheorems.CompleteAccepted | http.c:399-421 | an announce with all six is always let through |
| QueryTheorems.RepeatsPass | http.c:401-404 | a request with six info_hash pairs is let through, and the lookup of its port gives NULL |
| QueryTheorems.LookupKvKey | http.c:28-34 | the first pair of the list with the key |
| QueryTheorems.LookupIsLast | http.c:28-34 | on the parsed list a lookup gives the value of the query's last pair with that key, and fails exactly when there is none |
| QueryTheorems.MandatoryLookupsSucceed | http.c:53-79 | for every printed request, repeats and over-long last values included: when it is let through, when wrongly so, and that each mandatory lookup then finds the value last given, and all succeed exactly when no key is missing |
| QueryTheorems.DistinctKeysSucceed | http.c:53-79 | without repeated required keys: let through exactly when complete, and each lookup finds the one value given |
| Buffers.AlignedMakesRoom | buffer.c:65-82 | making room leaves whole blocks of 64, strictly more than was asked for, and at most cursor + 2 (len + 64) when it grows |
| Buffers.OperationsMean | buffer.c:38-116 | what each operation leaves in the buffer, and exactly when and by how much storage grows |
| Buffers.RoomIsExact | buffer.c:67-68 | below 2^31 the room computed in unsigned 64-bit arithmetic and narrowed to int is the true difference |
| Buffers.StorageBounded | buffer.c:65-116 | after any sequence of operations storage is whole blocks that hold the contents, and at most three times the longest contents so far and 130 |
| Buffers.AppendsConcatenate | buffer.c:94-116 | any run of appends adds exactly the concatenation of what was appended |
| Buffers.Buffer.ZeroBuffer | buffer.c:38-42 | empties the contents, clears the storage and keeps its size |
| Buffers.Buffer.Align | buffer.c:65-82 | contents kept, room for more than len, size as specified |
| Buffers.Buffer.WriteBuffer | buffer.c:85-92 | the contents become the data, unless there are none |
| Buffers.Buffer.AppendStringToBuffer | buffer.c:94-103 | the text is appended and terminated, its length returned |
| Buffers.Buffer.AppendBuffer | buffer.c:105-116 | the other buffer's contents are appended, also when it is this one |
| Buffers.AppendToItself | buffer.c:105-116 | appending a buffer to itself doubles its contents |
| Response.BodyRecovered | http.c:281-289 | the announced length is the body's, so a client that takes that many last characters gets the body |
| Response.ReplySpelled | http.c:264-289 | the whole reply, spelled out for each code, with and without a body |
| Response.FourFailuresAreBorne | http.c:293-305 | a client whose first f writes fail gets the whole reply exactly when f is at most four |
| Response.ClosingFits | http.c:283 | the line with the length fits its 64 characters |
| Response.Compose | http.c:264-289 | status, headers when there is a body, blank line and body, appended to the buffer |
| Response.SendReply | http.c:291-312 | what is handed over is a prefix of the reply; the full length is returned exactly when everything goes out before the fifth failure, else -1; the calls are at most the reply's length and five |
| Response.FifthFailureIsFinal | http.c:297-305 | a fifth failure with something left over rules delivery out |
| Response.HttpResponse | http.c:261-314 | the reply of any body goes out as above, and on both exits the pool is as it was but for the four buffers it may have added, with every held buffer unchanged |

## Left out

- Sockets, poll and accept details, signals and sleeping (main.c:145-181): a client, what was read, the results of write and the
  database's answer are arbitrary inputs of the model.
- Shutdown: stop jobs and the stop thread_data, which does not come from the pool, end the threads; only the running phase is modelled.
- malloc failure, freeing, thread creation and printing to standard error.
- db.c: the database appears as the arbitrary answer `known` in `TrackerRuns` and as the map `lookup` in `Scrape`.
- libcurl's percent-decoding: `Scrape` starts from the bytes it yields; a value that decodes to fewer than twenty is not modelled.
- The field checks of sanitize_peer_req: their results (a port of 1024 to 65535, one of four events) are assumptions; a request
  they reject never reaches `TrackerRuns`.
- Memory order: the unlocked peer search is one atomic step in `TrackerRuns`, and a freed peer's address is never used again there.
- TrackerRuns.NextKeeps: a removal of a peer already unlinked leaves the list alone in the model and lowers the counters by what the
  freed peer happens to read as; what unlinking it twice does to the list's memory is not modelled.
- TrackerRuns.LookupKeeps: info hashes are compared as values; the source compares 256 raw bytes, of which a scrape writes 41.
- After handing a job over a reader still reads the pool pointer of its thread_data; all thread_data carry the same pointer, so the
  pipeline models the read as that constant. `TdPool` keeps of a thread_data only its client.
- The list and the queue between threads are values in `Pipeline`, each of their critical sections one step; `Queues` has them as objects
  without linked entries.
- TorrentPeers.TorrentEntry.AddPeerAndReturnList: answers `DoesNotFit` when the reply does not fit; what the source leaves there then is
  not modelled. The printers require the room that `ReplyFits`, `ScrapeFits` and `WriteValue` speak of.
- TorrentPeers.TorrentEntry.UpdatePeerAndReturnList: the same.
- BencodeWriter.WriteValue: requires room for the encoding, and that its place never moves back before the array; text cut at the room is
  covered for single strings and ints only.
- TrackerReplies.RepliesFit: requires 32-bit counters; they are unbounded integers in `TrackerRuns`, and wrap-around after two billion
  announces is not modelled.
- torrent_update_peer_and_return_list with T_START, and torrent_search_torrent, buffer_ncmp_string and workq_dequeue_job: the running
  server does not reach them; the T_START branch is kept in `UpdatePeer`.
- Query.ParseQuery: the look at the character before index 0 is left out (a request starts with its method, so it decides nothing), and so is
  the shortened cursor of the input buffer, which is emptied next.
- Buffers.StorageBounded: sizes are unbounded there; the methods of `Buffer` require sizes below 2^31, where `RoomIsExact` applies.
- Response.HttpResponse: requires a body of at most 2^28 characters, and a pool below its cap, which `BufferDemandBound` gives; a write takes at
  least one character when it does not fail.
- Response.SendReply: the pause after a failure is not modelled.
