# COL334 networking labs, modelled in Dafny

This project models the logic at the centre of the COL334 networking labs and
proves what that logic promises. The sockets, threads and clocks around it are
replaced by explicit inputs: the buffers `recv` returns, arrival times, random
draws and the order in which threads run.

- **lab_2, chunk server and word-count client.**
  - `splitWordsFromFile` splits a comma-separated corpus into words (module
    `Corpus`).
  - The server answers a requested offset with at most `k` words, as packets
    of at most `p` comma-joined words; the packet with the last corpus word
    carries `,EOF` (`Chunk`, `Wire`).
  - One handler runs per connection: part1 reports whether the session is
    done, and part2 counts the clients served and stops listening
    (`ChunkServer`).
  - The client tokenises, tallies and requests the next offset
    (`WordClient`). part2 adds a bounded connect-retry loop.
  - Round trip: against this server, the client's final tally counts every
    corpus word exactly as often as it occurs. This is proved for corpora of
    clean words (non-empty, without `,` or `\n`, none of them `EOF` or `$$`)
    with each `recv` buffer holding exactly one server packet.
- **lab_2 part3, medium access.**
  - The slotted-ALOHA server keeps one slot index and a collision flag
    (`AlohaServer`, `Burst`).
  - The carrier-sense/collision-detect server keeps busy, collision and
    last-collision-time fields (`CscdServer`).
  - The slot-gated ALOHA client: `AlohaClient`.
  - The truncated binary exponential backoff client: `BebClient`.
  - Both clients share the commit/rollback buffer of pending words
    (`SlotWords`).
- **lab_2 part4, request schedulers.**
  - A global FIFO queue with `active_requests` and a shutdown predicate
    (`FifoServer`).
  - Per-socket queues swept in ascending socket order, with garbage
    collection of served, empty queues (`RoundRobinServer`).
  - The rogue client: five senders handed offsets by `fetch_add`, and a
    receiver that re-arms them round-robin (`RogueClient`).
- **lab_3, SDN controllers (Ryu).**
  - `p3_spr.py`:
    - `Graph`: `add_edge`, Dijkstra and next hops (`ShortestPaths`);
    - `SpanningTreeCreator` (`SpanningTreeCreator`);
    - the custom LLDP TLV (`Tlv`);
    - `detect_host_ports` (`HostPorts`).
  - `p2_spanning_tree.py`: links, topology, BFS tree and the
    flood/forward decision (`TreeSwitch`).
  - `p1_learning.py`: the MAC learning switch (`Learning`).
  - `Reach`, `Bfs` and `Sets` hold the walks, breadth-first search
    invariants and minimum-of-a-set facts these share.
- **lab_4, reliable transfer over UDP.**
  - The receiver's reorder buffer, cumulative acknowledgements, `fin`
    handling and timeout doubling (`ReliableReceiver`).

Where the source changes state, the model does too. Each such piece is a
class with `modifies` clauses. Its methods hold the source's loops, and each
method is proved equal to a pure function of the old state. The
properties are then lemmas about those functions.

## Model

| member | source | states |
|---|---|---|
| Corpus.SplitWords | lab_2/part1/server.cpp:32-38 | the getline loop yields exactly `Split(input)`: one word per comma-terminated field, plus the last field when non-empty |
| Corpus.NextComma | lab_2/part1/server.cpp:35 | one `getline` stops at the first comma after `i` (or the end), and no comma lies before it |
| Corpus.SplitCommaFree | lab_2/part1/server.cpp:32-38 | every corpus word is comma-free |
| Corpus.JoinSplit | lab_2/part1/server.cpp:32-38 | joining the words with commas gives back the input, for any input not ending in a comma |
| Corpus.SplitJoin | lab_2/part1/server.cpp:32-38 | conversely, comma-free words whose last word is non-empty are recovered exactly from their comma-joined text |
| Chunk.ChunkEnd | lab_2/part1/server.cpp:61 | a request never sends past the corpus, nor more than `k` words |
| Chunk.BuildChunk | lab_2/part1/server.cpp:60-74 | the nested send loop emits exactly `ChunkPackets` and `words_sent` reaches `min(offset + k, n)` |
| Chunk.NextPacket | lab_2/part1/server.cpp:61-73 | one outer turn emits the next group of at most `p` words (at least one), with `,EOF` exactly when it reaches the corpus end |
| Chunk.PacketsFromGroups | lab_2/part1/server.cpp:60-74 | the loop's packets are the rendering of the chunk cut into groups of `p` |
| Chunk.GroupSizes | lab_2/part1/server.cpp:62-67 | each packet holds between 1 and `p` words (1 when `p < 1`) |
| Chunk.GroupsConcat | lab_2/part1/server.cpp:61-67 | the packets' words, in order, are exactly the chunk's words |
| Chunk.EofOnlyLast | lab_2/part1/server.cpp:68-70 | `,EOF` is on the last packet exactly when the chunk reaches the corpus end, and on no other |
| Chunk.ChunkShape | lab_2/part1/server.cpp:61-71 | a request's packets carry `word_list[offset .. min(offset + k, n))` in order, at most `k` words in total, 1 to `p` per packet, and `,EOF` only on the last, exactly when it holds the last corpus word |
| Chunk.TokensOfRender | lab_2/part1/client.cpp:78-106 | round trip of the wire format: the client's tokeniser reads a chunk of clean words back as exactly those words, then `EOF` when the chunk reached the end |
| Wire.JoinSnoc | lab_2/part1/server.cpp:64-67 | appending one more word to a packet adds exactly `,` and that word |
| Wire.TokensAreClean | lab_2/part1/client.cpp:79-83 | every token is a maximal run: non-empty and free of `,` and `\n` |
| Wire.TokensOverRun | lab_2/part1/client.cpp:103-105 | characters other than separators only extend the accumulator |
| Wire.TokensAppend | lab_2/part1/client.cpp:78-106 | buffers that end on a separator tokenise independently of what follows |
| Wire.TokensOfJoin | lab_2/part1/client.cpp:78-106 | joining clean words with commas and ending the line tokenises back to exactly those words |
| Wire.TokensOfPacket | lab_2/part1/server.cpp:62-71 | a server packet tokenises to its words, followed by `EOF` exactly when it carries the end marker |
| Wire.TallyCounts | lab_2/part1/client.cpp:99-101 | after tallying `ws`, each word's count has grown by its number of occurrences in `ws`, and nothing else changed |
| Wire.TallyAppend | lab_2/part1/client.cpp:99-101 | tallying two runs of words one after the other is tallying their concatenation |
| ChunkServer.HandleClient | lab_2/part1/server.cpp:40-82 | the part1 handler sends exactly what `Serve` says for the client's requests, and returns done exactly for the Served and Rejected endings |
| ChunkServer.ServeShape | lab_2/part1/server.cpp:42-81 | every leading request that leaves the corpus unfinished gets its chunk. The handler then ends on the first request that does not: `$$\n` and done for an out-of-range offset, the final chunk and done at the corpus end, nothing and not done when the peer closes |
| ChunkServer.DoneIff | lab_2/part1/server.cpp:53-79 | the handler is done exactly when some request reached the corpus end or was out of range before the client hung up |
| ChunkServer.ThreadedServer.constructor | lab_2/part2/server.cpp:20 | no client counted yet, and the server listening |
| ChunkServer.ThreadedServer.HandleClient | lab_2/part2/server.cpp:38-94 | the part2 handler sends the same packets. `client_count` grows by one exactly for a session that reached the corpus end (not on the `$$` path). Listening stops once the count reaches `num_clients` |
| WordClient.ScanBuffer | lab_2/part1/client.cpp:78-106 | the per-character loop tallies exactly the tokens before the first `EOF` (all of them when there is none) and reports whether `EOF` occurred |
| WordClient.ReceiveChunk | lab_2/part1/client.cpp:59-107 | the receive loop of one request either ends the session as `Session` says or consumes buffers and hands on to the next request |
| WordClient.CountWords | lab_2/part1/client.cpp:54-109 | the request loop ends as `Session` over the `recv` results says, and the offsets requested are exactly 0, k, 2k, ...; the same loop is that of lab_2/part2/client.cpp (where `$$` returns at once) and of the normal clients in lab_2/part4/client_rogue.cpp |
| WordClient.ReadStep | lab_2/part1/client.cpp:78-106 | a buffer without `EOF` tallies and counts its words, and a new request goes out once `k` words are in |
| WordClient.OutOfRangeTokens | lab_2/part1/client.cpp:72-76 | the `$$\n` reply reads as the single token `$$` |
| WordClient.MidChunk | lab_2/part1/client.cpp:59-107 | the packets of a chunk that stops short of the corpus end bring exactly its words and complete the round |
| WordClient.EndChunk | lab_2/part1/client.cpp:84-97 | the packets of the final chunk bring its words, then `EOF` ends the session with that tally |
| WordClient.ReadsToEnd | lab_2/part1/client.cpp:54-109 | against this server, with one packet per buffer, a client over clean words none of which is `EOF` or `$$` finishes with the tally of the whole corpus from its offset on |
| WordClient.CountsEveryWord | lab_2/part1/client.cpp:54-109 | end-to-end round trip, for the same corpora and buffers: the final tally counts every corpus word exactly as often as it occurs in the corpus |
| WordClient.ConnectWithRetry | lab_2/part2/client.cpp:54-89 | the connect loop ends as `Connection` says, having closed one socket per failed attempt and opened one per `socket()` call |
| WordClient.ConnectedIff | lab_2/part2/client.cpp:58-88 | it connects on attempt `a` exactly when that is the first successful `connect` among the first 50, with every socket re-created before it |
| WordClient.GaveUpIff | lab_2/part2/client.cpp:68-72 | it gives up exactly when all 50 attempts fail with every socket re-created |
| Burst.WordPacketsAt | lab_2/part3/server_aloha.cpp:92-108 | a burst sends one packet per word, in corpus order |
| Burst.WordPacketTokens | lab_2/part3/server_aloha.cpp:93-98 | a word packet reads back as its word, with `EOF` after it exactly for the last corpus word |
| AlohaServer.Server.constructor | lab_2/part3/server_aloha.cpp:18-25 | no slot yet (`initialized == -1`), no collision, nothing counted |
| AlohaServer.Server.Start | lab_2/part3/server_aloha.cpp:52-55 | the handler's start stores the current slot and leaves the collision flag as it was |
| AlohaServer.Server.OnArrival | lab_2/part3/server_aloha.cpp:66-82 | a request's arrival applies `Arrive` to the slot of its time |
| AlohaServer.Server.Arrivals | lab_2/part3/server_aloha.cpp:66-82 | other handlers' arrivals apply `Arrive` in order |
| AlohaServer.Server.SendWords | lab_2/part3/server_aloha.cpp:92-108 | the send loop sends the word packets `TransferFrom` gives, then `HUH!\n` when it stops on a collision |
| AlohaServer.Server.Serve | lab_2/part3/server_aloha.cpp:58-119 | one request is answered as `Respond` says; the client count and listening change only when a session reaches the corpus end |
| AlohaServer.Server.HandleClient | lab_2/part3/server_aloha.cpp:43-121 | the whole handler is `Handle` from the slot stored at its start |
| AlohaServer.ArriveExact | lab_2/part3/server_aloha.cpp:74-82 | a request in a new slot makes it current with the flag clear; a later request in the same slot sets the flag |
| AlohaServer.CollisionStays | lab_2/part3/server_aloha.cpp:79-82 | once set, the flag stays set for every further request in the same slot |
| AlohaServer.TransferCount | lab_2/part3/server_aloha.cpp:93-106 | a transfer sends at most 10 words and never past the corpus; it stops early exactly when it collided |
| AlohaServer.TransferStops | lab_2/part3/server_aloha.cpp:100-106 | it stops at the first word whose check finds the flag set: no earlier check did |
| AlohaServer.RespondEnding | lab_2/part3/server_aloha.cpp:87-118 | an out-of-range offset gets exactly `$$\n` and ends the handler; otherwise the session is served exactly when `offset + words_sent >= n` |
| AlohaServer.QuietTransfer | lab_2/part3/server_aloha.cpp:92-108 | in a slot nobody else enters, every planned word is sent |
| CscdServer.Server.constructor | lab_2/part3/server_cscd.cpp:18-27 | the channel idle with no collision, and nothing counted |
| CscdServer.Server.Contend | lab_2/part3/server_cscd.cpp:100-114 | the claim/reject step is `Admit` of the old channel |
| CscdServer.Server.Collisions | lab_2/part3/server_cscd.cpp:100-105 | other handlers' colliding requests apply `CollideAll` |
| CscdServer.Server.SendWords | lab_2/part3/server_cscd.cpp:116-137 | the send loop and the release after it follow `TransferFrom` |
| CscdServer.Server.Serve | lab_2/part3/server_cscd.cpp:67-148 | one request is answered as `Respond` says; counting and listening as in part2 |
| CscdServer.Server.HandleClient | lab_2/part3/server_cscd.cpp:57-150 | the whole handler is `Handle` of the request sequence |
| CscdServer.ProbeChangesNothing | lab_2/part3/server_cscd.cpp:81-92 | `BUSY?\n` is answered `BUSY\n` exactly when the channel is held, else `IDLE\n`, and changes nothing |
| CscdServer.AdmitCases | lab_2/part3/server_cscd.cpp:100-114 | a request while busy sets the collision flag and time, keeps the channel busy and gets `HUH!\n`. One to an idle channel that arrived before the last collision is refused with no change. Any other claims the channel with the flag clear |
| CscdServer.ReleasedAfterTransfer | lab_2/part3/server_cscd.cpp:136-147 | after any transfer the channel is free with no collision pending; the session is served exactly when the words sent reach the corpus end |
| CscdServer.OutOfRangeEnds | lab_2/part3/server_cscd.cpp:95-98 | an out-of-range offset gets exactly `$$\n` and ends the handler, whatever the channel state |
| CscdServer.TransferCount | lab_2/part3/server_cscd.cpp:117-134 | at most 10 words, never past the corpus; it stops early exactly when it collided; `words_sent` counts exactly the word packets sent |
| CscdServer.HeldStaysHeld | lab_2/part3/server_cscd.cpp:100-105 | while the channel is held no claim succeeds: every other request collides and the channel stays held |
| SlotWords.Commit | lab_2/part3/client_aloha.cpp:166-172 | committing the pending words tallies exactly them |
| SlotWords.Scan | lab_2/part3/client_aloha.cpp:128-172 | the per-character loop and the commit test after it are `Absorb` |
| SlotWords.Receive | lab_2/part3/client_aloha.cpp:110-173 | the receive loop of one request is `RoundFrom` |
| SlotWords.AbsorbCommits | lab_2/part3/client_aloha.cpp:154-172 | without `EOF`, a buffer commits only when exactly `k` words are pending, and commits just those. Otherwise the tally is unchanged and the words stay pending. `HUH!` discards them |
| SlotWords.UncommittedAddsNothing | lab_2/part3/client_aloha.cpp:154-159 | a request that ends without a commit adds nothing to the tally; one cut short by `HUH!` leaves nothing pending |
| SlotWords.CommittedAddsK | lab_2/part3/client_aloha.cpp:166-172 | a committed request adds to the tally exactly the `k` words it read, in the order read (the pending words and then each buffer's tokens, `RoundWords`); a request reaching `EOF` adds exactly the words read before it |
| SlotWords.RoundAccounts | lab_2/part3/client_aloha.cpp:110-174 | started with nothing pending, a request's tally is the old tally with exactly the words it counted (`Counted`: none after `HUH!`, the words read otherwise) added in order; unless it ends in `EOF` they are exactly as many as it advances the offset (`-= k` then `+= k` after `HUH!`) |
| SlotWords.StepsSnoc | lab_2/part3/client_aloha.cpp:154-174 | consecutive requests repeat an offset or move on by `k` |
| AlohaClient.Client.constructor | lab_2/part3/client_aloha.cpp:76-82 | the current slot is that of the first clock reading, sending is not allowed, and the first draw is stored |
| AlohaClient.Client.Pass | lab_2/part3/client_aloha.cpp:89-107 | reading the clock and passing the gate is `TickAt` |
| AlohaClient.Client.CountWords | lab_2/part3/client_aloha.cpp:86-175 | the outer loop is `Session` over the clock readings and buffers |
| AlohaClient.SendOnNewSlot | lab_2/part3/client_aloha.cpp:94-107 | a request leaves only on the first pass of a new slot, exactly when the draw stored at the previous slot change was below `p`. A fresh draw is then stored, and `allowed_to_send` is false again |
| AlohaClient.SleepStaysInSlot | lab_2/part3/client_aloha.cpp:97 | a refused client sleeps until the last millisecond of the same slot |
| AlohaClient.AtMostOnePerSlot | lab_2/part3/client_aloha.cpp:94-107 | over clock readings that never go back, the requests sent are at most the slots entered |
| AlohaClient.SessionSends | lab_2/part3/client_aloha.cpp:86-107 | a session sends no more requests than the gate lets through |
| AlohaClient.SessionAccounts | lab_2/part3/client_aloha.cpp:110-174 | the final tally is the first one with exactly the words each request counted added in request order (`SessionWords`); unless the session ends in `EOF`, they are as many as it advanced the offset; its requests repeat after a collision or move on by `k` |
| BebClient.Client.constructor | lab_2/part3/client_beb.cpp:70-74 | no collisions, offset 0, nothing pending or tallied |
| BebClient.Client.Settle | lab_2/part3/client_beb.cpp:127-150 | after a collision the count goes up, and the sleep is the draw in the new window times `T`; a commit resets the count |
| BebClient.Client.CountWords | lab_2/part3/client_beb.cpp:79-153 | the outer loop is `Session` over the buffers and the random draws |
| BebClient.WindowGrowth | lab_2/part3/client_beb.cpp:36-41 | the window is `2^min(c,10) - 1`: it doubles plus one with each collision up to the tenth and then stays at 1023 |
| BebClient.DrawInWindow | lab_2/part3/client_beb.cpp:36-41 | every draw lies in `[0, 2^min(c,10) - 1]` |
| BebClient.AfterCounts | lab_2/part3/client_beb.cpp:127-150 | after a collision the count is one more, so at least 1; after a commit it is 0; the offset moves as the request's kind says |
| BebClient.BackoffsBounded | lab_2/part3/client_beb.cpp:133 | no backoff of a session exceeds 1023 slots however many collisions in a row |
| BebClient.SessionAccounts | lab_2/part3/client_beb.cpp:85-152 | the final tally is the first one with exactly the words each request counted added in request order (`SessionWords`); unless the session ends in `EOF`, they are as many as it advanced the offset; its requests repeat after a collision or move on by `k` |
| FifoServer.Server.constructor | lab_2/part4/server.cpp:19-34 | an empty queue, no active request, no client counted, running, nothing sent |
| FifoServer.Server.Enqueue | lab_2/part4/server.cpp:117-122 | a request joins the back of the global queue and nothing else changes |
| FifoServer.Server.Worker | lab_2/part4/server.cpp:46-98 | one worker pass is `WorkerPass` |
| FifoServer.Server.MonitorStep | lab_2/part4/server.cpp:134-153 | one monitor pass is `MonitorPass` |
| FifoServer.Server.Interleave | lab_2/part4/server.cpp:46-153 | the threads' steps in a given order are `Run` |
| FifoServer.StepFacts | lab_2/part4/server.cpp:46-153 | one step serves from the front, queues at the back and sends the replies it serves. `active_requests` is unchanged across it, and chunks reaching the end are counted |
| FifoServer.RunFifo | lab_2/part4/server.cpp:59-95 | requests are served in arrival order and exactly their replies are sent, in that order. `active_requests` ends where it began, and `client_count` grows by one per chunk that reaches the end |
| FifoServer.ShutdownOnlyWhenFinished | lab_2/part4/server.cpp:140-149 | the server stops only on a monitor pass that finds the queue empty, no request active and `client_count >= num_clients`, and never restarts |
| FifoServer.WorkerExits | lab_2/part4/server.cpp:51-57 | the worker leaves only a stopped server, and on waking only once the queue is drained; waiting changes nothing; a served request is the front one |
| FifoServer.ReplyShape | lab_2/part4/server.cpp:68-90 | an out-of-range request gets `$$\n` alone; any other gets its chunk, whose last packet carries `,EOF` exactly when it is counted |
| RoundRobinServer.Server.constructor | lab_2/part4/server_rr.cpp:21-35 | no queues, no served flags, nothing sent |
| RoundRobinServer.Server.Push | lab_2/part4/server_rr.cpp:106-108 | `handleClient`'s enqueue is `Enqueue` |
| RoundRobinServer.Server.VisitKey | lab_2/part4/server_rr.cpp:50-83 | the sweep's body for one key is `Visit` |
| RoundRobinServer.Server.SweepOnce | lab_2/part4/server_rr.cpp:47-86 | one sweep of the worker is `Sweep`, over the keys in ascending order |
| RoundRobinServer.Server.CollectOnce | lab_2/part4/server_rr.cpp:113-129 | one monitor pass is `Collect` |
| RoundRobinServer.Ascending | lab_2/part4/server_rr.cpp:49 | the iteration order of `std::map`: every key once, strictly increasing |
| RoundRobinServer.EnqueueOwn | lab_2/part4/server_rr.cpp:106-108 | a request joins the back of its own socket's queue, created on first use; no other queue changes |
| RoundRobinServer.SweepPops | lab_2/part4/server_rr.cpp:49-52 | sweeping distinct keys pops the front of each non-empty queue among them and nothing else. The set of queues is kept, and the fronts' replies are sent in key order |
| RoundRobinServer.SweepOrder | lab_2/part4/server_rr.cpp:49-52 | a sweep visits every queue once in ascending socket order; within a client, requests leave in FIFO order |
| RoundRobinServer.ServedMarks | lab_2/part4/server_rr.cpp:59-76 | `client_served[s]` turns true exactly on a `$$` reply or on the chunk that reaches the end; no other flag changes |
| RoundRobinServer.CollectExact | lab_2/part4/server_rr.cpp:116-125 | the monitor erases exactly the served, empty queues and keeps every other unchanged; a flag it reads for an unseen socket becomes `false` |
| RogueClient.Client.constructor | lab_2/part4/client_rogue.cpp:300-318 | all five senders armed, offset 0, nothing issued, not done, nothing tallied |
| RogueClient.Client.SenderPass | lab_2/part4/client_rogue.cpp:160-181 | one sender pass is `SenderStep` |
| RogueClient.Client.ArmSenders | lab_2/part4/client_rogue.cpp:242-247 | the arming loop is `Arm`; nothing else changes |
| RogueClient.Client.ReceivePass | lab_2/part4/client_rogue.cpp:199-248 | one receiver pass is `Receive` with the buffer it reads; it tallies with the corrected scan (`ScanBuffer`, the accumulator cleared after `EOF`), not the scan of lines 228-233 as written |
| RogueClient.ScanBuffer | lab_2/part4/client_rogue.cpp:218-237 | with the accumulator cleared after every token, the scan tallies and counts exactly the non-`EOF` tokens and reports whether `EOF` occurred |
| RogueClient.StickyEof | lab_2/part4/client_rogue.cpp:222-229 | as written, `a,EOF\nb\n` is tallied as `a`, `EOFb`; clearing the accumulator reads `a`, `b` |
| RogueClient.StickyTokensFrom | lab_2/part4/client_rogue.cpp:219-237 | the scan as written, where `EOF` stays in the accumulator: it never yields more tokens than characters read |
| RogueClient.StickyAgreesBeforeEof | lab_2/part4/client_rogue.cpp:219-237 | the scan as written and the corrected scan differ only after an `EOF` token |
| RogueClient.ArmCounts | lab_2/part4/client_rogue.cpp:242-247 | after the arming loop `0 <= words_received < k`, exactly `floor(words_received / k)` arms were issued, and `current_thread` moved on by one per arm, staying in `[0, 5)` |
| RogueClient.ArmRaises | lab_2/part4/client_rogue.cpp:243-245 | the flags raised are those of the next threads in cyclic order from `current_thread`; the others keep their value |
| RogueClient.IssuedIncreasing | lab_2/part4/client_rogue.cpp:163 | the offsets handed out are 0, k, 2k, ... in order: distinct and increasing |
| RogueClient.SenderKeepsValid | lab_2/part4/client_rogue.cpp:160-181 | a request leaves only from an armed sender, at the next offset, and disarms that sender alone; a sender stops only when `done` and not armed; `done` is never cleared |
| RogueClient.ReceiveKeepsValid | lab_2/part4/client_rogue.cpp:199-248 | `$$\n`, `EOF` or a closed socket sets `done`, never cleared. Any other buffer adds exactly its non-`EOF` words to the tally. The words counted are `k` per arm plus those left over |
| ShortestPaths.Graph.constructor | lab_3/p3_spr.py:15-18 | no nodes, edges or weights |
| ShortestPaths.Graph.AddEdge | lab_3/p3_spr.py:20-26 | both endpoints are recorded in first-seen order, `dst` is appended to `edges[src]`, `weights[(src, dst)]` is overwritten, and the graph stays valid |
| ShortestPaths.RememberFacts | lab_3/p3_spr.py:21-24 | `nodes` stays duplicate-free, keeps its old entries in place and then holds the node |
| ShortestPaths.PopMin | lab_3/p3_spr.py:34 | `heappop` removes a least entry by cost, then node, and keeps the rest as a multiset |
| ShortestPaths.Graph.RelaxOne | lab_3/p3_spr.py:39-45 | a successor is recorded through `u` and pushed exactly when the path through `u` is strictly cheaper; the search invariants are kept |
| ShortestPaths.Graph.RelaxAll | lab_3/p3_spr.py:39-45 | after expanding `u` every edge out of it is relaxed; a recorded cost only ever falls, and strictly |
| ShortestPaths.Graph.Dijkstra | lab_3/p3_spr.py:28-47 | `initial` maps to `(None, 0)`. Every other key has an expanded predecessor with an edge to it and a cost that is the predecessor's plus the weight; each node is expanded once. Every edge out of a key is relaxed |
| ShortestPaths.KeysReachable | lab_3/p3_spr.py:28-47 | every key of the result is reachable from `initial` |
| ShortestPaths.ReachableKeys | lab_3/p3_spr.py:28-47 | every node reachable from `initial` is a key of the result |
| ShortestPaths.Optimal | lab_3/p3_spr.py:28-47 | no walk from `initial` is cheaper than the recorded cost of its end |
| ShortestPaths.Graph.PredWalk | lab_3/p3_spr.py:67-69 | the path loop follows the predecessor chain from `end` to the root |
| ShortestPaths.Graph.GetShortestPath | lab_3/p3_spr.py:62-76 | `Missing` (the `KeyError`) exactly when `end` is unreachable, `None` exactly when `end == start`, and otherwise the second node of a least-cost walk from `start` to `end` |
| ShortestPaths.BackHop | lab_3/p3_spr.py:72-76 | the node before `start` on the reversed predecessor chain is the second node of that chain read forwards, a walk no walk from `start` to `end` undercuts in cost |
| ShortestPaths.Unreached | lab_3/p3_spr.py:67-69 | an end the search never recorded is unreachable from the start, so reading its entry is the `KeyError` `Missing` |
| ShortestPaths.Blank | lab_3/p3_spr.py:52 | a row with an entry for every node, all `None` |
| ShortestPaths.Graph.NextHopRow | lab_3/p3_spr.py:54-58 | a row has `None` on the diagonal and, for every other node, `get_shortest_path`'s answer (the second node of a least-cost walk to it, or `Missing`), and returns exactly when every node is reachable |
| ShortestPaths.Graph.NextHops | lab_3/p3_spr.py:49-60 | one row per node, each as `NextHopRow`, so every entry is the first hop of a least-cost walk; the table is complete exactly when every pair is connected |
| Bfs.DiscoveredReachable | lab_3/p3_spr.py:100-110 | every switch the search discovers is reachable from the root |
| Bfs.Exhausted | lab_3/p3_spr.py:104-110 | once the queue is empty, every switch reachable from the root has been discovered |
| Bfs.Domain | lab_3/p3_spr.py:100-110 | the discovered switches are the root and the switches with a parent |
| Bfs.DiscoverEarliest | lab_3/p3_spr.py:104-110 | discovering a neighbour of the switch taken off the FIFO queue keeps every parent the earliest-discovered switch with an edge to its child |
| Bfs.TriangleTree | lab_3/p2_spanning_tree.py:29-37 | on the triangle 1-2-3 searched from 1, a breadth-first tree hangs both 2 and 3 from 1; the depth-first tree with 3 under 2 is excluded |
| SpanningTreeCreator.Creator.constructor | lab_3/p3_spr.py:79-84 | the network and host ports as given, with no tree and no non-tree ports |
| SpanningTreeCreator.Visit | lab_3/p3_spr.py:106-110 | each undiscovered neighbour is discovered, queued and records the current switch as its parent |
| SpanningTreeCreator.Search | lab_3/p3_spr.py:100-110 | the switches discovered are exactly those reachable from the start; each records the parent it was discovered through, discovered before it and before every other discovered switch with an edge to it; the root and the unreached keep their entry |
| SpanningTreeCreator.Creator.Bfs | lab_3/p3_spr.py:100-110 | `bfs` fills the tree as `Search` says and changes nothing else |
| SpanningTreeCreator.TreeLinkIsParent | lab_3/p3_spr.py:118 | in a tree `bfs` recorded, a link is a tree link exactly when one end is the other's parent |
| SpanningTreeCreator.Creator.PortSets | lab_3/p3_spr.py:116-119 | the port loop yields all the switch's ports and its tree ports |
| SpanningTreeCreator.PortsSplit | lab_3/p3_spr.py:120 | tree and non-tree ports are disjoint and together all the ports |
| SpanningTreeCreator.Creator.IdentifyNonTreePorts | lab_3/p3_spr.py:112-120 | every switch's entry becomes its ports minus its tree ports |
| SpanningTreeCreator.Creator.CreateSpanningTree | lab_3/p3_spr.py:86-98 | nothing for an empty network. Otherwise the search runs from the least switch id, with every other switch a `None` entry unless discovered, and the non-tree ports are recomputed |
| SpanningTreeCreator.Creator.GetSpanningTreePorts | lab_3/p3_spr.py:122-129 | (tree ports ∪ host ports) minus `in_port`; a `KeyError` exactly for an unknown switch |
| Tlv.Marker | lab_3/p3_spr.py:261 | 19 bytes, the ASCII codes of `latency_measurement` |
| Tlv.Header | lab_3/p3_spr.py:262-263 | a header is two bytes when it fits |
| Tlv.TypeOf | lab_3/p3_spr.py:418 | `first_byte >> 1` is the top seven bits of the first byte |
| Tlv.HeaderRoundTrip | lab_3/p3_spr.py:262-263 | `(127 << 9) \| len` fits two bytes exactly when `len < 2^16`; it then decodes to type 127 and to length `len mod 512` |
| Tlv.CustomTlv | lab_3/p3_spr.py:260-264 | the TLV is the two header bytes followed by the value; writing it raises exactly when the value has `2^16` bytes or more |
| Tlv.IsOurLldpMeaning | lab_3/p3_spr.py:413-423 | the test accepts exactly LLDP frames of 21 bytes or more whose last 21 bytes are a type-127 header and the marker. It raises exactly on an empty LLDP frame |
| Tlv.IsOurLldp | lab_3/p3_spr.py:413-423 | a frame that is not LLDP is never ours; an LLDP frame raises the `IndexError` exactly when empty, and one shorter than the TLV is not ours |
| Tlv.SentIsRecognised | lab_3/p3_spr.py:260-270 | any LLDP frame with the custom TLV appended is recognised as the switch's own |
| HostPorts.LinkEnds | lab_3/p3_spr.py:426-427 | the link ends are exactly the source and destination ends of every link |
| HostPorts.Detector.constructor | lab_3/p3_spr.py:146 | no host ports |
| HostPorts.Detector.DetectHostPorts | lab_3/p3_spr.py:425-433 | the table becomes `Table`: for each reported switch, its ports without those where a link ends on that switch |
| HostPorts.TableMeaning | lab_3/p3_spr.py:429-433 | an entry exactly for each reported switch id; `p` is a host port of `d` exactly when the last switch reported as `d` has `p` and no link ends at `(d, p)` |
| HostPorts.SharedPortNumber | lab_3/p3_spr.py:433 | as written, a host port is dropped because another switch has a link on the same port number |
| HostPorts.TableAsWritten | lab_3/p3_spr.py:429-433 | the table as written: an entry exactly for each reported switch id, none of which holds a port number that ends a link on any switch |
| TreeSwitch.Switch13.constructor | lab_3/p2_spanning_tree.py:12-19 | every table empty |
| TreeSwitch.Switch13.GetSwitches | lab_3/p2_spanning_tree.py:43-45 | the switch list becomes the reported ids; nothing else changes |
| TreeSwitch.BuildLinks | lab_3/p2_spanning_tree.py:51-59 | the loop rebuilds exactly `LinksOf` and `TopologyOf` of the reported links |
| TreeSwitch.AddLinkConsistent | lab_3/p2_spanning_tree.py:55-59 | entering one link in both directions keeps the tables consistent |
| TreeSwitch.GetLinksConsistent | lab_3/p2_spanning_tree.py:55-59 | `links` has an entry exactly for each pair of neighbours; the reverse of an entry is the entry with its ports swapped; the topology is symmetric |
| TreeSwitch.Switch13.GetLinks | lab_3/p2_spanning_tree.py:48-65 | the tables are rebuilt from the reported links. When switches and links are known the tree is rebuilt as `Built` says; otherwise it is unchanged |
| TreeSwitch.Expand | lab_3/p2_spanning_tree.py:31-37 | each undiscovered neighbour is discovered and queued, and its edge entered at both ends with the ports `links` records |
| TreeSwitch.Search | lab_3/p2_spanning_tree.py:29-37 | the tree holds exactly the switches reachable from the root, each visited once, with each tree edge listed at both of its ends; each parent is the earliest-discovered switch with an edge to its child |
| TreeSwitch.Switch13.ConstructSpanningTree | lab_3/p2_spanning_tree.py:21-40 | a breadth-first tree from the minimum switch id, reaching exactly the switches reachable from it, with each tree edge at both ends. Breadth-first: each switch's parent was discovered before it and before every other discovered switch with an edge to it |
| TreeSwitch.LocalPort | lab_3/p2_spanning_tree.py:35-37 | every list entry is an edge to another switch, paired with the local port `links` records for it |
| TreeSwitch.BothEnds | lab_3/p2_spanning_tree.py:35-37 | every tree edge appears in both endpoints' lists |
| TreeSwitch.Ports | lab_3/p2_spanning_tree.py:90 | the ports of a tree list, in order |
| TreeSwitch.Without | lab_3/p2_spanning_tree.py:117-119 | exactly the listed ports other than `in_port` |
| TreeSwitch.Switch13.HostAdd | lab_3/p2_spanning_tree.py:68-72 | the host's port is appended to its switch's open ports; nothing else changes |
| TreeSwitch.Switch13.GetSpanningTreePorts | lab_3/p2_spanning_tree.py:89-92 | the switch's tree ports in list order, followed by its host ports |
| TreeSwitch.Switch13.PacketIn | lab_3/p2_spanning_tree.py:95-126 | LLDP and 0x0026 frames are ignored with the table unchanged. Any other frame learns `src` at `in_port`. A known destination is forwarded out of its learned port; an unknown one is flooded to the tree and host ports other than `in_port`, or dropped when there are none |
| Learning.Learn | lab_3/p1_learning.py:107-115 | after learning, `mac_to_port[dpid][src] == in_port` and every other entry and switch is unchanged |
| Learning.LearnIdempotent | lab_3/p1_learning.py:115 | learning the same source again from the same port changes nothing |
| Learning.LearnCommutes | lab_3/p1_learning.py:115 | two different sources can be learned in either order |
| Learning.LearnedIsUsed | lab_3/p1_learning.py:115-120 | a learned address is sent out of its port until it is learned again; other frames do not move it |
| Learning.LearnWithin | lab_3/p1_learning.py:115 | every port in the table is a port a frame arrived on |
| Learning.OutPort | lab_3/p1_learning.py:117-120 | the learned port of `dst` on the switch when one is learned, and FLOOD otherwise |
| Learning.SimpleSwitch.constructor | lab_3/p1_learning.py:54 | an empty table |
| Learning.SimpleSwitch.PacketIn | lab_3/p1_learning.py:83-138 | LLDP leaves the table untouched and sends nothing. Otherwise the source is learned and the frame goes out of the learned port of `dst`, or FLOOD. A flow is installed exactly when the port is not FLOOD, and the data is attached exactly when `buffer_id == OFP_NO_BUFFER` |
| ReliableReceiver.Drain | lab_4/p1_client.py:57-61 | the drain loop stops at an offset that is not buffered, having written exactly the bytes it moved past; it only removes buffer entries, and every entry it keeps keeps its data |
| ReliableReceiver.DrainKeeps | lab_4/p1_client.py:57-61 | a buffered packet before the starting offset or beyond the offset the drain stops at is never deleted |
| ReliableReceiver.DrainRemovesWritten | lab_4/p1_client.py:57-61 | a packet the drain deletes lies within the run it walked over, and its bytes were written at their place in that run |
| ReliableReceiver.Deliver | lab_4/p1_client.py:51-65 | an in-order packet is written and advances the offset by at least its length, with the buffer then holding no packet at the new offset and still holding, with their data, every packet below the packet's end or beyond the new offset. A packet ahead is only buffered; one behind changes nothing |
| ReliableReceiver.Receive | lab_4/p1_client.py:51-65 | the loop computes exactly `Deliver` |
| ReliableReceiver.DrainFaithful | lab_4/p1_client.py:57-61 | draining a buffer of slices of the file writes exactly the next bytes of the file |
| ReliableReceiver.DeliverFaithful | lab_4/p1_client.py:51-65 | if every packet is a slice of the file at its offset, what is written is always the prefix of the file up to the acknowledged offset |
| ReliableReceiver.ReorderRepaired | lab_4/p1_client.py:51-65 | a packet that overtakes its predecessor waits, and is written right after the predecessor once that arrives |
| ReliableReceiver.AckSent | lab_4/p1_client.py:67-69 | a new acknowledgement of a larger or equal offset keeps the acknowledgements non-decreasing |
| ReliableReceiver.Receiver.constructor | lab_4/p1_client.py:24-34 | offset 0, empty buffer, `done == -1`, the timeout `TIMEOUT`, and `START` sent |
| ReliableReceiver.Receiver.OnPacket | lab_4/p1_client.py:38-72 | an unreadable packet, or `fin == 2` while `done` is non-zero, ends reception with no other change. Otherwise `fin == 1` sets `done`, the packet is delivered, and the offset, which never decreases, is acknowledged. The timeout and idle count are reset |
| ReliableReceiver.Receiver.OnTimeout | lab_4/p1_client.py:74-88 | with data received the offset is acknowledged again, and a third idle timeout with `done == expected` ends reception; before any data, `START` is re-sent. Otherwise the timeout doubles |

## Left out

- Sockets, `bind`/`listen`/`accept`/`connect`, `send`/`recv` and `close`
  are OS I/O. Received buffers are input sequences (`Recv`), and sent
  packets are output sequences.
- The part1/part2 servers' `main` accept loops are left out.
- `stoi` is left out: requests are modelled already parsed. A negative
  offset counts as out of range, because the C++ comparison with `size_t`
  makes it huge.
- pthreads, mutexes, condition variables and atomics are left out. Every
  handler, worker and monitor step is a sequential method, and the order of
  steps is an input.
  - The race in `server_rr.cpp`, where the mutex is released in the middle
    of the map iteration, is not captured.
  - The FIFO worker's `pthread_cond_wait` is an event that resumes the
    worker.
- `monitorQueue` reads `request_queue.front()` on a possibly empty queue.
  This is undefined behaviour and only printed, so it is left out.
- `random_device`/`mt19937` are left out. The ALOHA draw is a boolean input
  meaning "below p", since `p = 1/num_clients` is a float. The BEB draws are
  a sequence of naturals reduced into the window.
- Wall-clock time, `chrono`, `usleep` and `time.time()` are left out. Times
  are inputs, and sleep lengths are returned values.
- `logMessage`, the output and time files, and the JSON configuration are
  left out. So are lab_4's `json.dumps`/`json.loads`: a packet that
  `parse_packet` cannot read is the `Malformed` packet.
- The rogue file's connect-retry loops do not re-create the socket after a
  failure. They are not modelled; only part2's loop is.
- The OpenFlow messages are reduced to their fields (`FlowMod`,
  `PacketOut`) or to the `Action` datatype. `add_flow`, `flow_addition` and
  the topology API calls are left out.
- The float echo and LLDP delay arithmetic in `p3_spr.py` is left out.
  Dijkstra's weights are natural numbers.
- Order of iteration:
  - Python dict and set iteration over neighbours is an arbitrary choice in
    the model, so the properties hold for every order.
  - The next-hop table is modelled as a map, not in its insertion order.
- WordClient.ReadsToEnd: proved only for corpora of clean words, none of
  them `EOF` or `$$`, and for `recv` buffers that each hold exactly one
  server packet. A buffer holding parts of two packets is not covered.
- WordClient.CountsEveryWord: the same restrictions. A corpus file ending in
  a newline is outside them too: its last word keeps the `\n`, and the client
  tallies it without.
- WordClient.CountWords: requires `k >= 1`. With `k <= 0` the source skips
  the receive loop and sends the offsets 0, k, 2k, ... forever without
  reading anything (lab_2/part1/client.cpp:59-110).
- WordClient.CountWords: after `$$\n` the part1 client closes the socket,
  leaves the receive loop and then sends the next offset on the closed
  socket, returning when its `recv` fails.
  That extra send and the failing `recv` are not modelled; the session
  simply ends.
- AlohaServer, AlohaClient: the slot length `T` is required to be at least
  1. The source divides by `T` from the JSON configuration
  (lab_2/part3/server_aloha.cpp:55, :70; lab_2/part3/client_aloha.cpp:79-80,
  :92). `T == 0` divides by zero there, and a negative `T` is not modelled,
  since C++ truncates toward zero where Dafny's `/` does not.
- ShortestPaths.Graph.NextHops: Python raises `KeyError` on the first
  unreachable pair. The model fills the whole table with `Missing` entries
  and returns `complete == false` instead of raising.
- ShortestPaths.Graph.Dijkstra: it does not state "at most once per node
  popped", only that each node is expanded once.
- Tlv.IsOurLldp: a tail that is not valid UTF-8 makes `decode()` raise. The
  model answers `false`, since such a tail cannot equal the marker.
- TreeSwitch.GetLinksConsistent: a link from a switch to itself is entered
  only once. For such a pair the swapped-ports condition is not stated.
- SpanningTreeCreator.Creator.CreateSpanningTree: the logging is left out.
  `self.network` is assumed to name only known switches, as the topology
  update builds it.
- `get_next_hops`'s prints, p1_learning's logging and the lab_4 prints are
  left out.
- lab_4/p1_server.py and lab_4/p2_server.py are not part of this model;
  their logic is floating-point RTT and window arithmetic.
- lab_1, the plot and Jain-index scripts, and lab_3/p1_hub.py are not part
  of this model.

## Findings

| source | as written | input that shows it | evidently intended | confidence | as-written member | corrected member |
|---|---|---|---|---|---|---|
| lab_2/part4/client_rogue.cpp:222-229 | after the `EOF` token the branch `continue`s past `word.clear()`, so the next characters are appended to `EOF` | a buffer `a,EOF\nb\n` tallies `a` and `EOFb` | clearing the accumulator after `EOF` as after any other token, tallying `a` and `b` | not executed | RogueClient.StickyTokensFrom, RogueClient.StickyEof | RogueClient.ScanBuffer |
| lab_3/p3_spr.py:433 | `{port for _, port in switch_ports}` removes every port number that ends a link on ANY switch | switch 1 has ports {1,2}, switch 2 has ports {1,2,3}, and one link joins (1,1) to (2,3); port 1 of switch 2 faces a host but is dropped | removing only the link ends on the switch itself | not executed | HostPorts.TableAsWritten, HostPorts.SharedPortNumber | HostPorts.Detector.DetectHostPorts |
