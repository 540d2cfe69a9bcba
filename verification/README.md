# A model of the kusea network BitTorrent-like application

This project models the state-keeping core of a small peer-to-peer file-sharing application written in Python, and proves properties of the model. The application has five parts:

- **The HTTP tracker** (`tracker_4.py`). It keeps `peers` and `files`. `peers` maps a peer id to its info and the time it was last seen. `files` maps a file hash to a map from peer id to announced pieces. POST actions register, unregister, heartbeat, get_peers and scrape. A background pass removes peers that have gone silent.
- **The line-oriented index servers** (`server.py`, `tracker_server.py`). Both keep `client_list`, which maps a username to (port, ip, listen port), and `file_list`, which maps a file name to its owner tuples. Clients send one-line commands: publish or share, fetch or download, inform, disconnect, scrape. Usernames are admitted only if not yet present. A console query lists a host's files, and a ping probe removes dead clients.
- **The peer** (`peer.py`). It downloads a file as 1024-byte chunks into an `IncompleteFile` and assembles them in index order. It serves 2048-byte chunks of its own `CompleteFile`s. Its listener picks the reply to each request. `receive_file` guards against downloading the same file twice at once.
- **The block-request scheduler** (`peers_manager.py`). It holds a duplicate-free peer list, a request queue per peer, and a table from (piece, offset) to the peer the block was requested from, so that no block is requested twice.
- **Small helpers.**
  - `piece.py` searches for the next missing piece.
  - `client_util.py` and `peer_util.py` build the request strings, upload a file in fixed-size blocks, and parse a printed `(host, port)` tuple.

## How the model is built

There is one module per source file:
- `PeerNode` models `peer.py`.
- `Tracker4` models `tracker_4.py`.
- `Server` and `TrackerServer` model the two index servers. The registry code they share line for line is in `LegacyRegistry`.
- `PeersManager`, `Piece`, `ClientUtil` and `PeerUtil` model the files of the same names. The `send_file` loop and `retrieve_connect_port` of `peer_util.py` (lines 35-40 and 54-58) are copies of those in `client_util.py`, so `PeerUtil` reuses `ClientUtil`'s definitions and proofs.

Three support modules model Python's own behaviour:
- `Common`: sequences, ceiling division.
- `Text`: `str.split()`, `strip`, `int()` on ASCII digits, `str()`, `lower()` on ASCII letters, and `split(sep)`.
- `PyDict`: a dictionary that keeps insertion order, since the scrape texts and the sweep depend on that order.

The form of each part follows its source:
- Code that updates objects or module-global dicts in place is modelled as a class whose methods have `modifies` clauses: `Registry`, `Tracker`, `Manager`, `IncompleteFile`, `Node` and `TorrentPieceManager`.
- Each such method is proved against a function on values, and the properties are proved as lemmas about that function. For example, `Tracker.Register` equals `RegisterEffect` on the old state. `Tracker.RemoveInactivePeers` equals `SweepPass`.
- Pure reply selection and arithmetic are functions.

Inputs from outside the modelled code become parameters:
- **Time** is an integer `now`.
- **`random.choice`** is any eligible element (`:|`).
- **`json.dumps`** is an `encode` function parameter.
- **The float formatting of a size** is a `fmt` parameter that may fail.
- **The disk** is the set of existing paths.
- **What a network probe or fetch returned** is an argument: `Probe`, `fetchRaises` or `writes`.
- **The pieces manager and the peer objects the scheduler queries** are the `PiecesView` and `SwarmView` records of functions.

## Where the design and the code differ

The model follows the code. Each point below rests on the code itself:
- **Scrape.** `scrapeHandle` (tracker_4.py:70-85) builds `"seeders"` from `len(file_data["peers"])` and counts leechers by looking up each element of `file_data["peers"]` in `peers` by peer id, so it treats a file's entry as a record with the keys `"peers"` and `"pieces"`. But `registerHandle` (tracker_4.py:33-36) stores that entry as a map from peer id to pieces. A requested hash therefore makes the whole scrape answer 500 unless peers registered under the ids `"peers"` (with no pieces) and `"pieces"` hold it (`Tracker4.ScrapeOf`, `Tracker4.ScrapeOfRegisteredFileFails`).
- **Handshake.** `connect_to_peer` (peer.py:503-511) sends `{"type": "handshake", "data": "ping"}` and keeps the socket only if the answer is a `handshake` message with data "pong". The listener (peer.py:428-481) has no `handshake` branch and answers "Unknown request type", so `connect_to_peer` never accepts a peer of this program (`PeerNode.HandshakeNeverAccepted`).
- **Liveness sweep.** `remove_inactive_peers` (tracker_4.py:115-127) deletes each expired peer and then calls `pop(peer_id)` without a default on every file. That `pop` raises KeyError at the first file the peer does not hold, which stops the pass (`Tracker4.SweepStopsPartway`). The loop has no `try`, so the KeyError also escapes the `while True` and ends the sweeper thread: no later pass runs. The model covers one pass.
- **`_post`.** It is the dispatcher (tracker_4.py:88-110), but no `do_POST` calls it. The model still gives `_post` as written (`Tracker4.Dispatched`), and its register branch never registers (`Tracker4.RegisterNeverReachesHandler`).
- **Admission.** In both servers `main` decodes each name and the announced listen port with `.decode(FORMAT)` and converts the port with `int(...)` (server.py:286-292, tracker_server.py:278-284), all outside any `try`. A name or port message that is not UTF-8 (the `NameUndecodable` and `PortUndecodable` outcomes of `LegacyRegistry.Registry.Admit`) or a non-numeric port (`PortRejected`) therefore ends the accept loop of `main`, and the server admits no further clients. A connection that closes right after its free name is answered "Valid" sends an empty port text, so it ends the loop too.
- **Chunk sizes.** The serving side uses 2048-byte chunks and the receiving side 1024-byte chunks. This mismatch is harmless for assembly: the extra chunk numbers are served empty, and the download still rebuilds the file (`PeerNode.DownloadRebuildsFile`).

## Model

| member | source | states |
|---|---|---|
| Common.CeilDiv | peer.py:35 | `ceil(size / chunk)` as an integer: `(q-1)*d < n <= q*d`, or both are 0 |
| PeerNode.IncompleteFile.constructor | peer.py:29-37 | the chunk count is `ceil(size / 1024)`, every chunk from 0 to n-1 is needed in order, and none has been received |
| PeerNode.Needed | peer.py:45 | the needed list holds exactly the indices in `[0, n)` that have not been received, in strictly ascending order |
| PeerNode.IncompleteFile.GetNeeded | peer.py:43-46 | returns and stores exactly the indices in `[0, n_chunks)` not yet received, ascending; the received chunks are unchanged |
| PeerNode.IncompleteFile.WriteChunk | peer.py:48-52 | a chunk number whose offset `chunk_no * 1024` the seek accepts (at least 0 and below 2^63) records the bytes and overwrites any earlier value; repeating an identical write changes nothing; any other number makes the seek raise and changes nothing; the number is not range-checked against `n_chunks` |
| PeerNode.FirstMissing | peer.py:59-60 | the least index below n that has not been received, or none exactly when all have been |
| PeerNode.InOrder | peer.py:59-60 | when all are present, chunks 0 to n-1 are listed in index order |
| PeerNode.WriteFile | peer.py:54-67 | as written: incomplete exactly when the number of received chunks differs from `n_chunks`; otherwise either the concatenation of chunks 0 to n-1 in order, or the KeyError on a missing index below n |
| PeerNode.WriteFileMissesOutOfRangeChunk | peer.py:56-60 | chunks {0, 5} with two chunks expected pass the count test and then raise on chunk 1 |
| PeerNode.WriteFileChecked | peer.py:54-67 | corrected: never raises; writes exactly when every index below n has been received, and writes them in index order |
| PeerNode.WriteFileAgrees | peer.py:54-67 | when the received indices are exactly `[0, n)`, the as-written and corrected versions agree |
| PeerNode.CompleteFile.NChunks | peer.py:245-249 | the serving side's chunk count is `ceil(size / 2048)`, set along with the size |
| PeerNode.CompleteFile.KnownSize | peer.py:240-259 | `size` is unset exactly when the path does not exist; a file opened for reading has its content's length as size, and a path that exists but cannot be opened still has the size that was read |
| PeerNode.ServeChunk | peer.py:261-267 | `get_chunk_no(k)` is absent exactly when the seek to `k * 2048` raises (a negative k, or an offset of 2^63 or more); otherwise it is at most 2048 bytes, exactly 2048 when the file extends that far, and empty at or past the end of the file |
| PeerNode.ServedChunks | peer.py:261-267 | the chunks a reader gets by asking for 0 to n-1 (all of them at seekable offsets), each the served chunk of that number |
| PeerNode.ServedPrefix | peer.py:261-267 | the first n served chunks, concatenated, are the file up to offset `n * 2048` |
| PeerNode.ServedChunksRebuildFile | peer.py:34-36 | for a file of at most 2^62 bytes, the receiver's `ceil(size / 1024)` chunk numbers all have seekable 2048-byte offsets, and asking for them from the 2048-byte server and concatenating the chunks gives back the whole file |
| PeerNode.DownloadRebuildsFile | peer.py:54-64 | for a file of at most 2^62 bytes, when the received chunks are exactly the served chunks 0 to `ceil(size / 1024) - 1`, `write_file` writes the original content |
| PeerNode.Listen | peer.py:428-481 | an empty message closes the connection; `request_file` for a held name whose size is known gets `available_file` with that size as text, also when the file could not be opened, and that reply is given exactly then; `request_chunk` for a held, opened name with a chunk number whose offset the seek accepts gets the chunk number, the file name and the served chunk, and that reply is given exactly then; either request gets "File not available" exactly when its lookup finds no file, which includes a hashable name that is not a string; any other type gets "Unknown request type"; no reply is sent exactly when a lookup raises (no "type", a missing key, an unhashable name), for `request_file` on a held name whose path does not exist, or when serving the chunk raises (a file without an open handle, a negative, too large or non-integer chunk number); no handshake reply is ever sent |
| PeerNode.AvailableSizeRoundTrip | peer.py:432-441 | for a held name whose size is known, the `filesize` text a requester reads back parses to that size |
| PeerNode.HandshakeNeverAccepted | peer.py:503-511 | the listener answers the handshake "ping" with "Unknown request type", and no listener reply passes `connect_to_peer`'s `handshake`/`pong` test |
| PeerNode.ListenAnsweringHandshake | peer.py:503-511 | corrected listener: "ping" is answered with a reply that passes the handshake test; every other message is answered as before |
| PeerNode.Node.constructor | peer.py:312 | no file is in progress |
| PeerNode.Node.ReceiveFile | peer.py:566-587 | an unknown size or a file already in progress changes nothing; otherwise the name is added, and it is removed again exactly when no exception escapes (fetching raising, a chunk number whose offset the seek rejects, or `write_file`'s KeyError); a finished download reports `write_file` of the chunks written |
| Tracker4.RegisterEffect | tracker_4.py:24-37 | the peer record is overwritten with `last_seen = now` first; with a usable hash, the file's holders map is created if new and the peer's pieces are set in it (200); with a missing or empty new hash, it raises after the peer record was written; without `peer_info` it raises before any change |
| Tracker4.RegisterIdempotent | tracker_4.py:30-36 | registering twice with the same data gives the same state and answer as registering once |
| Tracker4.RegisterThenGetPeers | tracker_4.py:34-36 | after a registration with a usable hash, get_peers for that hash answers 200 with the announced pieces under the peer id |
| Tracker4.UnregisterEffect | tracker_4.py:40-48 | a known peer loses its record and its entry in the named file (the file key stays, even when empty); an unknown peer changes nothing; the answer is always 200 unless `peer_info` is missing |
| Tracker4.RegisterThenUnregister | tracker_4.py:44-47 | unregistering right after registering removes the peer from both maps and keeps the file |
| Tracker4.HeartbeatEffect | tracker_4.py:52-58 | a known peer's `last_seen` becomes `now` (200); an unknown peer gets 404 and nothing changes; files are never touched |
| Tracker4.HeartbeatKeepsAlive | tracker_4.py:52-58 | a peer whose heartbeat is within `time_out` of a sweep survives that sweep, both the lenient pass and the pass as written (which may stop early but never removes a peer that has not expired) |
| Tracker4.GetPeers | tracker_4.py:62-67 | a known hash answers 200 with its holders map; anything else answers 404, never an empty map |
| Tracker4.ScrapeOf | tracker_4.py:71-86 | the scrape fails exactly when some requested known hash's holders map lacks the keys it reads; otherwise it has an entry for exactly the requested known hashes |
| Tracker4.ScrapeOfRegisteredFileFails | tracker_4.py:76-78 | a requested hash whose holders have no peer named "peers" makes the whole scrape answer 500 |
| Tracker4.ScrapeOfUnknownIsEmpty | tracker_4.py:72-86 | a scrape of only unknown hashes answers 200 with an empty scrape |
| Tracker4.Dispatched | tracker_4.py:89-110 | as written: a body that is not an object answers 500; the register branch raises on its extra argument, so it answers 500 and changes nothing; unregister and heartbeat give the handler's state and answer, or 500 with the state unchanged when `peer_info` is missing; get_peers and scrape give their handler's answer and change nothing; an unknown action answers 400 |
| Tracker4.RegisterNeverReachesHandler | tracker_4.py:97-98 | a well-formed register request answers 500 and leaves the state unchanged, where the corrected dispatch registers it |
| Tracker4.DispatchedChecked | tracker_4.py:97-98 | corrected dispatch: every non-register action is answered as before; a register with peer info and a usable hash answers 200 and records the peer and its pieces |
| Tracker4.Inactive | tracker_4.py:119-122 | the peers to remove are exactly those with `now - last_seen > time_out` (strict), without duplicates |
| Tracker4.PopFromOutcome | tracker_4.py:126-127 | the pops of one peer over the files finish exactly when they are lenient or the peer holds every file; when finished, each file has lost exactly that peer |
| Tracker4.SweepOutcome | tracker_4.py:123-127 | removing a list of peers finishes exactly when lenient or every one of them holds every file; a finished sweep removes exactly those peers from `peers`, keeps every file, and leaves each file's holders map equal to the old one without those peers, each kept peer with its old pieces |
| Tracker4.SweepCompletesIff | tracker_4.py:118-127 | as written, the pass finishes exactly when every expired peer holds every file, and then it equals the lenient pass |
| Tracker4.SweepStopsPartway | tracker_4.py:126-127 | one peer last seen at 0, one file it does not hold, now 31 and time-out 30: the peer record is deleted, then the pass raises and the file is left as it was |
| Tracker4.SweepCheckedRemovesExpired | tracker_4.py:118-127 | corrected pass with `pop(peer_id, None)`: always finishes, keeps exactly the peers seen within the time-out (one at exactly `time_out` stays), keeps every file, and leaves each file's holders map equal to the old one without the expired peers, each kept peer with its old pieces |
| Tracker4.Tracker.constructor | tracker_4.py:10-13 | both dictionaries start empty |
| Tracker4.Tracker.Register | tracker_4.py:24-37 | the new state and answer are `RegisterEffect` of the old state |
| Tracker4.Tracker.Unregister | tracker_4.py:40-48 | the new state and answer are `UnregisterEffect` of the old state |
| Tracker4.Tracker.Heartbeat | tracker_4.py:52-58 | the new state and answer are `HeartbeatEffect` of the old state |
| Tracker4.Tracker.Scrape | tracker_4.py:71-86 | the loop over the hashes answers `ScrapeResponse` |
| Tracker4.Tracker.Post | tracker_4.py:89-110 | the new state and answer are `_post` as written (`Dispatched`) |
| Tracker4.Tracker.PopEverywhere | tracker_4.py:126-127 | the loop over `files.keys()` pops the peer from each file in order and stops at the first that lacks it; the peers and the file order are unchanged |
| Tracker4.Tracker.PopAll | tracker_4.py:126-127 | the same loop on the holders map: its result and success flag are those of the pops in `files.keys()` order |
| Tracker4.Tracker.RemoveInactivePeers | tracker_4.py:118-127 | one pass of the sweep, as written, is `SweepPass` with the strict pop |
| LegacyRegistry.OwnersWithout | server.py:29 | the filtered list keeps exactly the tuples of other owners, and nothing else |
| LegacyRegistry.OwnersWithoutAppend | server.py:29 | filtering a concatenation is the concatenation of the filtered parts, in order |
| LegacyRegistry.OwnersWithoutCounts | server.py:29 | each tuple of another owner is kept as many times as it occurred, and no tuple of the removed user is left |
| LegacyRegistry.KeepNonEmptyKeeps | server.py:28-31 | the files kept are exactly those with an owner left, without duplicates |
| LegacyRegistry.PurgeRemovesOwner | server.py:20-33 | after removal no file list holds a tuple of the user and none is empty, and every file with another owner stays |
| LegacyRegistry.Registry.constructor | server.py:13-14 | both registries start empty |
| LegacyRegistry.Registry.GetClientInformation | server.py:38-40 | the client's tuple when the name is present, none otherwise |
| LegacyRegistry.Registry.RemoveClient | server.py:20-33 | an unknown name changes nothing; a known one leaves `client_list`, and `file_list` becomes the purge of that user |
| LegacyRegistry.Registry.PurgeFiles | server.py:28-31 | the loop over a snapshot of the files reassigns each filtered list and pops the emptied ones, ending in the purge of the user (a valid dictionary) |
| LegacyRegistry.Registry.AddOwner | server.py:151-163 | a known user's tuple (with the size in `tracker_server.py`) is appended to the file's list, which is created if absent; an unknown user changes nothing |
| LegacyRegistry.AppendOwned | tracker_server.py:127-131 | one file's turn of the scrape's gathering loop appends to each online user the file's tuples owned by that user |
| LegacyRegistry.Registry.CollectOwned | tracker_server.py:123-131 | every online user gets the (file, tuple) pairs it owns, in `file_list` order |
| LegacyRegistry.Registry.Discover | server.py:174-183 | the names of the files whose owner list has a tuple of the host, once per tuple, in order; each file name occurs exactly as many times as its list holds tuples of the host, and no other name occurs |
| LegacyRegistry.Registry.FileMatches | server.py:178-180 | the inner loop adds the file name once for each tuple of the host in that file's list: as many copies as there are such tuples, and nothing else |
| LegacyRegistry.OwnedByCounts | server.py:174-183 | over distinct file names, a file is listed once per tuple of the host in its owner list, and a file not among them never |
| LegacyRegistry.OwnedPairsCount | server.py:178-180 | one file's list gives one pair per tuple of the host, each naming that file |
| LegacyRegistry.Registry.Admit | server.py:286-294 | the connection's messages are read in order, "" once it closes: taken names are answered "Invalid" until a free one is answered "Valid" and stored with the port, IP and the integer of the next message; a name or port that is not UTF-8, or a port that is not an integer (always so when the connection closed after the name), stores nothing; the loop spins exactly when every message is a taken name and "" is taken; files are untouched |
| LegacyRegistry.Registry.PingClient | server.py:42-80 | the client is removed (with its files purged) exactly when clients exist, the host is known and the probe reads an empty reply or fails with a socket error |
| LegacyRegistry.FetchReply | server.py:104-113 | "none" for an absent or empty list, otherwise the encoding of the list |
| LegacyRegistry.AddThenFetch | server.py:104-113 | after a known user's append, a fetch of the file answers with the file's earlier owners in their order followed by the new tuple |
| Server.HandlePublishFile | server.py:151-163 | an unknown user gets no reply and causes no change; a known user's 3-tuple is appended and the reply is "Success" |
| Server.HandleInform | server.py:115-127 | the same append as publish, with no reply |
| Server.BuildLines | server.py:140-143 | the second loop writes one `username: files` line per user, in order, from the gathered pairs |
| Server.HandleScrape | server.py:129-148 | the header line, then one line per client in `client_list` order, listing its files joined by ", " or "No files" |
| Server.Parse | server.py:217-222 | two tokens set `(func, name)`; one token sets `func` to the whole raw message; any other count keeps both from the previous message |
| Server.Dispatch | server.py:224-248 | case-insensitive choice among publish, fetch, disconnect, print_scrape and inform: each command is chosen exactly when its word is given (with a bound name for publish, fetch and inform) and carries that name; one of those three words without a name is the NameError case; an unbound `func` ends the connection |
| Server.HandleMessage | server.py:215-252 | one turn of the loop: bytes that are not UTF-8 make the decode raise, which removes the client and its tuples and closes; an empty read changes nothing; otherwise the message is parsed and dispatched; publish and inform leave the clients unchanged and append the known user's tuple to the file's list (an unknown user changes nothing); fetch and print_scrape answer from the old registry and change nothing; disconnect and an unbound `func` remove the client and its tuples, and an unbound `func` also closes |
| Server.TrailingSpaceDefeatsCommand | server.py:221-224 | a single word with trailing whitespace keeps the whitespace in `func`, so no command matches |
| Server.BareCommandReusesLastName | server.py:219-226 | a bare "PUBLISH" publishes the name of the previous message again |
| TrackerServer.HandleShareFile | tracker_server.py:150-162 | an unknown user causes no change and gets no reply; a known user's 4-tuple with the size is appended and the reply is "Success" |
| TrackerServer.HandleInform | tracker_server.py:108-120 | the same append as share, with no reply |
| TrackerServer.PurgeKeepsSized | tracker_server.py:20-33 | removing a client keeps every tuple carrying a size |
| TrackerServer.EntriesText | tracker_server.py:140 | the file texts are present exactly when every size formats, one per file in order |
| TrackerServer.BuildLines | tracker_server.py:136-143 | the loop builds one `[username]: ...` line per user, in order, or fails when a size does not format |
| TrackerServer.HandleScrape | tracker_server.py:122-146 | "Number of peers online: N" with N the number of clients, the second header line, then one line per client in order |
| TrackerServer.ScrapeSucceeds | tracker_server.py:136-143 | when every size formats, the scrape text is produced |
| TrackerServer.Parse | tracker_server.py:208-214 | one, two or three tokens set `func` (raw), `(func, name)` or `(func, name, size)`; any other count keeps the previous values |
| TrackerServer.Dispatch | tracker_server.py:216-240 | case-insensitive choice among share, download, disconnect, scrape and inform, with the name and size they use |
| TrackerServer.HandleMessage | tracker_server.py:204-245 | one turn of the loop: bytes that are not UTF-8 make the decode raise, which removes the client and its tuples and closes; an empty read changes nothing; otherwise the message is parsed and dispatched; share and inform leave the clients unchanged and append the known user's tuple with its size to the file's list (an unknown user changes nothing); download and scrape answer from the old registry and change nothing; disconnect and an unbound `func` remove the client and its tuples, and an unbound `func` also closes; tuples keep their sizes |
| PeersManager.AppendNewProperties | peers_manager.py:29-34 | the old peers stay in front, the result holds exactly the old peers and the newcomers, and the list stays duplicate-free |
| PeersManager.AppendNewNoCap | peers_manager.py:29-34 | distinct new peers are all appended: `MAX_PEERS_CONNECTED` caps nothing |
| PeersManager.Holders | peers_manager.py:37 | exactly the connected peers that have the piece |
| PeersManager.UnchokedPeers | peers_manager.py:43 | exactly the connected peers that are unchoked |
| PeersManager.UnchokedCount | peers_manager.py:42-43 | over distinct peers, the unchoked list is as long as the set of unchoked connected peers |
| PeersManager.AnyUnchokedIffCount | peers_manager.py:112-113 | some peer is unchoked exactly when the unchoked count is positive |
| PeersManager.UnchokedCountBound | peers_manager.py:42-43 | the unchoked count is at most the number of peers |
| PeersManager.PeerRequestsPiece | peers_manager.py:67-79 | a Piece message is sent exactly when the request and the peer are given, the block is not already downloaded and `get_block` gives non-empty bytes; it echoes the request and goes to the requesting peer |
| PeersManager.RemoveFirst | peers_manager.py:108 | `list.remove` drops one element and adds none |
| PeersManager.RemoveFirstNoDup | peers_manager.py:108 | in a duplicate-free list, the removed peer is gone and every other peer stays |
| PeersManager.Manager.constructor | peers_manager.py:15-23 | no peers, no queues, no requested blocks |
| PeersManager.Manager.AddPeers | peers_manager.py:29-34 | the peer list becomes the old list plus the newcomers not yet present, in order; it stays duplicate-free, and queues and table are unchanged |
| PeersManager.Manager.GetRandomPeerHavingPiece | peers_manager.py:36-40 | none exactly when no connected peer has the piece; otherwise a connected peer that has it |
| PeersManager.Manager.UnchokedPeersCount | peers_manager.py:42-43 | at most the number of connected peers, and, with no peer listed twice, exactly the number of connected peers that are unchoked |
| PeersManager.Manager.HasUnchokedPeers | peers_manager.py:112-113 | true exactly when some connected peer is unchoked, exactly when `unchoked_peers_count() > 0` |
| PeersManager.Manager.AddRequestToQueue | peers_manager.py:87-94 | the request goes at the end of the peer's queue (created if absent), and the table maps the block to the peer |
| PeersManager.Manager.RequestMissingBlocks | peers_manager.py:50-53 | each missing block not yet in the table is queued, recorded and requested from the chosen peer, in order, each once; afterwards every missing block is in the table |
| PeersManager.Manager.ManageRequests | peers_manager.py:45-53 | a peer is chosen exactly for each undownloaded piece some connected peer has; no table entry is overwritten or dropped; every missing block of a chosen piece is in the table; all new entries of a piece name the one peer chosen for it; one request is sent per new entry; if every table entry named a connected peer before, every one still does |
| PeersManager.Manager.GetPeerBySocket | peers_manager.py:96-100 | the first connected peer on that socket; none exactly when there is none, where the source raises |
| PeersManager.Manager.RemovePeer | peers_manager.py:102-110 | a connected peer leaves the list; exactly the table entries naming it are dropped and the others are kept; queues are untouched; an unknown peer changes nothing |
| Piece.PiecePathInjective | piece.py:15 | different piece numbers have different file paths |
| Piece.NextPiece | piece.py:29-32 | the least index in `[0, total_pieces)` whose file is missing, or none exactly when all are present |
| Piece.TorrentPieceManager.constructor | piece.py:4-8 | the arguments are stored and no piece is marked |
| Piece.TorrentPieceManager.IsPieceDownloaded | piece.py:10-16 | true exactly when `download_dir/piece_<i>` exists |
| Piece.TorrentPieceManager.MarkPieceDownloaded | piece.py:18-22 | the index is added to the set, idempotently; the disk queries are unaffected |
| Piece.TorrentPieceManager.GetNextPiece | piece.py:24-32 | the early-return search answers `NextPiece` |
| ClientUtil.Read | client_util.py:37 | `file.read(n)`: the next bytes at the position, fewer than n only at the end of the file |
| ClientUtil.SendFile | client_util.py:35-40 | the blocks sent are exactly the file's blocks: non-empty, at most the block size, full-sized except the last, and together they are the file |
| ClientUtil.BlocksConcat | client_util.py:35-40 | the blocks of a file, joined, are the file |
| ClientUtil.BlocksSizes | client_util.py:35-40 | every block is non-empty and at most the block size, and all but the last are full |
| ClientUtil.ClientSendFile | client_util.py:35-40 | the same, with 20480-byte blocks |
| ClientUtil.FetchRequestUnderstood | client_util.py:44-46 | "FETCH " plus a name without whitespace is parsed and dispatched by the index server as a fetch of that name |
| ClientUtil.InformRequestUnderstood | client_util.py:49-51 | "INFORM " plus a name is parsed and dispatched as an inform of that name |
| ClientUtil.RetrieveConnectPort | client_util.py:54-58 | a port is returned exactly when the inner text splits on ", " into two parts and the second parses as an integer, and then it is that integer |
| ClientUtil.RetrieveConnectPortRoundTrip | client_util.py:54-58 | for `('h', p)` text with no ", " in h, the result is p |
| ClientUtil.RetrieveConnectPortRejects | client_util.py:55-57 | a port that is not a number, and a tuple with no ", ", both fail |
| PeerUtil.PeerSendFile | peer_util.py:35-40 | the blocks sent are non-empty, at most 1048576 bytes, full except the last, and together they are the file |
| PeerUtil.DownloadRequestUnderstood | peer_util.py:44-46 | "DOWNLOAD " plus a name is parsed and dispatched by the tracker server as a download of that name |
| PeerUtil.InformDownloadedUnderstood | peer_util.py:49-51 | "INFORM name size" is parsed as the three-token inform of that name and size |
| PeerUtil.InformWithSpacedNameIgnored | peer_util.py:49-51 | a file name with a space in it makes four tokens, which leave the tracker server's loop variables unchanged |

## Left out

- Sockets, `select`, threads, locks, sleeps and time-outs. Each handler, each sweep and each loop turn is one atomic step, so the race between a heartbeat and an expiry is not modelled.
- `pickle`, `json.loads`/`json.dumps` and HTTP framing. Decoded messages are datatypes and encodings are function parameters. The `Content-Length` header is read outside `_post`'s `try`, and a bad one is not modelled.
- Floating point. `time.time()` is an integer, `ceil(size / chunk)` is integer ceiling division, and `float(size):.2f` is the `fmt` parameter.
- Exception texts in the 500 answers, and logging and printing.
- `str.lower()` is modelled on ASCII letters only.
- Text.ParseInt: accepts only the ASCII digits 0-9 (with the sign, surrounding whitespace and underscores `int()` allows). Python's `int()` also accepts every other Unicode decimal digit, such as Arabic-Indic digits; the model rejects that text, because the table of those digits is not modelled.
- LegacyRegistry.Registry.Admit: answers `PortRejected` for a listen port written in non-ASCII decimal digits, which server.py:292 and tracker_server.py:284 convert and admit (the `Text.ParseInt` restriction).
- ClientUtil.RetrieveConnectPort: fails for a port written in non-ASCII decimal digits, which client_util.py:57 converts (the `Text.ParseInt` restriction).
- `peer_info` is assumed to have a string `peer_id`. Requests whose fields have other JSON types are not modelled.
- In `tracker_4.py`, the order of keys inside one holders map and the order of the files in a `scrape_info` answer are not modelled: both are maps.
- `remove_inactive_peers`'s outer `while True` and its sleep. Only one pass is modelled.
- `peers_manager.py`:
  - `run()`, the `Run` class and the `pub` subscriptions are event-loop plumbing;
  - `peers_bitfield` reads the imported `peer` module where a peer object is meant, so it has no meaningful behaviour to model;
  - `request_queues` keyed by peers that later leave is kept, as in the source.
- `peer.py`:
  - `download_file`, the `transmission-remote` wrappers, `get_files_action`, `get_peers_with_file`, `connect_manager`, `receive`, `update_peers`, `connect_to_peers`, `kill_process_using_port` and the seeder/leecher entry points are subprocess, filesystem or socket plumbing;
  - `connect_to_peer` is modelled only through its acceptance test;
  - `request_missing_chunks` and `request_chunk_from_peer` are not part of this model.
- PeerNode.IncompleteFile.WriteChunk: only the seek's offset limit is modelled. A write the file system refuses, such as one past its largest file size, is not, because that limit depends on the file system.
- PeerNode.ServedChunksRebuildFile and PeerNode.DownloadRebuildsFile: these are stated for files of at most 2^62 bytes. For a larger file, the receiver's last chunk numbers reach 2048-byte offsets of 2^63 or more, and the server's seek rejects them.
- PeerNode.Node.ReceiveFile: the chunk fetch is a parameter (`fetchRaises`, `writes`). Because of the handshake finding, `connect_to_peer` returns `None` and `_fetch_file_chunks` raises on it whenever a chunk is needed, but the model does not derive this.
- The console commands of `handle_commands` other than `discover` and `ping` (`list all` only prints). The `send_avail_sender_list` and `check_valid_sender` legacy helpers.
- `tracker.py`, `gui.py` and `client.py` are not part of this model.

## Findings

| source | as written | input that shows it | evidently intended | confidence | as-written member | corrected member |
|---|---|---|---|---|---|---|
| peer.py:56-60 | `write_file` checks only the number of received chunks, then reads `received_chunks[i]` for every i below `n_chunks` | two chunks expected, chunks 0 and 5 received: the count test passes and reading chunk 1 raises KeyError | write only when every index below `n_chunks` has been received | high (not executed) | PeerNode.WriteFileMissesOutOfRangeChunk | PeerNode.WriteFileChecked |
| peer.py:475-481 | the listener has no `handshake` branch, so the handshake `connect_to_peer` sends (peer.py:503-506) is answered with "Unknown request type", and `connect_to_peer` closes the socket | `{"type": "handshake", "data": "ping"}` | answer "ping" with `{"type": "handshake", "data": "pong"}` | high (not executed) | PeerNode.HandshakeNeverAccepted | PeerNode.ListenAnsweringHandshake |
| tracker_4.py:97-98 | `self.registerHandle(self, request_data)` passes `self` twice, so the call raises TypeError and every register answers 500 | `{"action": "register", "peer_info": {"peer_id": "a"}, "file_hash": "h"}` | `self.registerHandle(request_data)` | high (not executed) | Tracker4.RegisterNeverReachesHandler | Tracker4.DispatchedChecked |
| tracker_4.py:126-127 | `pop(peer_id)` without a default raises KeyError on the first file the expired peer does not hold, and the pass stops with that peer deleted and the rest unswept | peer "p" last seen at 0, file "f" with no holders, now 31, time-out 30 | `pop(peer_id, None)`, so that every expired peer is removed from every file | high (not executed) | Tracker4.SweepStopsPartway | Tracker4.SweepCheckedRemovesExpired |
