/**
 * tracker_4.py: the HTTP tracker. Its state is two dictionaries, `peers`
 * (peer id to its info and the time it was last seen) and `files` (file
 * hash to a map from peer id to the pieces that peer holds). POST
 * requests are dispatched on their "action"; a background pass removes
 * peers not seen for longer than the time-out.
 */
module Tracker4 {
  import opened Common
  import opened PyDict

  type PeerId = string

  /** `file_pieces`: the piece numbers a peer announced. */
  type Pieces = seq<int>

  /** `files[file_hash]`: peer id to pieces. */
  type Holders = map<PeerId, Pieces>

  /** `peer_info`: the peer's id and, where present, its "completed" flag; other keys are not modelled. */
  datatype PeerInfo = PeerInfo(peerId: PeerId, completed: Option<bool>)

  /** `peers[peer_id]`: `{"info": ..., "last_seen": ...}`. */
  datatype PeerRecord = PeerRecord(info: PeerInfo, lastSeen: int)

  /**
   * A decoded request object. Absent keys are `None`; `filePieces` already
   * holds the `[]` default of `request_data.get("file_pieces", [])`, and
   * `fileHashes` the `[]` default of "file_hashes".
   */
  datatype Request = Request(
    action: Option<string>,
    peerInfo: Option<PeerInfo>,
    fileHash: Option<string>,
    filePieces: Pieces,
    fileHashes: seq<string>)

  datatype ScrapeEntry = ScrapeEntry(seeders: nat, leechers: nat, pieces: Pieces)

  datatype Body =
    | Note(message: string)
    | Failure(error: string)
    | PeersBody(peers: Holders)
    | ScrapeBody(scrape: map<string, ScrapeEntry>)
    /** `{"error": "Internal server error: ..."}`; the exception text is not modelled. */
    | InternalError

  datatype Response = Response(status: int, body: Body)

  const Registered := Response(200, Note("Peer registered successfully."))
  const Unregistered := Response(200, Note("Peer unregistered successfully."))
  const HeartbeatReceived := Response(200, Note("Heartbeat received."))
  const PeerNotFound := Response(404, Failure("Peer not found."))
  const FileNotFound := Response(404, Failure("File not found."))
  const InvalidAction := Response(400, Failure("Invalid action."))
  const ServerError := Response(500, InternalError)

  /** `tracker_data`. */
  datatype TrackerData = TrackerData(peers: Dict<PeerRecord>, files: Dict<Holders>)
  {
    ghost predicate Valid()
    {
      peers.Valid() && files.Valid()
    }
  }

  /** Python truthiness of an optional string: present and non-empty. */
  predicate Truthy(s: Option<string>)
  {
    s.Some? && s.value != ""
  }

  /** The holders of a file, or none for an unknown hash. */
  function HoldersOf(files: Dict<Holders>, h: string): Holders
  {
    if h in files.entries then files.entries[h] else map[]
  }

  /**
   * `registerHandle`: the peer record is written first (replacing any
   * earlier one); then the holders map of the hash is created when the hash
   * is truthy and new, and the peer's pieces are set in it. Without a
   * usable hash `files[file_hash]` raises (`None` response) after the peer
   * record was written. Without `peer_info` it raises before any change.
   */
  function RegisterEffect(d: TrackerData, req: Request, now: int): (r: (TrackerData, Option<Response>))
    ensures req.peerInfo.None? ==> r == (d, None)
    ensures req.peerInfo.Some? ==>
      var info := req.peerInfo.value;
      && r.0.peers == d.peers.Set(info.peerId, PeerRecord(info, now))
      && (r.1.Some? <==> req.fileHash.Some? && (req.fileHash.value != "" || req.fileHash.value in d.files.entries))
      && (r.1.None? ==> r.0.files == d.files)
      && (r.1.Some? ==>
            && r.1.value == Registered
            && r.0.files == d.files.Set(req.fileHash.value,
                 HoldersOf(d.files, req.fileHash.value)[info.peerId := req.filePieces]))
  {
    match req.peerInfo
    case None => (d, None)
    case Some(info) =>
      var peers := d.peers.Set(info.peerId, PeerRecord(info, now));
      var files :=
        if Truthy(req.fileHash) && req.fileHash.value !in d.files.entries
        then d.files.Set(req.fileHash.value, map[])
        else d.files;
      if req.fileHash.None? || req.fileHash.value !in files.entries then (TrackerData(peers, d.files), None)
      else
        var h := req.fileHash.value;
        (TrackerData(peers, files.Set(h, files.entries[h][info.peerId := req.filePieces])), Some(Registered))
  }

  /**
   * `unregisterHandle`: a known peer loses its record and, when the hash is
   * truthy and known, its entry in that file's holders (the file itself
   * stays, even with no holder left); an unknown peer changes nothing. The
   * answer is always 200, unless `peer_info` is missing (raises).
   */
  function UnregisterEffect(d: TrackerData, req: Request): (r: (TrackerData, Option<Response>))
    ensures req.peerInfo.None? <==> r.1.None?
    ensures r.1.Some? ==> r.1.value == Unregistered
    ensures req.peerInfo.None? || req.peerInfo.value.peerId !in d.peers.entries ==> r.0 == d
    ensures req.peerInfo.Some? && req.peerInfo.value.peerId in d.peers.entries ==>
      var pid := req.peerInfo.value.peerId;
      && r.0.peers == d.peers.Pop(pid)
      && r.0.files.keys == d.files.keys
      && r.0.files.entries.Keys == d.files.entries.Keys
      && forall h :: h in r.0.files.entries ==>
           r.0.files.entries[h] ==
             if req.fileHash == Some(h) && h != "" then d.files.entries[h] - {pid} else d.files.entries[h]
  {
    match req.peerInfo
    case None => (d, None)
    case Some(info) =>
      var pid := info.peerId;
      if pid !in d.peers.entries then (d, Some(Unregistered))
      else
        var files :=
          if Truthy(req.fileHash) && req.fileHash.value in d.files.entries
          then d.files.Set(req.fileHash.value, d.files.entries[req.fileHash.value] - {pid})
          else d.files;
        (TrackerData(d.peers.Pop(pid), files), Some(Unregistered))
  }

  /** `heartbeatHandle`: a known peer's `last_seen` becomes `now` (200); an unknown peer gets 404. */
  function HeartbeatEffect(d: TrackerData, req: Request, now: int): (r: (TrackerData, Option<Response>))
    ensures req.peerInfo.None? <==> r.1.None?
    ensures r.0.files == d.files
    ensures r.1 == Some(PeerNotFound) ==> r.0 == d
    ensures req.peerInfo.Some? ==>
      var pid := req.peerInfo.value.peerId;
      && (r.1 == Some(HeartbeatReceived) <==> pid in d.peers.entries)
      && (r.1 == Some(PeerNotFound) <==> pid !in d.peers.entries)
      && (pid in d.peers.entries ==>
            r.0.peers == d.peers.Set(pid, d.peers.entries[pid].(lastSeen := now)))
  {
    match req.peerInfo
    case None => (d, None)
    case Some(info) =>
      if info.peerId in d.peers.entries then
        var rec := d.peers.entries[info.peerId];
        (TrackerData(d.peers.Set(info.peerId, rec.(lastSeen := now)), d.files), Some(HeartbeatReceived))
      else (d, Some(PeerNotFound))
  }

  /** `getpeersHandle`: the holders map of a known hash, else 404 (an unknown hash is not an empty map). */
  function GetPeers(files: Dict<Holders>, req: Request): (r: Response)
    ensures r.status == 200 <==> req.fileHash.Some? && req.fileHash.value in files.entries
    ensures r.status == 200 ==> r == Response(200, PeersBody(files.entries[req.fileHash.value]))
    ensures r.status != 200 ==> r == FileNotFound
  {
    if req.fileHash.Some? && req.fileHash.value in files.entries
    then Response(200, PeersBody(files.entries[req.fileHash.value]))
    else FileNotFound
  }

  /**
   * Whether `scrapeHandle` gets through the entry of a known hash. It reads
   * `file_data["peers"]` and `file_data["pieces"]` from a holders map,
   * whose keys are peer ids, and looks each element of the first up in
   * `peers`; piece numbers are never peer ids, so only an empty list there
   * passes.
   */
  predicate Scrapable(fd: Holders)
  {
    "peers" in fd && fd["peers"] == [] && "pieces" in fd
  }

  /** `scrape_info` after the hashes in order, or `None` once an entry raised. */
  function ScrapeOf(files: map<string, Holders>, hashes: seq<string>): (r: Option<map<string, ScrapeEntry>>)
    ensures r.None? <==> exists h :: h in hashes && h in files && !Scrapable(files[h])
    ensures r.Some? ==> forall h :: h in r.value <==> h in hashes && h in files
    ensures r.Some? ==> forall h :: h in r.value ==> r.value[h] == ScrapeEntry(0, 0, files[h]["pieces"])
  {
    if hashes == [] then Some(map[])
    else
      var h := hashes[|hashes| - 1];
      match ScrapeOf(files, hashes[..|hashes| - 1])
      case None =>
        assert hashes[..|hashes| - 1] <= hashes;
        None
      case Some(m) =>
        assert forall x :: x in hashes <==> x in hashes[..|hashes| - 1] || x == h;
        if h !in files then Some(m)
        else if Scrapable(files[h]) then Some(m[h := ScrapeEntry(0, 0, files[h]["pieces"])])
        else None
  }

  /** `scrapeHandle`'s answer: 200 with the scrape, or 500 when an entry raised. */
  function ScrapeResponse(files: map<string, Holders>, hashes: seq<string>): Response
  {
    match ScrapeOf(files, hashes)
    case None => ServerError
    case Some(m) => Response(200, ScrapeBody(m))
  }

  /**
   * A requested hash whose holders map has no peer id "peers" makes the
   * whole scrape answer 500. `registerHandle` keys holders by peer id, so
   * this is every registered hash unless peers registered under the ids
   * "peers" (with no pieces) and "pieces" hold it.
   */
  lemma ScrapeOfRegisteredFileFails(files: map<string, Holders>, hashes: seq<string>, h: string)
    requires h in hashes && h in files && "peers" !in files[h]
    ensures ScrapeResponse(files, hashes) == ServerError
  {
  }

  /** Only unknown hashes: 200 with an empty scrape. */
  lemma ScrapeOfUnknownIsEmpty(files: map<string, Holders>, hashes: seq<string>)
    requires forall h :: h in hashes ==> h !in files
    ensures ScrapeResponse(files, hashes) == Response(200, ScrapeBody(map[]))
  {
    var m := ScrapeOf(files, hashes).value;
    assert m.Keys == {};
  }

  /**
   * A handler's outcome as `_post` answers it: the handler's own response,
   * or 500 when it raised, with the state as far as the handler got.
   */
  function Answer(r: (TrackerData, Option<Response>)): (TrackerData, Response)
  {
    (r.0, if r.1.None? then ServerError else r.1.value)
  }

  /** `_post` with the register branch working, taking the effect of `register`. */
  function DispatchWith(d: TrackerData, req: Option<Request>, now: int, register: (TrackerData, Option<Response>))
    : (TrackerData, Response)
  {
    match req
    case None => (d, ServerError)
    case Some(q) =>
      if q.action == Some("register") then Answer(register)
      else if q.action == Some("unregister") then Answer(UnregisterEffect(d, q))
      else if q.action == Some("heartbeat") then Answer(HeartbeatEffect(d, q, now))
      else if q.action == Some("get_peers") then (d, GetPeers(d.files, q))
      else if q.action == Some("scrape") then (d, ScrapeResponse(d.files.entries, q.fileHashes))
      else (d, InvalidAction)
  }

  /**
   * `_post` as written: a body that is not a JSON object is `None` (500);
   * the register branch passes `self` twice, so the call raises before any
   * change and the answer is 500; an unknown action is 400; an exception
   * in a handler is 500, with the state as far as the handler got.
   */
  function Dispatched(d: TrackerData, req: Option<Request>, now: int): (r: (TrackerData, Response))
    ensures req.None? ==> r == (d, ServerError)
    ensures req.Some? && req.value.action == Some("register") ==> r == (d, ServerError)
    ensures req.Some? && req.value.action == Some("unregister") ==>
      var e := UnregisterEffect(d, req.value);
      && r.0 == e.0
      && (e.1.None? ==> r.1 == ServerError)
      && (e.1.Some? ==> r.1 == e.1.value)
    ensures req.Some? && req.value.action == Some("heartbeat") ==>
      var e := HeartbeatEffect(d, req.value, now);
      && r.0 == e.0
      && (e.1.None? ==> r.1 == ServerError)
      && (e.1.Some? ==> r.1 == e.1.value)
    ensures req.Some? && req.value.action in {Some("unregister"), Some("heartbeat")} && req.value.peerInfo.None? ==>
      r == (d, ServerError)
    ensures req.Some? && req.value.action == Some("get_peers") ==> r == (d, GetPeers(d.files, req.value))
    ensures req.Some? && req.value.action == Some("scrape") ==>
      r == (d, ScrapeResponse(d.files.entries, req.value.fileHashes))
    ensures req.Some? && req.value.action !in {Some("register"), Some("unregister"), Some("heartbeat"), Some("get_peers"), Some("scrape")}
      ==> r == (d, InvalidAction)
  {
    DispatchWith(d, req, now, (d, None))
  }

  /** `_post` with `self.registerHandle(request_data)`, as evidently intended. */
  function DispatchedChecked(d: TrackerData, req: Option<Request>, now: int): (r: (TrackerData, Response))
    ensures req.Some? && req.value.action != Some("register") ==> r == Dispatched(d, req, now)
    ensures req.Some? && req.value.action == Some("register") && req.value.peerInfo.Some? && Truthy(req.value.fileHash) ==>
      var q := req.value;
      && r.1 == Registered
      && q.peerInfo.value.peerId in r.0.peers.entries
      && q.fileHash.value in r.0.files.entries
      && q.peerInfo.value.peerId in r.0.files.entries[q.fileHash.value]
      && r.0.files.entries[q.fileHash.value][q.peerInfo.value.peerId] == q.filePieces
  {
    match req
    case None => (d, ServerError)
    case Some(q) => DispatchWith(d, req, now, RegisterEffect(d, q, now))
  }

  /** The input that shows it: a well-formed register request never registers anything. */
  lemma RegisterNeverReachesHandler(d: TrackerData, info: PeerInfo, h: string, now: int)
    requires h != ""
    ensures var req := Request(Some("register"), Some(info), Some(h), [], []);
      Dispatched(d, Some(req), now) == (d, ServerError)
      && DispatchedChecked(d, Some(req), now).1 == Registered
  {
  }

  /** Registering again with the same data replaces the entries instead of adding to them. */
  lemma RegisterIdempotent(d: TrackerData, req: Request, now: int)
    requires d.Valid()
    ensures RegisterEffect(RegisterEffect(d, req, now).0, req, now) == RegisterEffect(d, req, now)
  {
    var d1 := RegisterEffect(d, req, now).0;
    if req.peerInfo.Some? {
      var info := req.peerInfo.value;
      assert d1.peers.Set(info.peerId, PeerRecord(info, now)) == d1.peers;
      if RegisterEffect(d, req, now).1.Some? {
        var h := req.fileHash.value;
        assert h in d1.files.entries;
        var holders := HoldersOf(d1.files, h);
        assert holders[info.peerId := req.filePieces] == holders;
        assert d1.files.entries[h := holders] == d1.files.entries;
        assert d1.files.Set(h, HoldersOf(d1.files, h)[info.peerId := req.filePieces]) == d1.files;
      }
    }
  }

  /** After a successful registration, asking for the hash's peers returns the announced pieces. */
  lemma RegisterThenGetPeers(d: TrackerData, req: Request, now: int)
    requires req.peerInfo.Some? && Truthy(req.fileHash)
    ensures var r := GetPeers(RegisterEffect(d, req, now).0.files, req);
      r.status == 200 && r.body.peers[req.peerInfo.value.peerId] == req.filePieces
  {
  }

  /** Unregistering a peer that had just registered for a file removes it from both maps. */
  lemma RegisterThenUnregister(d: TrackerData, req: Request, now: int)
    requires d.Valid() && req.peerInfo.Some? && Truthy(req.fileHash)
    ensures var d2 := UnregisterEffect(RegisterEffect(d, req, now).0, req).0;
      && req.peerInfo.value.peerId !in d2.peers.entries
      && req.fileHash.value in d2.files.entries
      && req.peerInfo.value.peerId !in d2.files.entries[req.fileHash.value]
  {
  }

  /** `now - last_seen > time_out`: strictly older than the time-out. */
  predicate Expired(r: PeerRecord, now: int, timeOut: int)
  {
    now - r.lastSeen > timeOut
  }

  /** `inactive_peers`: the expired peers in `peers` order. */
  function Inactive(keys: seq<PeerId>, entries: map<PeerId, PeerRecord>, now: int, timeOut: int): (r: seq<PeerId>)
    requires forall k :: k in keys ==> k in entries
    ensures forall p :: p in r <==> p in keys && Expired(entries[p], now, timeOut)
    ensures NoDup(keys) ==> NoDup(r)
  {
    if keys == [] then []
    else
      var k := keys[|keys| - 1];
      var r := Inactive(keys[..|keys| - 1], entries, now, timeOut);
      assert forall p :: p in keys <==> p in keys[..|keys| - 1] || p == k;
      if Expired(entries[k], now, timeOut) then
        assert NoDup(keys) ==> k !in keys[..|keys| - 1];
        r + [k]
      else r
  }

  /**
   * `files[file_hash].pop(pid)` for each hash of `hs` in order. With
   * `strict` (the pop without default, as written) a hash whose holders
   * lack the peer raises and stops the pass (`false`); without it (the
   * `pop(pid, None)` form) every hash is processed.
   */
  function PopFrom(files: map<string, Holders>, hs: seq<string>, pid: PeerId, strict: bool): (r: (map<string, Holders>, bool))
    requires forall h :: h in hs ==> h in files
    ensures r.0.Keys == files.Keys
  {
    if hs == [] then (files, true)
    else
      var h := hs[|hs| - 1];
      var prev := PopFrom(files, hs[..|hs| - 1], pid, strict);
      if !prev.1 then prev
      else if strict && pid !in prev.0[h] then (prev.0, false)
      else (prev.0[h := prev.0[h] - {pid}], true)
  }

  /**
   * The pops over distinct hashes complete exactly when lenient or when the
   * peer holds every one of them; then each of those hashes has lost the
   * peer and the others are untouched.
   */
  lemma PopFromOutcome(files: map<string, Holders>, hs: seq<string>, pid: PeerId, strict: bool)
    requires forall h :: h in hs ==> h in files
    requires NoDup(hs)
    ensures var r := PopFrom(files, hs, pid, strict);
      && (r.1 <==> !strict || forall h :: h in hs ==> pid in files[h])
      && (r.1 ==> forall h :: h in files ==> r.0[h] == if h in hs then files[h] - {pid} else files[h])
  {
    PopFromCompletes(files, hs, pid, strict);
    PopFromEffect(files, hs, pid, strict);
  }

  /** A file outside the hashes visited keeps its holders. */
  lemma {:induction false} PopFromUntouched(files: map<string, Holders>, hs: seq<string>, pid: PeerId, strict: bool, x: string)
    requires forall h :: h in hs ==> h in files
    requires x in files && x !in hs
    ensures PopFrom(files, hs, pid, strict).0[x] == files[x]
  {
    if hs != [] {
      var prefix := hs[..|hs| - 1];
      assert hs == prefix + [hs[|hs| - 1]];
      PopFromUntouched(files, prefix, pid, strict, x);
    }
  }

  /** The last hash and the ones before it, which do not include it. */
  lemma LastApart(hs: seq<string>)
    requires NoDup(hs) && hs != []
    ensures var prefix := hs[..|hs| - 1];
      && NoDup(prefix) && hs[|hs| - 1] !in prefix
      && forall x :: x in hs <==> x in prefix || x == hs[|hs| - 1]
  {
    var prefix := hs[..|hs| - 1];
    assert hs == prefix + [hs[|hs| - 1]];
    NoDupAt(hs, |hs| - 1);
  }

  lemma {:induction false} PopFromCompletes(files: map<string, Holders>, hs: seq<string>, pid: PeerId, strict: bool)
    requires forall h :: h in hs ==> h in files
    requires NoDup(hs)
    ensures PopFrom(files, hs, pid, strict).1 <==> !strict || forall h :: h in hs ==> pid in files[h]
  {
    if hs != [] {
      var h := hs[|hs| - 1];
      var prefix := hs[..|hs| - 1];
      LastApart(hs);
      PopFromCompletes(files, prefix, pid, strict);
      PopFromUntouched(files, prefix, pid, strict, h);
    }
  }

  lemma {:induction false} PopFromEffect(files: map<string, Holders>, hs: seq<string>, pid: PeerId, strict: bool)
    requires forall h :: h in hs ==> h in files
    requires NoDup(hs)
    ensures var r := PopFrom(files, hs, pid, strict);
      r.1 ==> forall h :: h in files ==> r.0[h] == if h in hs then files[h] - {pid} else files[h]
  {
    if hs != [] {
      var h := hs[|hs| - 1];
      var prefix := hs[..|hs| - 1];
      LastApart(hs);
      PopFromEffect(files, prefix, pid, strict);
      PopFromUntouched(files, prefix, pid, strict, h);
    }
  }

  /** Removing each peer of `pids` in order: `del peers[pid]`, then its pops from every file. */
  ghost function Sweep(d: TrackerData, pids: seq<PeerId>, strict: bool): (r: (TrackerData, bool))
    requires d.Valid() && NoDup(pids)
    ensures r.0.Valid()
    ensures r.0.files.keys == d.files.keys
  {
    if pids == [] then (d, true)
    else
      var pid := pids[|pids| - 1];
      var prev := Sweep(d, pids[..|pids| - 1], strict);
      if !prev.1 then prev
      else
        var files := prev.0.files;
        var popped := PopFrom(files.entries, files.keys, pid, strict);
        (TrackerData(prev.0.peers.Pop(pid), Dict(files.keys, popped.0)), popped.1)
  }

  /**
   * A sweep over `pids` completes exactly when it is lenient or every one
   * of them holds every file; a completed sweep has removed exactly those
   * peers from `peers` and from every file's holders.
   */
  lemma {:induction false} SweepOutcome(d: TrackerData, pids: seq<PeerId>, strict: bool)
    requires d.Valid() && NoDup(pids)
    ensures var r := Sweep(d, pids, strict);
      && (r.1 <==> !strict || forall p, h :: p in pids && h in d.files.entries ==> p in d.files.entries[h])
      && (r.1 ==> forall p :: p in r.0.peers.entries <==> p in d.peers.entries && p !in pids)
      && (r.1 ==> forall h :: h in r.0.files.entries ==>
            h in d.files.entries && forall p :: p in r.0.files.entries[h] <==> p in d.files.entries[h] && p !in pids)
      && (r.1 ==> forall h :: h in d.files.entries ==>
            h in r.0.files.entries && r.0.files.entries[h] == Spared(d.files.entries[h], pids))
  {
    if pids != [] {
      var pid := pids[|pids| - 1];
      var prefix := pids[..|pids| - 1];
      SweepOutcome(d, prefix, strict);
      assert forall x :: x in pids <==> x in prefix || x == pid;
      assert pid !in prefix;
      var prev := Sweep(d, prefix, strict);
      if prev.1 {
        PopFromOutcome(prev.0.files.entries, prev.0.files.keys, pid, strict);
        forall h | h in d.files.entries
          ensures Spared(d.files.entries[h], prefix) - {pid} == Spared(d.files.entries[h], pids)
        {
          SparedStep(d.files.entries[h], prefix, pid, pids);
        }
      } else {
        var p, h :| p in prefix && h in d.files.entries && p !in d.files.entries[h];
        assert p in pids;
      }
    }
  }

  /** The holders of a file other than the peers of `pids`, with their pieces. */
  function Spared(holders: Holders, pids: seq<PeerId>): Holders
  {
    map p | p in holders && p !in pids :: holders[p]
  }

  lemma SparedStep(holders: Holders, prefix: seq<PeerId>, pid: PeerId, pids: seq<PeerId>)
    requires forall x :: x in pids <==> x in prefix || x == pid
    ensures Spared(holders, prefix) - {pid} == Spared(holders, pids)
  {
  }

  /** A sweep never removes a peer outside `pids`, whether or not it completes. */
  lemma {:induction false} SweepSpares(d: TrackerData, pids: seq<PeerId>, strict: bool, p: PeerId)
    requires d.Valid() && NoDup(pids)
    requires p in d.peers.entries && p !in pids
    ensures p in Sweep(d, pids, strict).0.peers.entries
  {
    if pids != [] {
      SweepSpares(d, pids[..|pids| - 1], strict, p);
    }
  }

  /** One pass of `remove_inactive_peers` on the data, as written or with a lenient pop. */
  ghost function SweepPass(d: TrackerData, now: int, timeOut: int, strict: bool): (r: (TrackerData, bool))
    requires d.Valid()
    ensures r.0.Valid()
  {
    Sweep(d, Inactive(d.peers.keys, d.peers.entries, now, timeOut), strict)
  }

  /**
   * The pass with `pop(peer_id, None)`, as evidently intended: it always
   * completes, keeps exactly the peers seen within the time-out (one at
   * exactly `time_out` stays), and no file lists a removed peer.
   */
  lemma SweepCheckedRemovesExpired(d: TrackerData, now: int, timeOut: int)
    requires d.Valid()
    ensures var r := SweepPass(d, now, timeOut, false);
      && r.1
      && (forall p :: p in r.0.peers.entries <==> p in d.peers.entries && !Expired(d.peers.entries[p], now, timeOut))
      && r.0.files.keys == d.files.keys
      && (forall h :: h in r.0.files.entries ==> forall p :: p in r.0.files.entries[h] ==>
           p in d.files.entries[h] && (p in d.peers.entries ==> !Expired(d.peers.entries[p], now, timeOut)))
      && forall h :: h in d.files.entries ==>
           h in r.0.files.entries &&
           r.0.files.entries[h] == map p | p in d.files.entries[h] &&
             !(p in d.peers.entries && Expired(d.peers.entries[p], now, timeOut)) :: d.files.entries[h][p]
  {
    var pids := Inactive(d.peers.keys, d.peers.entries, now, timeOut);
    SweepOutcome(d, pids, false);
    forall h | h in d.files.entries
      ensures Spared(d.files.entries[h], pids) == map p | p in d.files.entries[h] &&
        !(p in d.peers.entries && Expired(d.peers.entries[p], now, timeOut)) :: d.files.entries[h][p]
    {
    }
  }

  /** As written, the pass completes exactly when every expired peer holds every file. */
  lemma SweepCompletesIff(d: TrackerData, now: int, timeOut: int)
    requires d.Valid()
    ensures SweepPass(d, now, timeOut, true).1 <==>
      forall p, h :: p in d.peers.entries && Expired(d.peers.entries[p], now, timeOut) && h in d.files.entries
        ==> p in d.files.entries[h]
    ensures SweepPass(d, now, timeOut, true).1 ==> SweepPass(d, now, timeOut, true) == SweepPass(d, now, timeOut, false)
  {
    var pids := Inactive(d.peers.keys, d.peers.entries, now, timeOut);
    SweepOutcome(d, pids, true);
    SweepAgrees(d, pids);
  }

  lemma {:induction false} SweepAgrees(d: TrackerData, pids: seq<PeerId>)
    requires d.Valid() && NoDup(pids)
    ensures Sweep(d, pids, true).1 ==> Sweep(d, pids, true) == Sweep(d, pids, false)
  {
    if pids != [] {
      SweepAgrees(d, pids[..|pids| - 1]);
      if Sweep(d, pids, true).1 {
        var prev := Sweep(d, pids[..|pids| - 1], true);
        assert prev.1;
        PopAgrees(prev.0.files.entries, prev.0.files.keys, pids[|pids| - 1]);
      }
    }
  }

  lemma {:induction false} PopAgrees(files: map<string, Holders>, hs: seq<string>, pid: PeerId)
    requires forall h :: h in hs ==> h in files
    requires NoDup(hs)
    ensures PopFrom(files, hs, pid, true).1 ==> PopFrom(files, hs, pid, true) == PopFrom(files, hs, pid, false)
  {
    if hs != [] {
      PopAgrees(files, hs[..|hs| - 1], pid);
    }
  }

  /** The input that shows it: one expired peer and one file it does not hold; the pass stops after deleting the peer. */
  lemma SweepStopsPartway(info: PeerInfo)
    ensures var d := TrackerData(Dict(["p"], map["p" := PeerRecord(info, 0)]), Dict(["f"], map["f" := map[]]));
      var r := SweepPass(d, 31, 30, true);
      !r.1 && r.0.peers.entries == map[] && r.0.files == d.files
  {
    var d := TrackerData(Dict(["p"], map["p" := PeerRecord(info, 0)]), Dict(["f"], map["f" := map[]]));
    assert d.Valid();
    var pids := Inactive(d.peers.keys, d.peers.entries, 31, 30);
    var keys: seq<PeerId> := ["p"];
    assert keys[..0] == [];
    assert Expired(d.peers.entries["p"], 31, 30);
    assert Inactive(keys[..0], d.peers.entries, 31, 30) == [];
    assert pids == ["p"];
    assert pids[..0] == [];
    assert PopFrom(d.files.entries, ["f"], "p", true) == (d.files.entries, false) by {
      assert ["f"][..0] == [];
    }
    assert Sweep(d, pids, true) == (TrackerData(d.peers.Pop("p"), d.files), false);
  }

  /** A heartbeat keeps a peer through any pass within `time_out` of it. */
  lemma HeartbeatKeepsAlive(d: TrackerData, req: Request, now: int, later: int, timeOut: int)
    requires d.Valid() && req.peerInfo.Some? && req.peerInfo.value.peerId in d.peers.entries
    requires later - now <= timeOut
    ensures var d1 := HeartbeatEffect(d, req, now).0;
      d1.Valid() && req.peerInfo.value.peerId in SweepPass(d1, later, timeOut, false).0.peers.entries
    ensures var d1 := HeartbeatEffect(d, req, now).0;
      d1.Valid() && req.peerInfo.value.peerId in SweepPass(d1, later, timeOut, true).0.peers.entries
  {
    var d1 := HeartbeatEffect(d, req, now).0;
    var pid := req.peerInfo.value.peerId;
    SweepCheckedRemovesExpired(d1, later, timeOut);
    var pids := Inactive(d1.peers.keys, d1.peers.entries, later, timeOut);
    assert pid !in pids;
    SweepSpares(d1, pids, true, pid);
  }

  /** The tracker: the class-level `tracker_data`, updated in place by the handlers. */
  class Tracker {
    var peers: Dict<PeerRecord>
    var files: Dict<Holders>

    function Data(): TrackerData
      reads this
    {
      TrackerData(peers, files)
    }

    ghost predicate Valid()
      reads this
    {
      Data().Valid()
    }

    constructor ()
      ensures Valid() && peers.entries == map[] && files.entries == map[]
    {
      peers := Empty();
      files := Empty();
    }

    method Register(req: Request, now: int) returns (resp: Option<Response>)
      requires Valid()
      modifies this
      ensures Valid()
      ensures (Data(), resp) == RegisterEffect(old(Data()), req, now)
    {
      if req.peerInfo.None? {
        return None;
      }
      var info := req.peerInfo.value;
      peers := peers.Set(info.peerId, PeerRecord(info, now));
      var h := req.fileHash;
      if h.Some? && h.value != "" && h.value !in files.entries {
        files := files.Set(h.value, map[]);
      }
      if h.None? || h.value !in files.entries {
        return None;
      }
      files := files.Set(h.value, files.entries[h.value][info.peerId := req.filePieces]);
      resp := Some(Registered);
    }

    method Unregister(req: Request) returns (resp: Option<Response>)
      requires Valid()
      modifies this
      ensures Valid()
      ensures (Data(), resp) == UnregisterEffect(old(Data()), req)
    {
      if req.peerInfo.None? {
        return None;
      }
      var pid := req.peerInfo.value.peerId;
      if pid in peers.entries {
        peers := peers.Pop(pid);
        var h := req.fileHash;
        if h.Some? && h.value != "" && h.value in files.entries {
          files := files.Set(h.value, files.entries[h.value] - {pid});
        }
      }
      resp := Some(Unregistered);
    }

    method Heartbeat(req: Request, now: int) returns (resp: Option<Response>)
      requires Valid()
      modifies this
      ensures Valid()
      ensures (Data(), resp) == HeartbeatEffect(old(Data()), req, now)
    {
      if req.peerInfo.None? {
        return None;
      }
      var pid := req.peerInfo.value.peerId;
      if pid in peers.entries {
        peers := peers.Set(pid, peers.entries[pid].(lastSeen := now));
        resp := Some(HeartbeatReceived);
      } else {
        resp := Some(PeerNotFound);
      }
    }

    /** `scrapeHandle`: builds `scrape_info` hash by hash. */
    method Scrape(hashes: seq<string>) returns (resp: Response)
      ensures resp == ScrapeResponse(files.entries, hashes)
    {
      var info: map<string, ScrapeEntry> := map[];
      var i := 0;
      while i < |hashes|
        invariant 0 <= i <= |hashes|
        invariant ScrapeOf(files.entries, hashes[..i]) == Some(info)
      {
        var h := hashes[i];
        assert hashes[..i + 1][..i] == hashes[..i];
        if h in files.entries {
          var fd := files.entries[h];
          if !Scrapable(fd) {
            assert h in hashes[..i + 1];
            assert ScrapeOf(files.entries, hashes[..i + 1]).None?;
            ScrapeFailsLater(files.entries, hashes, i + 1);
            return ServerError;
          }
          info := info[h := ScrapeEntry(0, 0, fd["pieces"])];
        }
        i := i + 1;
      }
      assert hashes[..i] == hashes;
      resp := Response(200, ScrapeBody(info));
    }

    /** `_post`: dispatch on "action" (the register branch raises, as written). */
    method Post(req: Option<Request>, now: int) returns (resp: Response)
      requires Valid()
      modifies this
      ensures Valid()
      ensures (Data(), resp) == Dispatched(old(Data()), req, now)
    {
      if req.None? {
        return ServerError;
      }
      var q := req.value;
      var r: Option<Response>;
      if q.action == Some("register") {
        r := None;
      } else if q.action == Some("unregister") {
        r := Unregister(q);
      } else if q.action == Some("heartbeat") {
        r := Heartbeat(q, now);
      } else if q.action == Some("get_peers") {
        r := Some(GetPeers(files, q));
      } else if q.action == Some("scrape") {
        var s := Scrape(q.fileHashes);
        r := Some(s);
      } else {
        r := Some(InvalidAction);
      }
      resp := if r.None? then ServerError else r.value;
    }

    /**
     * One pass of `remove_inactive_peers` at time `now`: deletes each
     * expired peer in `peers` order and pops it from every file in `files`
     * order; `ok` is false when a pop raised, the state then being as far
     * as the pass got.
     */
    method RemoveInactivePeers(now: int, timeOut: int) returns (ok: bool)
      requires Valid()
      modifies this
      ensures Valid()
      ensures (Data(), ok) == SweepPass(old(Data()), now, timeOut, true)
    {
      var inactive := Inactive(peers.keys, peers.entries, now, timeOut);
      var i := 0;
      while i < |inactive|
        invariant 0 <= i <= |inactive|
        invariant Valid()
        invariant (Data(), true) == Sweep(old(Data()), inactive[..i], true)
      {
        var pid := inactive[i];
        assert inactive[..i + 1][..i] == inactive[..i];
        peers := peers.Pop(pid);
        var popOk := PopEverywhere(pid);
        if !popOk {
          SweepStops(old(Data()), inactive, i + 1);
          return false;
        }
        i := i + 1;
      }
      assert inactive[..i] == inactive;
      ok := true;
    }

    /** `for file_hash in files.keys(): files[file_hash].pop(pid)`; `ok` is false when a pop raised. */
    method PopEverywhere(pid: PeerId) returns (ok: bool)
      requires Valid()
      modifies this
      ensures Valid()
      ensures peers == old(peers) && files.keys == old(files.keys)
      ensures (files.entries, ok) == PopFrom(old(files.entries), old(files.keys), pid, true)
    {
      var popped;
      popped, ok := PopAll(files.entries, files.keys, pid);
      files := Dict(files.keys, popped);
    }

    /**
     * The loop of pops itself, on the holders map: each hash in order loses
     * `pid`, and the first hash `pid` does not hold stops it.
     */
    static method PopAll(start: map<string, Holders>, hs: seq<string>, pid: PeerId)
      returns (popped: map<string, Holders>, ok: bool)
      requires NoDup(hs) && forall h :: h in hs ==> h in start
      ensures (popped, ok) == PopFrom(start, hs, pid, true)
    {
      popped := start;
      var j := 0;
      while j < |hs|
        invariant 0 <= j <= |hs|
        invariant (popped, true) == PopFrom(start, hs[..j], pid, true)
      {
        var h := hs[j];
        PopStep(start, hs, j, pid, popped);
        if pid !in popped[h] {
          PopStops(start, hs, j + 1, pid);
          return popped, false;
        }
        popped := popped[h := popped[h] - {pid}];
        j := j + 1;
      }
      assert hs[..j] == hs;
      ok := true;
    }
  }

  lemma ScrapeFailsLater(files: map<string, Holders>, hashes: seq<string>, i: nat)
    requires i <= |hashes| && ScrapeOf(files, hashes[..i]).None?
    ensures ScrapeOf(files, hashes).None?
  {
    assert forall h :: h in hashes[..i] ==> h in hashes;
  }

  /** One more strict pop, after the first `j` completed with `popped`. */
  lemma PopStep(start: map<string, Holders>, hs: seq<string>, j: nat, pid: PeerId, popped: map<string, Holders>)
    requires j < |hs| && forall h :: h in hs ==> h in start
    requires (popped, true) == PopFrom(start, hs[..j], pid, true)
    ensures hs[j] in popped
    ensures PopFrom(start, hs[..j + 1], pid, true)
      == if pid !in popped[hs[j]] then (popped, false) else (popped[hs[j] := popped[hs[j]] - {pid}], true)
  {
    assert hs[..j + 1][..j] == hs[..j];
  }

  /** Once a strict pass of pops has raised, the later hashes are not looked at. */
  lemma {:induction false} PopStops(files: map<string, Holders>, hs: seq<string>, j: nat, pid: PeerId)
    requires j <= |hs| && NoDup(hs) && forall h :: h in hs ==> h in files
    requires !PopFrom(files, hs[..j], pid, true).1
    ensures PopFrom(files, hs, pid, true) == PopFrom(files, hs[..j], pid, true)
  {
    if j < |hs| {
      var prefix := hs[..|hs| - 1];
      assert prefix[..j] == hs[..j];
      PopStops(files, prefix, j, pid);
    } else {
      assert hs[..j] == hs;
    }
  }

  /** Once a strict sweep has raised, the later peers are not looked at. */
  lemma {:induction false} SweepStops(d: TrackerData, pids: seq<PeerId>, i: nat)
    requires d.Valid() && NoDup(pids) && i <= |pids|
    requires !Sweep(d, pids[..i], true).1
    ensures Sweep(d, pids, true) == Sweep(d, pids[..i], true)
  {
    if i < |pids| {
      var prefix := pids[..|pids| - 1];
      assert prefix[..i] == pids[..i];
      SweepStops(d, prefix, i);
    } else {
      assert pids[..i] == pids;
    }
  }
}
