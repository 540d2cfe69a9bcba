/**
 * peer.py: chunk bookkeeping on both sides of a transfer (`IncompleteFile`
 * on the receiving side, `CompleteFile` on the serving side), the reply a
 * peer's listener gives to one request, the handshake test of
 * `connect_to_peer`, and the `files_in_progress` guard of `receive_file`.
 */
module PeerNode {
  import opened Common
  import opened Text

  /** `IncompleteFile.chunk_size`: the receiving side counts 1024-byte chunks. */
  const ReceiveChunkSize: nat := 1024

  /** `File.chunk_size`: the serving side reads 2048-byte chunks. */
  const ServeChunkSize: nat := 2048

  /** `[i for i in range(n) if i not in received]`: the chunk numbers still missing, ascending. */
  function Needed(n: nat, received: map<int, Bytes>): (r: seq<nat>)
    ensures forall i {:trigger i in r} :: i in r <==> 0 <= i < n && i !in received
    ensures forall a, b :: 0 <= a < b < |r| ==> r[a] < r[b]
  {
    if n == 0 then []
    else
      var r := Needed(n - 1, received);
      assert forall a :: 0 <= a < |r| ==> r[a] in r;
      r + (if n - 1 in received then [] else [n - 1])
  }

  /** `[i for i in range(n)]`. */
  function Range(n: nat): (r: seq<nat>)
    ensures |r| == n && forall i :: 0 <= i < n ==> r[i] == i
  {
    if n == 0 then [] else Range(n - 1) + [n - 1]
  }

  /** What `write_file` does. */
  datatype WriteResult =
    /** Fewer (or more) chunks than `n_chunks` were received: `False`, nothing written. */
    | Incomplete
    /** `True`; the file now holds these bytes. */
    | Written(content: Bytes)
    /** As many chunks as `n_chunks` were received, but not chunk `missing`: `received_chunks[i]` raised. */
    | MissingChunk(missing: nat)

  /** The first chunk number below `n` that was not received, if any. */
  function FirstMissing(n: nat, received: map<int, Bytes>): (r: Option<nat>)
    ensures r.None? <==> forall i :: 0 <= i < n ==> i in received
    ensures r.Some? ==> r.value < n && r.value !in received && forall i :: 0 <= i < r.value ==> i in received
  {
    if n == 0 then None
    else
      match FirstMissing(n - 1, received)
      case Some(i) => Some(i)
      case None => if n - 1 in received then None else Some(n - 1)
  }

  /** The received chunks 0 .. n-1, in index order. */
  function InOrder(n: nat, received: map<int, Bytes>): (r: seq<Bytes>)
    requires forall i :: 0 <= i < n ==> i in received
    ensures |r| == n && forall i :: 0 <= i < n ==> r[i] == received[i]
  {
    if n == 0 then [] else InOrder(n - 1, received) + [received[n - 1]]
  }

  /**
   * `write_file` as written: the test is only on the number of chunks, so a
   * chunk number outside `[0, n_chunks)` counts towards it and the ordered
   * write then fails on the chunk that is really missing.
   */
  function WriteFile(n: nat, received: map<int, Bytes>): (r: WriteResult)
    ensures r.Incomplete? <==> |received.Keys| != n
    ensures r.Written? ==> (forall i :: 0 <= i < n ==> i in received) && r.content == Concat(InOrder(n, received))
    ensures r.MissingChunk? ==> r.missing < n && r.missing !in received
  {
    if |received.Keys| != n then Incomplete
    else
      match FirstMissing(n, received)
      case None => Written(Concat(InOrder(n, received)))
      case Some(i) => MissingChunk(i)
  }

  /** The input that shows it: two chunks expected, chunks 0 and 5 received. */
  lemma WriteFileMissesOutOfRangeChunk()
    ensures WriteFile(2, map[0 := [], 5 := []]) == MissingChunk(1)
  {
    var m: map<int, Bytes> := map[0 := [], 5 := []];
    assert m.Keys == {0, 5};
    assert |m.Keys| == 2;
    assert FirstMissing(1, m) == None;
  }

  /**
   * `write_file` as evidently intended: the file is written exactly when
   * every chunk 0 .. n_chunks-1 has been received, and never raises.
   */
  function WriteFileChecked(n: nat, received: map<int, Bytes>): (r: WriteResult)
    ensures !r.MissingChunk?
    ensures r.Written? <==> forall i :: 0 <= i < n ==> i in received
    ensures r.Written? ==> r.content == Concat(InOrder(n, received))
  {
    if FirstMissing(n, received).None? then Written(Concat(InOrder(n, received))) else Incomplete
  }

  /** Where every expected chunk is present and no other, both versions agree. */
  lemma WriteFileAgrees(n: nat, received: map<int, Bytes>)
    requires forall i :: i in received <==> 0 <= i < n
    ensures WriteFile(n, received) == WriteFileChecked(n, received)
  {
    assert received.Keys == RangeSet(n);
  }

  /** `set(range(n))`. */
  function RangeSet(n: nat): (r: set<int>)
    ensures forall i :: i in r <==> 0 <= i < n
    ensures |r| == n
  {
    if n == 0 then {} else RangeSet(n - 1) + {n - 1}
  }

  /** The receiving side of one download. */
  class IncompleteFile {
    const filename: string
    const size: nat
    const nChunks: nat
    var neededChunks: seq<nat>
    var receivedChunks: map<int, Bytes>

    /** `__init__`: every chunk is needed and none is received (opening the output file is not modelled). */
    constructor (filename: string, size: nat)
      ensures this.filename == filename && this.size == size
      ensures nChunks == CeilDiv(size, ReceiveChunkSize)
      ensures neededChunks == Range(nChunks)
      ensures receivedChunks == map[]
    {
      this.filename := filename;
      this.size := size;
      nChunks := CeilDiv(size, ReceiveChunkSize);
      neededChunks := Range(CeilDiv(size, ReceiveChunkSize));
      receivedChunks := map[];
    }

    /** `get_needed`: recomputes and returns the chunk numbers not yet received, ascending. */
    method GetNeeded() returns (needed: seq<nat>)
      modifies this
      ensures forall i :: i in needed <==> 0 <= i < nChunks && i !in receivedChunks
      ensures forall a, b :: 0 <= a < b < |needed| ==> needed[a] < needed[b]
      ensures neededChunks == needed
      ensures receivedChunks == old(receivedChunks)
    {
      var n, received := nChunks, receivedChunks;
      needed := [];
      var i := 0;
      while i < n
        invariant 0 <= i <= n
        invariant needed == Needed(i, received)
      {
        if i !in received {
          needed := needed + [i];
        }
        i := i + 1;
      }
      neededChunks := needed;
    }

    /**
     * `write_chunk`: records `buf` under `chunkNo`, replacing an earlier
     * value; a chunk number whose offset the seek rejects (negative, or
     * 2^63 or more) raises before anything is recorded (`ok` false).
     * Numbers past the end are not rejected.
     */
    method WriteChunk(buf: Bytes, chunkNo: int) returns (ok: bool)
      modifies this
      ensures ok <==> Seekable(chunkNo, ReceiveChunkSize)
      ensures ok ==> receivedChunks == old(receivedChunks)[chunkNo := buf]
      ensures !ok ==> receivedChunks == old(receivedChunks)
      ensures chunkNo in old(receivedChunks) && old(receivedChunks)[chunkNo] == buf ==>
        receivedChunks == old(receivedChunks)
      ensures neededChunks == old(neededChunks)
    {
      if !Seekable(chunkNo, ReceiveChunkSize) {
        return false;
      }
      receivedChunks := receivedChunks[chunkNo := buf];
      ok := true;
    }
  }

  /**
   * The serving side: a name listed in the peer's own folder, in the state
   * `__init__` left it. The path it opens is the one under the peer's name,
   * which need not exist.
   */
  datatype CompleteFile =
    /** The path does not exist: `__init__` raised before setting `size`. */
    | Missing(filename: string)
    /** The path exists but `open` raised (a directory, an unreadable file): `size` is set, `fp` is not. */
    | Unopened(filename: string, size: nat)
    /** The size is the content's length and `fp` reads the content. */
    | Opened(filename: string, content: Bytes)
  {
    /** `self.size`, when `__init__` got as far as setting it. */
    function KnownSize(): (s: Option<nat>)
      ensures s.None? <==> Missing?
      ensures Opened? ==> s == Some(|content|)
      ensures Unopened? ==> s == Some(size)
    {
      match this
      case Missing(_) => None
      case Unopened(_, n) => Some(n)
      case Opened(_, c) => Some(|c|)
    }

    /** `n_chunks`: the number of 2048-byte chunks, set along with the size. */
    function NChunks(): (n: nat)
      requires !Missing?
      ensures (n - 1) * ServeChunkSize < KnownSize().value <= n * ServeChunkSize || (KnownSize().value == 0 && n == 0)
    {
      CeilDiv(KnownSize().value, ServeChunkSize)
    }
  }

  /**
   * CPython's `seek` raises for an offset that does not fit in a signed
   * 64-bit file offset.
   */
  const OffsetLimit: int := 0x8000_0000_0000_0000

  /** A chunk number whose offset `seek` accepts, for chunks of `chunkSize` bytes. */
  predicate Seekable(chunkNo: int, chunkSize: nat)
  {
    0 <= chunkNo && chunkNo * chunkSize < OffsetLimit
  }

  /**
   * `get_chunk_no(k)`: the up to 2048 bytes at offset `k * 2048`, empty past
   * the end; `None` where the seek raises (a negative offset, or one of
   * 2^63 or more).
   */
  function ServeChunk(content: Bytes, k: int): (r: Option<Bytes>)
    ensures r.None? <==> !Seekable(k, ServeChunkSize)
    ensures r.Some? ==> |r.value| <= 2048
    ensures r.Some? && k * 2048 >= |content| ==> r.value == []
    ensures r.Some? && (k + 1) * 2048 <= |content| ==> |r.value| == 2048
  {
    if !Seekable(k, ServeChunkSize) then None
    else
      var off := k * 2048;
      if off >= |content| then Some([])
      else if off + 2048 <= |content| then Some(content[off..off + 2048])
      else Some(content[off..])
  }

  /** The chunks a reader gets by asking for chunk numbers 0 .. n-1, in order; each of their offsets is seekable. */
  function ServedChunks(content: Bytes, n: nat): (r: seq<Bytes>)
    requires n * ServeChunkSize <= OffsetLimit
    ensures |r| == n
    ensures forall k :: 0 <= k < n ==> Some(r[k]) == ServeChunk(content, k)
  {
    if n == 0 then [] else ServedChunks(content, n - 1) + [ServeChunk(content, n - 1).value]
  }

  /** The file up to offset n * 2048, or all of it when that is past the end. */
  function Upto(content: Bytes, n: nat): Bytes
  {
    if n * 2048 <= |content| then content[..n * 2048] else content
  }

  /** The first n served chunks are the file up to offset n * 2048. */
  lemma {:induction false} ServedPrefix(content: Bytes, n: nat)
    requires n * ServeChunkSize <= OffsetLimit
    ensures Concat(ServedChunks(content, n)) == Upto(content, n)
  {
    if n > 0 {
      var m := n - 1;
      ServedPrefix(content, m);
      var last := ServeChunk(content, m).value;
      ServedStep(content, m, last);
      ServedSnoc(content, m);
    }
  }

  lemma ServedSnoc(content: Bytes, m: nat)
    requires (m + 1) * ServeChunkSize <= OffsetLimit
    ensures Concat(ServedChunks(content, m + 1)) == Concat(ServedChunks(content, m)) + ServeChunk(content, m).value
  {
    var chunks := ServedChunks(content, m + 1);
    assert chunks[..m] == ServedChunks(content, m);
  }

  lemma ServedStep(content: Bytes, k: nat, last: Bytes)
    requires (k + 1) * ServeChunkSize <= OffsetLimit
    requires last == ServeChunk(content, k).value
    ensures Upto(content, k) + last == Upto(content, k + 1)
  {
    var off := k * 2048;
    assert (k + 1) * 2048 == off + 2048;
    if off >= |content| {
    } else if off + 2048 <= |content| {
      assert content[..off] + content[off..off + 2048] == content[..off + 2048];
    } else {
      assert content[..off] + content[off..] == content;
    }
  }

  /**
   * The largest file whose `ceil(size / 1024)` chunk numbers all have a
   * seekable 2048-byte offset: 2^62 bytes.
   */
  const MaxServedSize: nat := 0x4000_0000_0000_0000

  /** The receiver's chunk count stays within the seekable offsets for any file of at most `MaxServedSize` bytes. */
  lemma ReceiverCountSeekable(size: nat)
    requires size <= MaxServedSize
    ensures CeilDiv(size, ReceiveChunkSize) * ServeChunkSize <= OffsetLimit
  {
    var n := CeilDiv(size, ReceiveChunkSize);
    if n > 0 {
      assert (n - 1) * 1024 < 0x10_0000_0000_0000 * 1024;
      assert n - 1 < 0x10_0000_0000_0000;
    }
  }

  /**
   * The receiver asks for ceil(size / 1024) chunks while the server cuts
   * 2048-byte ones; the surplus requests read past the end and come back
   * empty, so the assembled chunks are still exactly the file.
   */
  lemma ServedChunksRebuildFile(content: Bytes)
    requires |content| <= MaxServedSize
    ensures CeilDiv(|content|, ReceiveChunkSize) * ServeChunkSize <= OffsetLimit
    ensures Concat(ServedChunks(content, CeilDiv(|content|, ReceiveChunkSize))) == content
  {
    ReceiverCountSeekable(|content|);
    var n := CeilDiv(|content|, ReceiveChunkSize);
    ServedPrefix(content, n);
    assert n * 2048 >= |content|;
  }

  /** A receiver holding exactly the chunks the server sends for each number writes out the served file. */
  lemma DownloadRebuildsFile(content: Bytes, received: map<int, Bytes>)
    requires |content| <= MaxServedSize
    requires forall i :: i in received <==> 0 <= i < CeilDiv(|content|, ReceiveChunkSize)
    requires forall i :: 0 <= i < CeilDiv(|content|, ReceiveChunkSize) ==> Some(received[i]) == ServeChunk(content, i)
    ensures WriteFile(CeilDiv(|content|, ReceiveChunkSize), received) == Written(content)
  {
    ServedChunksRebuildFile(content);
    var n := CeilDiv(|content|, ReceiveChunkSize);
    WriteFileAgrees(n, received);
    assert InOrder(n, received) == ServedChunks(content, n);
  }

  /**
   * The `data` of a request as the listener sees it. The names of the
   * available files are strings, so a lookup key that is hashable but not
   * a string (a number, `None`, bytes, a tuple) names no available file.
   */
  datatype Payload =
    /** A string: the name `request_file` looks up. */
    | NameData(name: string)
    /** A hashable value that is not a string. */
    | ForeignName
    /** A dict with a string "filename" and an integer "chunk_no". */
    | ChunkData(filename: string, chunkNo: int)
    /**
     * A dict with both keys that `request_chunk` can still look up: a
     * string "filename" with a "chunk_no" that is not an integer (`Some`),
     * or a hashable "filename" that is not a string (`None`). Serving such
     * a chunk number raises in `get_chunk_no`.
     */
    | ChunkForeign(given: Option<string>)
    /**
     * Anything else: the branch's lookup raises. That is an unhashable
     * value (a list, a dict) for `request_file`; for `request_chunk` it is
     * anything but a dict with both keys and a hashable "filename".
     */
    | OtherData

  /** The `request_file` lookup finds no available file. */
  predicate FileUnheld(data: Payload, available: map<string, CompleteFile>)
  {
    (data.NameData? && data.name !in available) || data.ForeignName?
  }

  /** The `request_chunk` lookup finds no available file. */
  predicate ChunkFileUnheld(data: Payload, available: map<string, CompleteFile>)
  {
    || (data.ChunkData? && data.filename !in available)
    || (data.ChunkForeign? && (data.given.None? || data.given.value !in available))
  }

  /** One unpickled message: `Falsy` for an empty one; `kind` is `None` when it has no "type" key. */
  datatype Incoming = Falsy | Message(kind: Option<string>, data: Payload)

  /** The dictionaries the listener sends back. */
  datatype Reply =
    | AvailableFile(filesize: string)
    | ResponseChunk(chunkNo: int, filename: string, chunk: Bytes)
    | Error(text: string)
    /** `{"type": "handshake", "data": ...}`, which this listener never sends. */
    | HandshakeReply(data: string)

  /** What the listener does with one message. */
  datatype Action =
    /** The loop ends and the connection is closed. */
    | Close
    /** An exception was caught and logged; nothing is sent, the loop goes on. */
    | NoReply
    | Send(reply: Reply)

  /** The reply selection in `listen_to_peer`, for the files the peer makes available. */
  function Listen(msg: Incoming, available: map<string, CompleteFile>): (a: Action)
    ensures a == Close <==> msg.Falsy?
    ensures a.Send? ==> !a.reply.HandshakeReply?
    ensures a.Send? && a.reply.AvailableFile? ==>
      && msg.kind == Some("request_file") && msg.data.NameData? && msg.data.name in available
      && available[msg.data.name].KnownSize().Some?
      && a.reply.filesize == IntToString(available[msg.data.name].KnownSize().value)
    ensures a.Send? && a.reply.ResponseChunk? ==>
      && msg.kind == Some("request_chunk") && msg.data.ChunkData? && msg.data.filename in available
      && a.reply.chunkNo == msg.data.chunkNo && a.reply.filename == msg.data.filename
      && available[msg.data.filename].Opened?
      && Some(a.reply.chunk) == ServeChunk(available[msg.data.filename].content, msg.data.chunkNo)
    ensures a == Send(Error("File not available")) <==>
      || (msg.Message? && msg.kind == Some("request_file") && FileUnheld(msg.data, available))
      || (msg.Message? && msg.kind == Some("request_chunk") && ChunkFileUnheld(msg.data, available))
    ensures a == Send(Error("Unknown request type")) <==>
      msg.Message? && msg.kind.Some? && msg.kind.value !in {"request_file", "request_chunk"}
    ensures (msg.Message? && msg.kind == Some("request_file") && msg.data.NameData? &&
             msg.data.name in available && available[msg.data.name].KnownSize().Some?) ==>
      a == Send(AvailableFile(IntToString(available[msg.data.name].KnownSize().value)))
    ensures (msg.Message? && msg.kind == Some("request_chunk") && msg.data.ChunkData? &&
             Seekable(msg.data.chunkNo, ServeChunkSize) &&
             msg.data.filename in available && available[msg.data.filename].Opened?) ==>
      && ServeChunk(available[msg.data.filename].content, msg.data.chunkNo).Some?
      && a == Send(ResponseChunk(msg.data.chunkNo, msg.data.filename,
                                 ServeChunk(available[msg.data.filename].content, msg.data.chunkNo).value))
    ensures a == NoReply <==> (msg.Message? && (
      || msg.kind.None?
      || (msg.kind == Some("request_file") &&
            (|| !(msg.data.NameData? || msg.data.ForeignName?)
             || (msg.data.NameData? && msg.data.name in available && available[msg.data.name].Missing?)))
      || (msg.kind == Some("request_chunk") &&
            (|| !(msg.data.ChunkData? || msg.data.ChunkForeign?)
             || (msg.data.ChunkData? && msg.data.filename in available &&
                   (!available[msg.data.filename].Opened? || !Seekable(msg.data.chunkNo, ServeChunkSize)))
             || (msg.data.ChunkForeign? && msg.data.given.Some? && msg.data.given.value in available)))))
  {
    match msg
    case Falsy => Close
    case Message(kind, data) =>
      if kind.None? then NoReply
      else if kind.value == "request_file" then
        match data
        case NameData(name) =>
          if name !in available then Send(Error("File not available"))
          else (
            match available[name].KnownSize()
            case None => NoReply
            case Some(size) => Send(AvailableFile(IntToString(size))))
        case ForeignName => Send(Error("File not available"))
        case _ => NoReply
      else if kind.value == "request_chunk" then
        match data
        case ChunkData(name, k) =>
          if name !in available then Send(Error("File not available"))
          else (
            match available[name]
            case Opened(_, c) => (
              match ServeChunk(c, k)
              case None => NoReply
              case Some(chunk) => Send(ResponseChunk(k, name, chunk)))
            case _ => NoReply)
        case ChunkForeign(name) =>
          if name.None? || name.value !in available then Send(Error("File not available")) else NoReply
        case _ => NoReply
      else Send(Error("Unknown request type"))
  }

  /** The size a requester reads back from `available_file` is the size of the file. */
  lemma AvailableSizeRoundTrip(name: string, available: map<string, CompleteFile>)
    requires name in available && !available[name].Missing?
    ensures Listen(Message(Some("request_file"), NameData(name)), available).Send?
    ensures var a := Listen(Message(Some("request_file"), NameData(name)), available);
      a.reply.AvailableFile? && ParseInt(a.reply.filesize) == Some(available[name].KnownSize().value as int)
  {
    IntRoundTrip(available[name].KnownSize().value);
  }

  /** The parts of a handshake response `connect_to_peer` looks at: `None` where the key is absent or not a string. */
  datatype Response = Response(kind: Option<string>, data: Option<string>)

  /** `connect_to_peer` keeps the socket only for a `handshake` reply carrying `pong`. */
  predicate HandshakeAccepted(r: Response)
  {
    r.kind == Some("handshake") && r.data == Some("pong")
  }

  /** A listener's reply as a handshake response. */
  function AsResponse(r: Reply): Response
  {
    match r
    case AvailableFile(_) => Response(Some("available_file"), None)
    case ResponseChunk(_, _, _) => Response(Some("response_chunk"), None)
    case Error(text) => Response(Some("error"), Some(text))
    case HandshakeReply(data) => Response(Some("handshake"), Some(data))
  }

  /** `{"type": "handshake", "data": "ping"}`. */
  const HandshakeMessage := Message(Some("handshake"), NameData("ping"))

  /**
   * The handshake `connect_to_peer` sends is answered by the listener of
   * this same program with "Unknown request type", which it rejects: no
   * listener reply is ever accepted as a handshake.
   */
  lemma HandshakeNeverAccepted(msg: Incoming, available: map<string, CompleteFile>)
    ensures Listen(HandshakeMessage, available) == Send(Error("Unknown request type"))
    ensures Listen(msg, available).Send? ==> !HandshakeAccepted(AsResponse(Listen(msg, available).reply))
  {
  }

  /** The listener with the handshake answered, as `connect_to_peer` expects. */
  function ListenAnsweringHandshake(msg: Incoming, available: map<string, CompleteFile>): (a: Action)
    ensures msg.Message? && msg.kind == Some("handshake") && msg.data == NameData("ping") ==>
      a.Send? && AsResponse(a.reply) == Response(Some("handshake"), Some("pong"))
    ensures !(msg.Message? && msg.kind == Some("handshake")) ==> a == Listen(msg, available)
  {
    if msg.Message? && msg.kind == Some("handshake") then
      if msg.data == NameData("ping") then Send(HandshakeReply("pong")) else NoReply
    else Listen(msg, available)
  }

  /** How one call of `receive_file` ended. */
  datatype ReceiveOutcome =
    /** The file size is unknown: nothing happens. */
    | Unavailable
    /** The file is already being downloaded: nothing happens. */
    | AlreadyInProgress
    /** Fetching or writing raised: the exception leaves `receive_file`. */
    | Raised
    | Finished(result: WriteResult)

  class Node {
    var filesInProgress: set<string>

    constructor ()
      ensures filesInProgress == {}
    {
      filesInProgress := {};
    }

    /**
     * The `files_in_progress` guard of `receive_file`. The outcome of the
     * network fetch is a parameter: `fetchRaises` when fetching chunks
     * raised, else `writes`, the (chunk number, bytes) pairs it wrote in
     * order. The name is removed again only when no exception escapes.
     */
    method ReceiveFile(fileName: string, size: Option<nat>, fetchRaises: bool, writes: seq<(int, Bytes)>)
      returns (outcome: ReceiveOutcome)
      modifies this
      ensures size.None? ==> outcome == Unavailable && filesInProgress == old(filesInProgress)
      ensures size.Some? && fileName in old(filesInProgress) ==>
        outcome == AlreadyInProgress && filesInProgress == old(filesInProgress)
      ensures size.Some? && fileName !in old(filesInProgress) ==>
        && (outcome.Raised? || outcome.Finished?)
        && (outcome.Raised? <==>
              || fetchRaises
              || (exists j :: 0 <= j < |writes| && !Seekable(writes[j].0, ReceiveChunkSize))
              || WriteFile(CeilDiv(size.value, ReceiveChunkSize), Applied(writes)).MissingChunk?)
        && (outcome.Raised? ==> filesInProgress == old(filesInProgress) + {fileName})
        && (outcome.Finished? ==>
              filesInProgress == old(filesInProgress)
              && outcome.result == WriteFile(CeilDiv(size.value, ReceiveChunkSize), Applied(writes)))
    {
      if size.None? {
        return Unavailable;
      }
      if fileName in filesInProgress {
        return AlreadyInProgress;
      }
      filesInProgress := filesInProgress + {fileName};
      var incomplete := new IncompleteFile(fileName, size.value);
      if fetchRaises {
        return Raised;
      }
      var j := 0;
      while j < |writes|
        invariant 0 <= j <= |writes|
        invariant incomplete.receivedChunks == Applied(writes[..j])
        invariant forall m :: 0 <= m < j ==> Seekable(writes[m].0, ReceiveChunkSize)
        invariant filesInProgress == old(filesInProgress) + {fileName}
        invariant incomplete.nChunks == CeilDiv(size.value, ReceiveChunkSize)
      {
        var ok := incomplete.WriteChunk(writes[j].1, writes[j].0);
        if !ok {
          return Raised;
        }
        assert writes[..j + 1][..j] == writes[..j];
        j := j + 1;
      }
      assert writes[..j] == writes;
      var result := WriteFile(incomplete.nChunks, incomplete.receivedChunks);
      if result.MissingChunk? {
        return Raised;
      }
      filesInProgress := filesInProgress - {fileName};
      outcome := Finished(result);
    }
  }

  /** The chunk map after `write_chunk` for each pair, in order. */
  function Applied(writes: seq<(int, Bytes)>): map<int, Bytes>
  {
    if writes == [] then map[]
    else
      var last := writes[|writes| - 1];
      Applied(writes[..|writes| - 1])[last.0 := last.1]
  }
}
