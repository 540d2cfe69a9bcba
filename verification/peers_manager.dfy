/**
 * peers_manager.py: the block-request scheduler. It keeps the connected
 * peers, a request queue per peer and a table from (piece, offset) to the
 * peer a block was requested from, so that no block is requested twice.
 *
 * The pieces manager and the peer objects belong to code that is not part
 * of this model; the scheduler sees them through `PiecesView` and
 * `SwarmView`, which answer exactly the queries it makes.
 */
module PeersManager {
  import opened Common

  /** `MAX_PEERS_CONNECTED`: only ever logged, never enforced. */
  const MaxPeersConnected := 30

  /** A connected peer: its identity and its socket. */
  datatype Peer = Peer(id: nat, socket: nat)

  /** `(piece_index, block_offset, block_length)`, as queued and as sent in a request message. */
  datatype Request = Request(piece: nat, offset: nat, length: nat)

  /** A key of `global_requested_blocks`. */
  type BlockKey = (nat, nat)

  function Key(r: Request): BlockKey
  {
    (r.piece, r.offset)
  }

  /**
   * What the scheduler asks of the pieces manager: the number of pieces,
   * `is_piece_downloaded` and `get_missing_blocks` (pairs of offset and
   * length); for serving, `is_block_downloaded` and `get_block`.
   */
  datatype PiecesView = PiecesView(
    count: nat,
    downloaded: nat -> bool,
    missing: nat -> seq<(nat, nat)>,
    blockDownloaded: (nat, nat) -> bool,
    getBlock: (nat, nat, nat) -> Option<Bytes>)

  /** What the scheduler asks of each peer: `has_piece` and `is_unchoked`. */
  datatype SwarmView = SwarmView(has: (Peer, nat) -> bool, unchoked: Peer -> bool)

  /** `peers` after `add_peers(incoming)` on `peers`: each newcomer not yet present is appended, in order. */
  function AppendNew(peers: seq<Peer>, incoming: seq<Peer>): seq<Peer>
  {
    if incoming == [] then peers
    else
      var front := AppendNew(peers, incoming[..|incoming| - 1]);
      var p := incoming[|incoming| - 1];
      if p in front then front else front + [p]
  }

  /** Adding peers keeps the old ones in front, adds exactly the newcomers and never duplicates. */
  lemma {:induction false} AppendNewProperties(peers: seq<Peer>, incoming: seq<Peer>)
    ensures |AppendNew(peers, incoming)| >= |peers| && AppendNew(peers, incoming)[..|peers|] == peers
    ensures forall p :: p in AppendNew(peers, incoming) <==> p in peers || p in incoming
    ensures NoDup(peers) ==> NoDup(AppendNew(peers, incoming))
  {
    if incoming != [] {
      var front := AppendNew(peers, incoming[..|incoming| - 1]);
      AppendNewProperties(peers, incoming[..|incoming| - 1]);
      var p := incoming[|incoming| - 1];
      if p !in front {
        assert (front + [p])[..|peers|] == front[..|peers|];
      }
      assert incoming == incoming[..|incoming| - 1] + [p];
    }
  }

  /** There is no cap: distinct newcomers are all appended, however many there are. */
  lemma {:induction false} AppendNewNoCap(peers: seq<Peer>, incoming: seq<Peer>)
    requires NoDup(incoming)
    requires forall p :: p in incoming ==> p !in peers
    ensures AppendNew(peers, incoming) == peers + incoming
  {
    if incoming != [] {
      var init := incoming[..|incoming| - 1];
      var p := incoming[|incoming| - 1];
      assert NoDup(init);
      AppendNewNoCap(peers, init);
      assert p !in init;
      assert peers + init + [p] == peers + incoming;
    }
  }

  /** `[peer for peer in peers if peer.has_piece(piece)]`. */
  function Holders(peers: seq<Peer>, swarm: SwarmView, piece: nat): (r: seq<Peer>)
    ensures forall p :: p in r <==> p in peers && swarm.has(p, piece)
  {
    if peers == [] then []
    else
      var p := peers[|peers| - 1];
      Holders(peers[..|peers| - 1], swarm, piece) + (if swarm.has(p, piece) then [p] else [])
  }

  /** `[peer for peer in peers if peer.is_unchoked()]`. */
  function UnchokedPeers(peers: seq<Peer>, swarm: SwarmView): (r: seq<Peer>)
    ensures forall p :: p in r <==> p in peers && swarm.unchoked(p)
  {
    if peers == [] then []
    else
      var p := peers[|peers| - 1];
      UnchokedPeers(peers[..|peers| - 1], swarm) + (if swarm.unchoked(p) then [p] else [])
  }

  /** Over distinct peers, the unchoked list counts each unchoked peer once. */
  lemma {:induction false} UnchokedCount(peers: seq<Peer>, swarm: SwarmView)
    ensures NoDup(peers) ==> |UnchokedPeers(peers, swarm)| == |set p | p in peers && swarm.unchoked(p)|
  {
    if peers != [] && NoDup(peers) {
      var n := |peers| - 1;
      var init, last := peers[..n], peers[n];
      NoDupPrefix(peers, n);
      NoDupAt(peers, n);
      UnchokedCount(init, swarm);
      var before := set p | p in init && swarm.unchoked(p);
      var after := set p | p in peers && swarm.unchoked(p);
      var added: set<Peer> := if swarm.unchoked(last) then {last} else {};
      assert after == before + added by {
        assert peers == init + [last];
        SelectedStep(init, last, swarm.unchoked);
      }
      assert |after| == |before| + |added| by {
        assert last !in before;
      }
    }
  }

  /** The peers of a list that pass `f`, one peer longer. */
  lemma SelectedStep(init: seq<Peer>, last: Peer, f: Peer -> bool)
    ensures (set p | p in init + [last] && f(p)) == (set p | p in init && f(p)) + (if f(last) then {last} else {})
  {
    assert forall x :: x in init + [last] <==> x in init || x == last;
  }

  /** `any(peer.is_unchoked() for peer in peers)`. */
  predicate AnyUnchoked(peers: seq<Peer>, swarm: SwarmView)
  {
    exists i :: 0 <= i < |peers| && swarm.unchoked(peers[i])
  }

  /** `has_unchoked_peers()` holds exactly when `unchoked_peers_count()` is positive. */
  lemma {:induction false} AnyUnchokedIffCount(peers: seq<Peer>, swarm: SwarmView)
    ensures AnyUnchoked(peers, swarm) <==> |UnchokedPeers(peers, swarm)| > 0
  {
    if peers != [] {
      var init := peers[..|peers| - 1];
      AnyUnchokedIffCount(init, swarm);
      if AnyUnchoked(init, swarm) {
        var i :| 0 <= i < |init| && swarm.unchoked(init[i]);
        assert peers[i] == init[i];
      }
      if AnyUnchoked(peers, swarm) && !swarm.unchoked(peers[|peers| - 1]) {
        var i :| 0 <= i < |peers| && swarm.unchoked(peers[i]);
        assert init[i] == peers[i];
      }
    }
  }

  /** `queue.setdefault(peer, []).append(r)`. */
  function Enqueue(queues: map<Peer, seq<Request>>, p: Peer, r: Request): map<Peer, seq<Request>>
  {
    queues[p := (if p in queues then queues[p] else []) + [r]]
  }

  /** The queues after the requests of `sent` were added in order. */
  function EnqueueAll(queues: map<Peer, seq<Request>>, sent: seq<(Peer, Request)>): map<Peer, seq<Request>>
  {
    if sent == [] then queues
    else
      var last := sent[|sent| - 1];
      Enqueue(EnqueueAll(queues, sent[..|sent| - 1]), last.0, last.1)
  }

  lemma {:induction false} EnqueueAllAppend(queues: map<Peer, seq<Request>>, a: seq<(Peer, Request)>,
                                           b: seq<(Peer, Request)>)
    ensures EnqueueAll(queues, a + b) == EnqueueAll(EnqueueAll(queues, a), b)
    decreases |b|
  {
    if b == [] {
      assert a + b == a;
    } else {
      assert (a + b)[..|a + b| - 1] == a + b[..|b| - 1];
      EnqueueAllAppend(queues, a, b[..|b| - 1]);
    }
  }

  /** Queueing only ever appends: every queue grows by exactly the requests sent to that peer. */
  lemma {:induction false} EnqueueAllExtends(queues: map<Peer, seq<Request>>, sent: seq<(Peer, Request)>, p: Peer)
    ensures p in EnqueueAll(queues, sent) <==> p in queues || SentTo(sent, p) != []
    ensures p in EnqueueAll(queues, sent) ==>
      var before := if p in queues then queues[p] else [];
      EnqueueAll(queues, sent)[p] == before + SentTo(sent, p)
  {
    if sent != [] {
      EnqueueAllExtends(queues, sent[..|sent| - 1], p);
    }
  }

  /** The requests of `sent` addressed to `p`, in order. */
  function SentTo(sent: seq<(Peer, Request)>, p: Peer): seq<Request>
  {
    if sent == [] then []
    else
      var last := sent[|sent| - 1];
      SentTo(sent[..|sent| - 1], p) + (if last.0 == p then [last.1] else [])
  }

  /** The table keys of the requests in `sent`, in order. */
  function SentKeys(sent: seq<(Peer, Request)>): (r: seq<BlockKey>)
    ensures |r| == |sent|
    ensures forall j :: 0 <= j < |sent| ==> r[j] == Key(sent[j].1)
  {
    if sent == [] then [] else SentKeys(sent[..|sent| - 1]) + [Key(sent[|sent| - 1].1)]
  }

  lemma SentKeysAppend(a: seq<(Peer, Request)>, b: seq<(Peer, Request)>)
    ensures SentKeys(a + b) == SentKeys(a) + SentKeys(b)
  {
  }

  /** No entry of `before` is dropped or changed in `after`. */
  ghost predicate KeepsEntries(before: map<BlockKey, Peer>, after: map<BlockKey, Peer>)
  {
    forall k :: k in before ==> k in after && after[k] == before[k]
  }

  /** The table after the requests of `sent` were recorded in order, each under its (piece, offset). */
  function Record(table: map<BlockKey, Peer>, sent: seq<(Peer, Request)>): map<BlockKey, Peer>
  {
    if sent == [] then table
    else
      var last := sent[|sent| - 1];
      Record(table, sent[..|sent| - 1])[Key(last.1) := last.0]
  }

  /** Every request of `sent` is for a block absent from `table`, and no block is requested twice. */
  ghost predicate FreshRequests(table: map<BlockKey, Peer>, sent: seq<(Peer, Request)>)
  {
    NoDup(SentKeys(sent)) && forall j :: 0 <= j < |sent| ==> Key(sent[j].1) !in table
  }

  /** Recording fresh requests only adds entries, one per request, each naming the peer it was sent to. */
  lemma {:induction false} RecordFacts(table: map<BlockKey, Peer>, sent: seq<(Peer, Request)>)
    ensures forall k :: k in Record(table, sent) <==> k in table || k in SentKeys(sent)
    ensures FreshRequests(table, sent) ==>
      && KeepsEntries(table, Record(table, sent))
      && forall j :: 0 <= j < |sent| ==> Record(table, sent)[Key(sent[j].1)] == sent[j].0
  {
    if sent != [] {
      var init := sent[..|sent| - 1];
      var last := sent[|sent| - 1];
      RecordFacts(table, init);
      assert SentKeys(sent) == SentKeys(init) + [Key(last.1)];
      if FreshRequests(table, sent) {
        assert FreshRequests(table, init) by {
          forall a, b | 0 <= a < b < |SentKeys(init)| ensures SentKeys(init)[a] != SentKeys(init)[b] {
            assert SentKeys(init)[a] == SentKeys(sent)[a] && SentKeys(init)[b] == SentKeys(sent)[b];
          }
          forall j | 0 <= j < |init| ensures Key(init[j].1) !in table {
            assert init[j] == sent[j];
          }
        }
        forall j | 0 <= j < |sent| ensures Record(table, sent)[Key(sent[j].1)] == sent[j].0 {
          if j < |init| {
            assert SentKeys(sent)[j] != SentKeys(sent)[|sent| - 1];
            assert init[j] == sent[j];
          }
        }
      }
    }
  }

  lemma {:induction false} RecordAppend(table: map<BlockKey, Peer>, a: seq<(Peer, Request)>, b: seq<(Peer, Request)>)
    ensures Record(table, a + b) == Record(Record(table, a), b)
    decreases |b|
  {
    if b == [] {
      assert a + b == a;
    } else {
      assert (a + b)[..|a + b| - 1] == a + b[..|b| - 1];
      RecordAppend(table, a, b[..|b| - 1]);
    }
  }

  /** Appending a request for a block absent from the recorded table keeps the requests fresh. */
  lemma FreshStep(table: map<BlockKey, Peer>, sent: seq<(Peer, Request)>, x: (Peer, Request))
    requires FreshRequests(table, sent)
    requires Key(x.1) !in Record(table, sent)
    ensures FreshRequests(table, sent + [x])
  {
    RecordFacts(table, sent);
    var s := sent + [x];
    assert SentKeys(s) == SentKeys(sent) + [Key(x.1)];
    forall j | 0 <= j < |s| ensures Key(s[j].1) !in table {
      if j < |sent| {
        assert s[j] == sent[j];
      }
    }
    NoDupConcat(SentKeys(sent), [Key(x.1)]);
  }

  lemma FreshAppend(table: map<BlockKey, Peer>, a: seq<(Peer, Request)>, b: seq<(Peer, Request)>)
    requires FreshRequests(table, a)
    requires FreshRequests(Record(table, a), b)
    ensures FreshRequests(table, a + b)
  {
    RecordFacts(table, a);
    SentKeysAppend(a, b);
    forall j | 0 <= j < |SentKeys(b)| ensures SentKeys(b)[j] !in SentKeys(a) {
      assert SentKeys(b)[j] == Key(b[j].1);
    }
    NoDupConcat(SentKeys(a), SentKeys(b));
    forall j | 0 <= j < |a + b| ensures Key((a + b)[j].1) !in table {
      if j < |a| {
        assert (a + b)[j] == a[j];
      } else {
        assert (a + b)[j] == b[j - |a|];
      }
    }
  }

  /** The pieces below `i` that `manage_requests` assigned, each to a connected peer holding it. */
  ghost predicate ChosenBefore(chosen: map<nat, Peer>, i: nat, pieces: PiecesView, swarm: SwarmView, peers: seq<Peer>)
  {
    && (forall q: nat :: q in chosen <==> q < i && !pieces.downloaded(q) && exists p :: p in peers && swarm.has(p, q))
    && (forall q :: q in chosen ==> chosen[q] in peers && swarm.has(chosen[q], q))
  }

  /** Every sent request is for a missing block of an assigned piece and goes to the peer assigned to it. */
  ghost predicate SentToChosen(sent: seq<(Peer, Request)>, chosen: map<nat, Peer>, pieces: PiecesView)
  {
    forall j :: 0 <= j < |sent| ==>
      && sent[j].1.piece in chosen && sent[j].0 == chosen[sent[j].1.piece]
      && (sent[j].1.offset, sent[j].1.length) in pieces.missing(sent[j].1.piece)
  }

  /** Every missing block of an assigned piece was already in `table` or has been requested. */
  ghost predicate Covered(chosen: map<nat, Peer>, pieces: PiecesView, table: map<BlockKey, Peer>,
                          sent: seq<(Peer, Request)>)
  {
    forall q, b :: q in chosen && 0 <= b < |pieces.missing(q)| ==>
      (q, pieces.missing(q)[b].0) in table || (q, pieces.missing(q)[b].0) in SentKeys(sent)
  }

  /** Assigning piece `i` to `peer` and sending `here` for it keeps the requests aimed and the blocks covered. */
  lemma PieceStep(chosen: map<nat, Peer>, pieces: PiecesView, table: map<BlockKey, Peer>,
                  sent: seq<(Peer, Request)>, here: seq<(Peer, Request)>, i: nat, peer: Peer)
    requires i !in chosen
    requires SentToChosen(sent, chosen, pieces) && Covered(chosen, pieces, table, sent)
    requires forall k :: k in Record(table, sent) <==> k in table || k in SentKeys(sent)
    requires forall j :: 0 <= j < |here| ==>
      here[j].0 == peer && here[j].1.piece == i && (here[j].1.offset, here[j].1.length) in pieces.missing(i)
    requires forall j :: 0 <= j < |pieces.missing(i)| ==>
      (i, pieces.missing(i)[j].0) in Record(table, sent) || (i, pieces.missing(i)[j].0) in SentKeys(here)
    ensures SentToChosen(sent + here, chosen[i := peer], pieces)
    ensures Covered(chosen[i := peer], pieces, table, sent + here)
  {
    SentKeysAppend(sent, here);
    var c := chosen[i := peer];
    forall j | 0 <= j < |sent + here|
      ensures (sent + here)[j].1.piece in c && (sent + here)[j].0 == c[(sent + here)[j].1.piece]
      ensures ((sent + here)[j].1.offset, (sent + here)[j].1.length) in pieces.missing((sent + here)[j].1.piece)
    {
      if j < |sent| {
        assert (sent + here)[j] == sent[j];
      } else {
        assert (sent + here)[j] == here[j - |sent|];
      }
    }
  }

  /** What a pass of `manage_requests` did to the table, read off the requests it sent. */
  lemma AssignmentOutcome(chosen: map<nat, Peer>, pieces: PiecesView, table: map<BlockKey, Peer>,
                          sent: seq<(Peer, Request)>)
    requires FreshRequests(table, sent) && SentToChosen(sent, chosen, pieces) && Covered(chosen, pieces, table, sent)
    ensures KeepsEntries(table, Record(table, sent))
    ensures forall i, b :: i in chosen && 0 <= b < |pieces.missing(i)| ==>
      (i, pieces.missing(i)[b].0) in Record(table, sent)
    ensures forall k :: k in Record(table, sent) && k !in table ==>
      k.0 in chosen && Record(table, sent)[k] == chosen[k.0] && k in SentKeys(sent)
  {
    RecordFacts(table, sent);
    forall k | k in Record(table, sent) && k !in table
      ensures k.0 in chosen && Record(table, sent)[k] == chosen[k.0]
    {
      var j :| 0 <= j < |sent| && SentKeys(sent)[j] == k;
    }
  }

  /** `peer_requests_piece`'s answer: the `Piece` message it sends and to whom, if any. */
  datatype PieceMessage = PieceMessage(piece: nat, offset: nat, length: nat, block: Bytes)

  /**
   * `peer_requests_piece`: nothing when the request or the peer is missing,
   * when the block is already downloaded, or when `get_block` gives nothing
   * (None or empty bytes); otherwise the block is sent back to the peer.
   */
  function PeerRequestsPiece(request: Option<Request>, peer: Option<Peer>, pieces: PiecesView)
    : (r: Option<(Peer, PieceMessage)>)
    ensures r.Some? <==>
      && request.Some? && peer.Some?
      && !pieces.blockDownloaded(request.value.piece, request.value.offset)
      && var b := pieces.getBlock(request.value.piece, request.value.offset, request.value.length);
         b.Some? && b.value != []
    ensures r.Some? ==>
      && r.value.0 == peer.value
      && r.value.1.piece == request.value.piece && r.value.1.offset == request.value.offset
      && r.value.1.length == request.value.length
      && Some(r.value.1.block) == pieces.getBlock(request.value.piece, request.value.offset, request.value.length)
  {
    if request.None? || peer.None? then None
    else
      var q := request.value;
      if pieces.blockDownloaded(q.piece, q.offset) then None
      else
        match pieces.getBlock(q.piece, q.offset, q.length)
        case None => None
        case Some(block) =>
          if block == [] then None else Some((peer.value, PieceMessage(q.piece, q.offset, q.length, block)))
  }

  /** `list.remove(x)`: the first occurrence of `x` removed. */
  function RemoveFirst(s: seq<Peer>, x: Peer): (r: seq<Peer>)
    requires x in s
    ensures |r| == |s| - 1
    ensures forall p :: p in r ==> p in s
  {
    if s[0] == x then s[1..] else [s[0]] + RemoveFirst(s[1..], x)
  }

  /** In a duplicate-free list, removing the first occurrence removes the peer altogether and keeps the others. */
  lemma {:induction false} RemoveFirstNoDup(s: seq<Peer>, x: Peer)
    requires x in s && NoDup(s)
    ensures x !in RemoveFirst(s, x) && NoDup(RemoveFirst(s, x))
    ensures forall p :: p in s && p != x ==> p in RemoveFirst(s, x)
  {
    if s[0] == x {
      assert forall i :: 0 <= i < |s[1..]| ==> s[1..][i] == s[i + 1];
    } else {
      assert NoDup(s[1..]) by {
        assert forall i :: 0 <= i < |s[1..]| ==> s[1..][i] == s[i + 1];
      }
      RemoveFirstNoDup(s[1..], x);
      var r := RemoveFirst(s[1..], x);
      assert s[0] !in r by {
        assert forall i :: 0 <= i < |s[1..]| ==> s[1..][i] == s[i + 1];
      }
      assert NoDup([s[0]] + r) by {
        forall i, j | 0 <= i < j < |[s[0]] + r| ensures ([s[0]] + r)[i] != ([s[0]] + r)[j] {
          if i == 0 {
            assert ([s[0]] + r)[j] == r[j - 1];
          }
        }
      }
    }
  }

  class Manager {
    var peers: seq<Peer>
    var requestQueues: map<Peer, seq<Request>>
    var requested: map<BlockKey, Peer>

    /** `peers` never holds a peer twice. */
    ghost predicate Valid()
      reads this
    {
      NoDup(peers)
    }

    /** Every requested block is attributed to a connected peer. */
    ghost predicate Attributed()
      reads this
    {
      forall k :: k in requested ==> requested[k] in peers
    }

    constructor ()
      ensures Valid() && Attributed()
      ensures peers == [] && requestQueues == map[] && requested == map[]
    {
      peers := [];
      requestQueues := map[];
      requested := map[];
    }

    /** `add_peers`: the newcomers not yet connected are appended in order; the rest is unchanged. */
    method AddPeers(incoming: seq<Peer>)
      requires Valid()
      modifies this
      ensures Valid()
      ensures peers == AppendNew(old(peers), incoming)
      ensures requestQueues == old(requestQueues) && requested == old(requested)
      ensures old(Attributed()) ==> Attributed()
    {
      var i := 0;
      while i < |incoming|
        invariant 0 <= i <= |incoming|
        invariant peers == AppendNew(old(peers), incoming[..i])
        invariant requestQueues == old(requestQueues) && requested == old(requested)
      {
        assert incoming[..i + 1][..i] == incoming[..i];
        if incoming[i] !in peers {
          peers := peers + [incoming[i]];
        }
        i := i + 1;
      }
      assert incoming[..i] == incoming;
      AppendNewProperties(old(peers), incoming);
    }

    /** `get_random_peer_having_piece`: any connected peer that has the piece, `None` when there is none. */
    method GetRandomPeerHavingPiece(swarm: SwarmView, piece: nat) returns (r: Option<Peer>)
      ensures r.None? <==> forall p :: p in peers ==> !swarm.has(p, piece)
      ensures r.Some? ==> r.value in peers && swarm.has(r.value, piece)
    {
      var available := Holders(peers, swarm, piece);
      if available == [] {
        return None;
      }
      assert available[0] in available;
      var p :| p in available;
      r := Some(p);
    }

    /** `unchoked_peers_count`. */
    function UnchokedPeersCount(swarm: SwarmView): (n: nat)
      reads this
      ensures n <= |peers|
      ensures Valid() ==> n == |set p | p in peers && swarm.unchoked(p)|
    {
      UnchokedCountBound(peers, swarm);
      UnchokedCount(peers, swarm);
      |UnchokedPeers(peers, swarm)|
    }

    /** `has_unchoked_peers`: true exactly when some connected peer is unchoked. */
    function HasUnchokedPeers(swarm: SwarmView): (b: bool)
      reads this
      ensures b <==> exists p :: p in peers && swarm.unchoked(p)
      ensures b <==> UnchokedPeersCount(swarm) > 0
    {
      AnyUnchokedIffCount(peers, swarm);
      AnyUnchoked(peers, swarm)
    }

    /**
     * `add_request_to_queue`: the request goes at the end of the peer's queue
     * (created empty if absent) and the table records the peer for the block.
     */
    method AddRequestToQueue(peer: Peer, piece: nat, offset: nat, length: nat)
      modifies this
      ensures requestQueues == Enqueue(old(requestQueues), peer, Request(piece, offset, length))
      ensures requested == old(requested)[(piece, offset) := peer]
      ensures peers == old(peers)
      ensures old(Attributed()) && peer in peers ==> Attributed()
    {
      if peer !in requestQueues {
        requestQueues := requestQueues[peer := []];
      }
      requestQueues := requestQueues[peer := requestQueues[peer] + [Request(piece, offset, length)]];
      requested := requested[(piece, offset) := peer];
    }

    /**
     * The block loop of `manage_requests` for one piece: each missing block
     * not yet in the table is queued for `peer`, recorded, and requested
     * from it (`sent`, in order).
     */
    method RequestMissingBlocks(piece: nat, peer: Peer, blocks: seq<(nat, nat)>)
      returns (sent: seq<(Peer, Request)>)
      modifies this
      ensures peers == old(peers)
      ensures requested == Record(old(requested), sent)
      ensures requestQueues == EnqueueAll(old(requestQueues), sent)
      ensures FreshRequests(old(requested), sent)
      ensures forall j :: 0 <= j < |sent| ==>
        sent[j].0 == peer && sent[j].1.piece == piece && (sent[j].1.offset, sent[j].1.length) in blocks
      ensures forall j :: 0 <= j < |blocks| ==>
        (piece, blocks[j].0) in old(requested) || (piece, blocks[j].0) in SentKeys(sent)
    {
      sent := [];
      var j := 0;
      while j < |blocks|
        invariant 0 <= j <= |blocks|
        invariant peers == old(peers)
        invariant requested == Record(old(requested), sent)
        invariant requestQueues == EnqueueAll(old(requestQueues), sent)
        invariant FreshRequests(old(requested), sent)
        invariant forall m :: 0 <= m < |sent| ==>
          sent[m].0 == peer && sent[m].1.piece == piece && (sent[m].1.offset, sent[m].1.length) in blocks
        invariant forall b :: 0 <= b < j ==>
          (piece, blocks[b].0) in old(requested) || (piece, blocks[b].0) in SentKeys(sent)
      {
        var offset, length := blocks[j].0, blocks[j].1;
        if (piece, offset) !in requested {
          var r := Request(piece, offset, length);
          AddRequestToQueue(peer, piece, offset, length);
          FreshStep(old(requested), sent, (peer, r));
          assert SentKeys(sent + [(peer, r)]) == SentKeys(sent) + [(piece, offset)];
          sent := sent + [(peer, r)];
        } else {
          assert (piece, offset) in old(requested) || (piece, offset) in SentKeys(sent) by {
            RecordFacts(old(requested), sent);
          }
        }
        j := j + 1;
      }
    }

    /**
     * `manage_requests`: for each piece not downloaded that some connected
     * peer has, one such peer is chosen (`chosen`) and every missing block of
     * the piece not already in the table is queued for it, recorded and
     * requested (`sent`, in order).
     */
    method ManageRequests(pieces: PiecesView, swarm: SwarmView)
      returns (chosen: map<nat, Peer>, sent: seq<(Peer, Request)>)
      modifies this
      ensures peers == old(peers)
      ensures forall i: nat :: i in chosen <==>
        i < pieces.count && !pieces.downloaded(i) && exists p :: p in peers && swarm.has(p, i)
      ensures forall i :: i in chosen ==> chosen[i] in peers && swarm.has(chosen[i], i)
      // no table entry is ever overwritten or dropped
      ensures KeepsEntries(old(requested), requested)
      // every missing block of a chosen piece ends up in the table
      ensures forall i, b :: i in chosen && 0 <= b < |pieces.missing(i)| ==> (i, pieces.missing(i)[b].0) in requested
      // the new entries of a piece all name the one peer chosen for it
      ensures forall k :: k in requested && k !in old(requested) ==>
        k.0 in chosen && requested[k] == chosen[k.0] && k in SentKeys(sent)
      // what was sent: one request per new table entry, each to the peer chosen for its piece
      ensures FreshRequests(old(requested), sent)
      ensures forall j :: 0 <= j < |sent| ==>
        && sent[j].1.piece in chosen && sent[j].0 == chosen[sent[j].1.piece]
        && (sent[j].1.offset, sent[j].1.length) in pieces.missing(sent[j].1.piece)
      ensures requested == Record(old(requested), sent)
      ensures requestQueues == EnqueueAll(old(requestQueues), sent)
      // every table entry still names a connected peer
      ensures old(Attributed()) ==> Attributed()
    {
      chosen := map[];
      sent := [];
      var i := 0;
      while i < pieces.count
        invariant 0 <= i <= pieces.count
        invariant peers == old(peers)
        invariant ChosenBefore(chosen, i, pieces, swarm, peers)
        invariant requested == Record(old(requested), sent)
        invariant requestQueues == EnqueueAll(old(requestQueues), sent)
        invariant FreshRequests(old(requested), sent)
        invariant SentToChosen(sent, chosen, pieces)
        invariant Covered(chosen, pieces, old(requested), sent)
      {
        if !pieces.downloaded(i) {
          var peer := GetRandomPeerHavingPiece(swarm, i);
          if peer.Some? {
            ghost var sentBefore := sent;
            ghost var chosenBefore := chosen;
            RecordFacts(old(requested), sentBefore);
            var here := RequestMissingBlocks(i, peer.value, pieces.missing(i));
            chosen := chosen[i := peer.value];
            sent := sent + here;
            EnqueueAllAppend(old(requestQueues), sentBefore, here);
            RecordAppend(old(requested), sentBefore, here);
            FreshAppend(old(requested), sentBefore, here);
            PieceStep(chosenBefore, pieces, old(requested), sentBefore, here, i, peer.value);
          }
        }
        i := i + 1;
      }
      AssignmentOutcome(chosen, pieces, old(requested), sent);
    }

    /** `get_peer_by_socket`: the first connected peer on that socket; `None` where the source raises. */
    method GetPeerBySocket(socket: nat) returns (r: Option<Peer>)
      ensures r.None? <==> forall p :: p in peers ==> p.socket != socket
      ensures r.Some? ==>
        exists i :: 0 <= i < |peers| && peers[i] == r.value && r.value.socket == socket
          && forall j :: 0 <= j < i ==> peers[j].socket != socket
    {
      var i := 0;
      while i < |peers|
        invariant 0 <= i <= |peers|
        invariant forall j :: 0 <= j < i ==> peers[j].socket != socket
      {
        if peers[i].socket == socket {
          return Some(peers[i]);
        }
        i := i + 1;
      }
      r := None;
    }

    /**
     * `remove_peer`: a connected peer leaves `peers` and every table entry
     * naming it is dropped, all others kept; its request queue is left as it
     * was. An unknown peer changes nothing.
     */
    method RemovePeer(peer: Peer)
      requires Valid()
      modifies this
      ensures Valid()
      ensures peer !in old(peers) ==>
        peers == old(peers) && requested == old(requested)
      ensures peer in old(peers) ==>
        && peers == RemoveFirst(old(peers), peer)
        && peer !in peers
        && (forall k :: k in requested <==> k in old(requested) && old(requested)[k] != peer)
        && (forall k :: k in requested ==> requested[k] == old(requested)[k])
      ensures requestQueues == old(requestQueues)
      ensures old(Attributed()) ==> Attributed()
    {
      if peer in peers {
        RemoveFirstNoDup(peers, peer);
        peers := RemoveFirst(peers, peer);
        requested := map k | k in requested && requested[k] != peer :: requested[k];
      }
    }
  }

  lemma UnchokedCountBound(peers: seq<Peer>, swarm: SwarmView)
    ensures |UnchokedPeers(peers, swarm)| <= |peers|
  {
  }
}
