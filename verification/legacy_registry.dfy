/**
 * The registry of the line-oriented client/server variant (server.py and
 * tracker_server.py share it line for line): the module-global
 * `client_list : username -> (client_port, client_ip, client_server_port)`
 * and `file_list : file name -> [owner tuples]`, both insertion-ordered
 * Python dicts, and the operations the two servers have in common.
 */
module LegacyRegistry {
  import opened Common
  import opened Text
  import opened PyDict

  /** `client_list[username]`. */
  datatype ClientInfo = ClientInfo(port: int, ip: string, serverPort: int)

  /**
   * One tuple of `file_list[file]`: the owner's name, IP and listen port;
   * tracker_server.py appends the size text as a fourth field, server.py
   * appends 3-tuples (`size == None`).
   */
  datatype Owner = Owner(username: string, ip: string, serverPort: int, size: Option<string>)

  /** The owners of a list other than `u`, in order: `[c for c in lst if c[0] != u]`. */
  function OwnersWithout(owners: seq<Owner>, u: string): (r: seq<Owner>)
    ensures forall i :: 0 <= i < |r| ==> r[i].username != u && r[i] in owners
    ensures forall i :: 0 <= i < |owners| && owners[i].username != u ==> owners[i] in r
  {
    if owners == [] then []
    else
      var last := owners[|owners| - 1];
      OwnersWithout(owners[..|owners| - 1], u) + (if last.username == u then [] else [last])
  }

  /** Filtering a concatenation filters each part, keeping their order. */
  lemma {:induction false} OwnersWithoutAppend(a: seq<Owner>, b: seq<Owner>, u: string)
    ensures OwnersWithout(a + b, u) == OwnersWithout(a, u) + OwnersWithout(b, u)
  {
    if b != [] {
      var init := b[..|b| - 1];
      var last := b[|b| - 1];
      var tail := if last.username == u then [] else [last];
      assert (a + b)[..|a + b| - 1] == a + init;
      assert (a + b)[|a + b| - 1] == last;
      assert OwnersWithout(a + b, u) == OwnersWithout(a + init, u) + tail;
      OwnersWithoutAppend(a, init, u);
      assert OwnersWithout(b, u) == OwnersWithout(init, u) + tail;
      assert OwnersWithout(a, u) + OwnersWithout(init, u) + tail == OwnersWithout(a, u) + (OwnersWithout(init, u) + tail);
    } else {
      assert a + b == a;
    }
  }

  /** Each owner is kept as many times as it occurs, unless it is `u`'s, which are all gone. */
  lemma {:induction false} OwnersWithoutCounts(owners: seq<Owner>, u: string)
    ensures forall o :: multiset(OwnersWithout(owners, u))[o] == if o.username == u then 0 else multiset(owners)[o]
  {
    if owners != [] {
      var init := owners[..|owners| - 1];
      var last := owners[|owners| - 1];
      assert owners == init + [last];
      OwnersWithoutCounts(init, u);
    }
  }

  /** The files among `ks`, in order, that still have an owner once `u` is filtered out. */
  function KeepNonEmpty(ks: seq<string>, entries: map<string, seq<Owner>>, u: string): seq<string>
    requires forall k :: k in ks ==> k in entries
  {
    if ks == [] then []
    else
      var last := ks[|ks| - 1];
      KeepNonEmpty(ks[..|ks| - 1], entries, u)
        + (if OwnersWithout(entries[last], u) == [] then [] else [last])
  }

  /** The files kept are exactly those with an owner left, and none twice. */
  lemma {:induction false} KeepNonEmptyKeeps(ks: seq<string>, entries: map<string, seq<Owner>>, u: string)
    requires forall k :: k in ks ==> k in entries
    ensures forall k :: k in KeepNonEmpty(ks, entries, u) ==> k in ks && OwnersWithout(entries[k], u) != []
    ensures forall k :: k in ks && OwnersWithout(entries[k], u) != [] ==> k in KeepNonEmpty(ks, entries, u)
    ensures NoDup(ks) ==> NoDup(KeepNonEmpty(ks, entries, u))
  {
    if ks != [] {
      var init := ks[..|ks| - 1];
      var last := ks[|ks| - 1];
      assert ks == init + [last];
      KeepNonEmptyKeeps(init, entries, u);
      if NoDup(ks) {
        NoDupAt(ks, |ks| - 1);
        assert NoDup(init) by {
          forall a, b | 0 <= a < b < |init| ensures init[a] != init[b] {
            assert init[a] == ks[a] && init[b] == ks[b];
          }
        }
        if OwnersWithout(entries[last], u) != [] {
          NoDupConcat(KeepNonEmpty(init, entries, u), [last]);
        }
      }
    }
  }

  /**
   * `file_list` after `remove_client(u)`: every tuple owned by `u` filtered
   * out, files left without owners dropped, the rest in their old order.
   */
  ghost function Purge(d: Dict<seq<Owner>>, u: string): (r: Dict<seq<Owner>>)
    requires d.Valid()
  {
    Dict(KeepNonEmpty(d.keys, d.entries, u),
         map k | k in d.entries && OwnersWithout(d.entries[k], u) != [] :: OwnersWithout(d.entries[k], u))
  }

  /** File `k` is not yet visited after the first `i` turns of the loop in `remove_client`. */
  predicate Pending(ks: seq<string>, i: nat, k: string)
    requires i <= |ks|
  {
    k in ks[i..]
  }

  /** The state of `file_list` after the first `i` files of the loop in `remove_client`. */
  ghost function PartialPurge(d: Dict<seq<Owner>>, u: string, i: nat): Dict<seq<Owner>>
    requires d.Valid() && i <= |d.keys|
  {
    Dict(PartialKeys(d.keys, d.entries, u, i), PartialEntries(d.keys, d.entries, u, i))
  }

  /** The key order after the first `i` turns: the kept visited files, then the unvisited ones. */
  function PartialKeys(ks: seq<string>, entries: map<string, seq<Owner>>, u: string, i: nat): seq<string>
    requires forall k :: k in ks ==> k in entries
    requires i <= |ks|
  {
    KeepNonEmpty(ks[..i], entries, u) + ks[i..]
  }

  ghost function PartialEntries(ks: seq<string>, entries: map<string, seq<Owner>>, u: string, i: nat)
    : map<string, seq<Owner>>
    requires i <= |ks|
  {
    map k | k in entries && (Pending(ks, i, k) || OwnersWithout(entries[k], u) != [])
          :: if Pending(ks, i, k) then entries[k] else OwnersWithout(entries[k], u)
  }

  lemma PartialPurgeValid(d: Dict<seq<Owner>>, u: string, i: nat)
    requires d.Valid() && i <= |d.keys|
    ensures PartialPurge(d, u, i).Valid()
  {
    var ks := d.keys;
    var front := KeepNonEmpty(ks[..i], d.entries, u);
    var p := PartialPurge(d, u, i);
    assert ks == ks[..i] + ks[i..];
    KeepNonEmptyKeeps(ks[..i], d.entries, u);
    NoDupSplit(ks, i);
    NoDupConcat(front, ks[i..]);
    forall k ensures k in p.entries <==> k in p.keys {
      if k in ks && !Pending(ks, i, k) {
        assert k in ks[..i];
      }
    }
  }

  lemma PurgeStart(d: Dict<seq<Owner>>, u: string)
    requires d.Valid()
    ensures PartialPurge(d, u, 0) == d
  {
    assert d.keys[..0] == [];
    assert d.keys[0..] == d.keys;
    assert KeepNonEmpty(d.keys[..0], d.entries, u) == [];
    forall k | k in d.entries
      ensures Pending(d.keys, 0, k)
    {
    }
    assert PartialEntries(d.keys, d.entries, u, 0) == d.entries;
  }

  lemma PurgeEnd(d: Dict<seq<Owner>>, u: string)
    requires d.Valid()
    ensures PartialPurge(d, u, |d.keys|) == Purge(d, u)
  {
    assert d.keys[..|d.keys|] == d.keys;
    assert d.keys[|d.keys|..] == [];
  }

  lemma PurgeStepKeys(ks: seq<string>, entries: map<string, seq<Owner>>, u: string, i: nat)
    requires NoDup(ks) && (forall k :: k in ks ==> k in entries) && i < |ks|
    ensures
      var f := ks[i];
      var before := PartialKeys(ks, entries, u, i);
      PartialKeys(ks, entries, u, i + 1)
        == if OwnersWithout(entries[f], u) == [] then Without(before, f) else before
  {
    var f := ks[i];
    var front := KeepNonEmpty(ks[..i], entries, u);
    var back := ks[i + 1..];
    assert PartialKeys(ks, entries, u, i) == front + ([f] + back) by {
      assert ks[i..] == [f] + back;
    }
    assert PartialKeys(ks, entries, u, i + 1) == KeepNonEmpty(ks[..i + 1], entries, u) + back;
    if OwnersWithout(entries[f], u) == [] {
      assert KeepNonEmpty(ks[..i + 1], entries, u) == front by {
        KeepNonEmptyStep(ks, entries, u, i);
      }
      assert Without(front + ([f] + back), f) == front + back by {
        NoDupAt(ks, i);
        KeepNonEmptyKeeps(ks[..i], entries, u);
        WithoutMiddle(front, f, back);
      }
    } else {
      assert KeepNonEmpty(ks[..i + 1], entries, u) == front + [f] by {
        KeepNonEmptyStep(ks, entries, u, i);
      }
      assert (front + [f]) + back == front + ([f] + back);
    }
  }

  /** Visiting one more file keeps it exactly when it still has an owner. */
  lemma KeepNonEmptyStep(ks: seq<string>, entries: map<string, seq<Owner>>, u: string, i: nat)
    requires forall k :: k in ks ==> k in entries
    requires i < |ks|
    ensures KeepNonEmpty(ks[..i + 1], entries, u)
      == KeepNonEmpty(ks[..i], entries, u) + (if OwnersWithout(entries[ks[i]], u) == [] then [] else [ks[i]])
  {
    assert ks[..i + 1][..i] == ks[..i];
  }

  /** The positions of a file's owner list that hold a tuple of `u`. */
  function TuplesOf(owners: seq<Owner>, u: string): set<nat>
  {
    set i: nat | i < |owners| && owners[i].username == u
  }

  /** Each tuple of `u` in the list gives one pair, and every pair names the file. */
  lemma {:induction false} OwnedPairsCount(f: string, owners: seq<Owner>, u: string)
    ensures |OwnedPairs(f, owners, u)| == |TuplesOf(owners, u)|
    ensures forall j :: 0 <= j < |OwnedPairs(f, owners, u)| ==> OwnedPairs(f, owners, u)[j].0 == f
  {
    if owners != [] {
      var n := |owners| - 1;
      var init := owners[..n];
      OwnedPairsCount(f, init, u);
      assert TuplesOf(owners, u) == TuplesOf(init, u) + (if owners[n].username == u then {n} else {});
      assert n !in TuplesOf(init, u);
    }
  }

  /** A sequence of copies of one name counts that name once per copy and no other. */
  lemma {:induction false} NamesOfOneFile(pairs: seq<(string, Owner)>, f: string)
    requires forall j :: 0 <= j < |pairs| ==> pairs[j].0 == f
    ensures forall g :: multiset(Names(pairs))[g] == if g == f then |pairs| else 0
  {
    if pairs != [] {
      var init := pairs[..|pairs| - 1];
      NamesOfOneFile(init, f);
      assert Names(pairs) == Names(init) + [f];
    }
  }

  /**
   * Completeness of `discover u`: over distinct file names, a file is
   * listed exactly once per tuple of `u` in its owner list, and a file not
   * among them is never listed.
   */
  lemma {:induction false} OwnedByCounts(ks: seq<string>, entries: map<string, seq<Owner>>, u: string, f: string)
    requires forall k :: k in ks ==> k in entries
    requires NoDup(ks)
    ensures multiset(Names(OwnedBy(ks, entries, u)))[f] == if f in ks then |TuplesOf(entries[f], u)| else 0
  {
    if ks != [] {
      var init := ks[..|ks| - 1];
      var last := ks[|ks| - 1];
      assert ks == init + [last];
      NoDupAt(ks, |ks| - 1);
      assert NoDup(init) by {
        forall a, b | 0 <= a < b < |init| ensures init[a] != init[b] {
          assert init[a] == ks[a] && init[b] == ks[b];
        }
      }
      OwnedByCounts(init, entries, u, f);
      OwnedPairsCount(last, entries[last], u);
      NamesOfOneFile(OwnedPairs(last, entries[last], u), last);
      NamesAppend(OwnedBy(init, entries, u), OwnedPairs(last, entries[last], u));
    }
  }

  /** Removing a value that occurs only between two parts leaves the two parts. */
  lemma WithoutMiddle(a: seq<string>, x: string, b: seq<string>)
    requires x !in a && x !in b
    ensures Without(a + ([x] + b), x) == a + b
  {
    assert Without([x] + b, x) == b by {
      WithoutAppend([x], b, x);
      WithoutAbsent(b, x);
      assert [x][..0] == [];
    }
    assert Without(a, x) == a by {
      WithoutAbsent(a, x);
    }
    WithoutAppend(a, [x] + b, x);
  }

  /** The file visited in turn `i` is pending before it and only it stops being pending. */
  lemma PendingStep(ks: seq<string>, i: nat)
    requires NoDup(ks) && i < |ks|
    ensures Pending(ks, i, ks[i]) && !Pending(ks, i + 1, ks[i])
    ensures forall k :: k != ks[i] ==> Pending(ks, i, k) == Pending(ks, i + 1, k)
  {
    assert ks[i..] == [ks[i]] + ks[i + 1..];
    NoDupSplit(ks, i + 1);
    assert ks[..i + 1][i] == ks[i];
  }

  lemma PurgeStepEntries(ks: seq<string>, entries: map<string, seq<Owner>>, u: string, i: nat)
    requires NoDup(ks) && i < |ks| && ks[i] in entries
    ensures
      var f := ks[i];
      var kept := OwnersWithout(entries[f], u);
      var before := PartialEntries(ks, entries, u, i);
      && f in before && before[f] == entries[f]
      && PartialEntries(ks, entries, u, i + 1)
           == if kept == [] then before[f := kept] - {f} else before[f := kept]
  {
    var f := ks[i];
    var kept := OwnersWithout(entries[f], u);
    var before := PartialEntries(ks, entries, u, i);
    assert f in before && before[f] == entries[f] by {
      PendingStep(ks, i);
    }
    if kept == [] {
      PurgeStepDrops(ks, entries, u, i);
      assert before[f := kept] - {f} == before - {f};
    } else {
      PurgeStepKeeps(ks, entries, u, i);
    }
  }

  lemma PurgeStepDrops(ks: seq<string>, entries: map<string, seq<Owner>>, u: string, i: nat)
    requires NoDup(ks) && i < |ks| && ks[i] in entries
    requires OwnersWithout(entries[ks[i]], u) == []
    ensures PartialEntries(ks, entries, u, i + 1) == PartialEntries(ks, entries, u, i) - {ks[i]}
  {
    var before := PartialEntries(ks, entries, u, i);
    var after := PartialEntries(ks, entries, u, i + 1);
    var target := before - {ks[i]};
    forall k
      ensures k in after <==> k in target
      ensures k in after ==> after[k] == target[k]
    {
      PurgeStepEntriesAt(ks, entries, u, i, k);
    }
    assert after == target;
  }

  lemma PurgeStepKeeps(ks: seq<string>, entries: map<string, seq<Owner>>, u: string, i: nat)
    requires NoDup(ks) && i < |ks| && ks[i] in entries
    requires OwnersWithout(entries[ks[i]], u) != []
    ensures PartialEntries(ks, entries, u, i + 1)
      == PartialEntries(ks, entries, u, i)[ks[i] := OwnersWithout(entries[ks[i]], u)]
  {
    var before := PartialEntries(ks, entries, u, i);
    var after := PartialEntries(ks, entries, u, i + 1);
    var target := before[ks[i] := OwnersWithout(entries[ks[i]], u)];
    forall k
      ensures k in after <==> k in target
      ensures k in after ==> after[k] == target[k]
    {
      PurgeStepEntriesAt(ks, entries, u, i, k);
    }
    assert after == target;
  }

  /** The one-key view of a turn: file `ks[i]` gets its filtered list or goes, the others keep theirs. */
  lemma PurgeStepEntriesAt(ks: seq<string>, entries: map<string, seq<Owner>>, u: string, i: nat, k: string)
    requires NoDup(ks) && i < |ks| && ks[i] in entries
    ensures
      var f := ks[i];
      var kept := OwnersWithout(entries[f], u);
      var before := PartialEntries(ks, entries, u, i);
      var after := PartialEntries(ks, entries, u, i + 1);
      && (k in after <==> if k == f then kept != [] else k in before)
      && (k in after ==> after[k] == if k == f then kept else before[k])
  {
    PendingStep(ks, i);
  }

  /** One turn of the loop in `remove_client`: reassign the filtered list, pop the file if it is now empty. */
  lemma PurgeStep(d: Dict<seq<Owner>>, u: string, i: nat)
    requires d.Valid() && i < |d.keys|
    ensures
      var f := d.keys[i];
      var kept := OwnersWithout(d.entries[f], u);
      var p := PartialPurge(d, u, i).Set(f, kept);
      PartialPurge(d, u, i + 1) == if kept == [] then p.Pop(f) else p
  {
    PurgeStepKeys(d.keys, d.entries, u, i);
    PurgeStepEntries(d.keys, d.entries, u, i);
  }

  /** `[(f, c) for f, lst in file_list.items() for c in lst if c[0] == u]`: what `u` owns, file by file. */
  function OwnedPairs(f: string, owners: seq<Owner>, u: string): seq<(string, Owner)>
  {
    if owners == [] then []
    else
      var last := owners[|owners| - 1];
      OwnedPairs(f, owners[..|owners| - 1], u) + (if last.username == u then [(f, last)] else [])
  }

  function OwnedBy(ks: seq<string>, entries: map<string, seq<Owner>>, u: string): seq<(string, Owner)>
    requires forall k :: k in ks ==> k in entries
  {
    if ks == [] then []
    else
      var last := ks[|ks| - 1];
      OwnedBy(ks[..|ks| - 1], entries, u) + OwnedPairs(last, entries[last], u)
  }

  /** Every pair in what `u` owns is a tuple of `u` in that file's list. */
  lemma {:induction false} OwnedByIsOwned(ks: seq<string>, entries: map<string, seq<Owner>>, u: string)
    requires forall k :: k in ks ==> k in entries
    ensures forall j :: 0 <= j < |OwnedBy(ks, entries, u)| ==>
      var pr := OwnedBy(ks, entries, u)[j];
      pr.1.username == u && pr.0 in ks && pr.1 in entries[pr.0]
  {
    if ks != [] {
      var last := ks[|ks| - 1];
      OwnedByIsOwned(ks[..|ks| - 1], entries, u);
      OwnedPairsAreOwned(last, entries[last], u);
    }
  }

  lemma {:induction false} OwnedPairsAreOwned(f: string, owners: seq<Owner>, u: string)
    ensures forall j :: 0 <= j < |OwnedPairs(f, owners, u)| ==>
      OwnedPairs(f, owners, u)[j].0 == f && OwnedPairs(f, owners, u)[j].1.username == u
      && OwnedPairs(f, owners, u)[j].1 in owners
  {
    if owners != [] {
      OwnedPairsAreOwned(f, owners[..|owners| - 1], u);
    }
  }

  /** The file names of a list of (file, owner) pairs. */
  function Names(pairs: seq<(string, Owner)>): (r: seq<string>)
    ensures |r| == |pairs|
    ensures forall j :: 0 <= j < |pairs| ==> r[j] == pairs[j].0
  {
    if pairs == [] then [] else Names(pairs[..|pairs| - 1]) + [pairs[|pairs| - 1].0]
  }
  lemma NamesAppend(a: seq<(string, Owner)>, b: seq<(string, Owner)>)
    ensures Names(a + b) == Names(a) + Names(b)
  {
  }

  /** One more owner of a file adds its pair when it belongs to `u`. */
  lemma OwnedPairsStep(f: string, owners: seq<Owner>, j: nat, u: string)
    requires j < |owners|
    ensures OwnedPairs(f, owners[..j + 1], u)
      == OwnedPairs(f, owners[..j], u) + (if owners[j].username == u then [(f, owners[j])] else [])
  {
    assert owners[..j + 1][..j] == owners[..j];
  }

  /** One more file adds the pairs `u` owns in it. */
  lemma OwnedByStep(ks: seq<string>, entries: map<string, seq<Owner>>, u: string, i: nat)
    requires forall k :: k in ks ==> k in entries
    requires i < |ks|
    ensures OwnedBy(ks[..i + 1], entries, u) == OwnedBy(ks[..i], entries, u) + OwnedPairs(ks[i], entries[ks[i]], u)
  {
    assert ks[..i + 1][..i] == ks[..i];
  }


  /** How a server's direct probe of a client ended (server.py:60-80). */
  datatype Probe = Replied(data: string) | SocketError | OtherError

  /**
   * What the accept loop of `main` did with one connection. Every outcome
   * but `Admitted` ends the accept loop: the exception leaves `main`, or
   * the inner loop never ends.
   */
  datatype Admission =
    | Admitted(username: string)
    /** The name was accepted but the port text was not an integer: `int()` raised. */
    | PortRejected(username: string)
    /** The name was accepted but the port message was not UTF-8: `decode` raised. */
    | PortUndecodable(username: string)
    /** A name message was not UTF-8: `decode` raised before any answer to it. */
    | NameUndecodable
    /** The connection closed (`recv` keeps returning "") while "" is a known name: the loop never ends. */
    | Spins

  /**
   * The j-th message the accept loop reads from a connection, decoded:
   * `None` when it is not UTF-8, "" once the connection has closed.
   */
  function ReadAt(received: seq<Option<string>>, j: nat): (m: Option<string>)
    ensures j >= |received| ==> m == Some("")
    ensures j < |received| ==> m == received[j]
  {
    if j < |received| then received[j] else Some("")
  }

  /** The inner loop of `handle_scrape`'s first pass: append file `f` for each tuple of an online owner. */
  method AppendOwned(online: map<string, seq<(string, Owner)>>, f: string, owners: seq<Owner>)
    returns (r: map<string, seq<(string, Owner)>>)
    ensures r.Keys == online.Keys
    ensures forall u :: u in r ==> r[u] == online[u] + OwnedPairs(f, owners, u)
  {
    r := online;
    var j := 0;
    while j < |owners|
      invariant 0 <= j <= |owners|
      invariant r.Keys == online.Keys
      invariant forall u :: u in r ==> r[u] == online[u] + OwnedPairs(f, owners[..j], u)
    {
      var c := owners[j];
      assert owners[..j + 1][..j] == owners[..j];
      if c.username in r {
        r := r[c.username := r[c.username] + [(f, c)]];
      }
      j := j + 1;
    }
    assert owners[..j] == owners;
  }

  /**
   * `file_list` after the append shared by publish, share and inform: a
   * known user's tuple at the end of the file's list, created if absent;
   * an unknown user changes nothing.
   */
  function WithOwner(clients: Dict<ClientInfo>, files: Dict<seq<Owner>>, fileName: string, username: string,
                     size: Option<string>): Dict<seq<Owner>>
  {
    if username in clients.entries then
      var info := clients.entries[username];
      var before := if fileName in files.entries then files.entries[fileName] else [];
      files.Set(fileName, before + [Owner(username, info.ip, info.serverPort, size)])
    else files
  }

  class Registry {
    var clients: Dict<ClientInfo>
    var files: Dict<seq<Owner>>

    ghost predicate Valid()
      reads this
    {
      clients.Valid() && files.Valid()
    }

    /** Both module-level dicts start empty. */
    constructor ()
      ensures Valid()
      ensures clients.entries == map[] && files.entries == map[]
    {
      clients := Empty();
      files := Empty();
    }

    /** `get_client_information`: `client_list.get(username)`. */
    function GetClientInformation(username: string): (r: Option<ClientInfo>)
      reads this
      ensures r.Some? <==> username in clients.entries
      ensures r.Some? ==> r.value == clients.entries[username]
    {
      clients.Get(username)
    }

    /**
     * `remove_client`: an unknown user changes nothing; a known user leaves
     * `client_list`, and `file_list` is purged of its tuples.
     */
    method RemoveClient(username: string) returns (found: bool)
      requires Valid()
      modifies this
      ensures Valid()
      ensures found == (username in old(clients.entries))
      ensures clients == old(clients).Pop(username)
      ensures files == if found then Purge(old(files), username) else old(files)
    {
      found := username in clients.entries;
      if !found {
        PopAbsent(clients, username);
        return;
      }
      clients := clients.Pop(username);
      files := PurgeFiles(files, username);
    }

    /**
     * The loop of `remove_client` over a snapshot of the file names: each
     * list is reassigned without `u`'s tuples and popped when left empty.
     */
    static method PurgeFiles(d: Dict<seq<Owner>>, u: string) returns (r: Dict<seq<Owner>>)
      requires d.Valid()
      ensures r == Purge(d, u) && r.Valid()
    {
      r := d;
      PurgeStart(d, u);
      var i := 0;
      while i < |d.keys|
        invariant 0 <= i <= |d.keys|
        invariant r == PartialPurge(d, u, i)
      {
        var f := d.keys[i];
        var kept := OwnersWithout(d.entries[f], u);
        PurgeStep(d, u, i);
        r := r.Set(f, kept);
        if kept == [] {
          r := r.Pop(f);
        }
        i := i + 1;
      }
      PurgeEnd(d, u);
      PartialPurgeValid(d, u, i);
    }

    /**
     * The append shared by publish, share and inform:
     * `file_list[f] = file_list.get(f, []) + [(username, ip, server_port[, size])]`
     * for a known user; an unknown user changes nothing.
     */
    method AddOwner(fileName: string, username: string, size: Option<string>) returns (known: bool)
      requires Valid()
      modifies this
      ensures Valid()
      ensures known == (username in clients.entries)
      ensures clients == old(clients)
      ensures !known ==> files == old(files)
      ensures known ==>
        var info := clients.entries[username];
        var before := if fileName in old(files.entries) then old(files.entries)[fileName] else [];
        files == old(files).Set(fileName, before + [Owner(username, info.ip, info.serverPort, size)])
    {
      var details := GetClientInformation(username);
      known := details.Some?;
      if !known {
        return;
      }
      var info := details.value;
      var before := if fileName in files.entries then files.entries[fileName] else [];
      files := files.Set(fileName, before + [Owner(username, info.ip, info.serverPort, size)]);
    }

    /**
     * The first loop of `handle_scrape`: for every client, in `client_list`
     * order, the (file, tuple) pairs it owns, gathered file by file in
     * `file_list` order (a file owned twice is listed twice).
     */
    method CollectOwned() returns (online: map<string, seq<(string, Owner)>>)
      requires Valid()
      ensures online.Keys == clients.entries.Keys
      ensures forall u :: u in online ==> online[u] == OwnedBy(files.keys, files.entries, u)
    {
      online := map u | u in clients.entries :: [];
      var i := 0;
      while i < |files.keys|
        invariant 0 <= i <= |files.keys|
        invariant online.Keys == clients.entries.Keys
        invariant forall u :: u in online ==> online[u] == OwnedBy(files.keys[..i], files.entries, u)
      {
        var f := files.keys[i];
        assert files.keys[..i + 1][..i] == files.keys[..i];
        online := AppendOwned(online, f, files.entries[f]);
        i := i + 1;
      }
      assert files.keys[..i] == files.keys;
    }

    /**
     * The `discover <host>` console query: the file names whose owner list
     * has a tuple for `host`, once per such tuple, in `file_list` order.
     */
    method Discover(host: string) returns (found: seq<string>)
      requires Valid()
      ensures found == Names(OwnedBy(files.keys, files.entries, host))
      ensures forall f :: multiset(found)[f] == if f in files.entries then |TuplesOf(files.entries[f], host)| else 0
    {
      var ks, es := files.keys, files.entries;
      assert forall k :: k in ks ==> k in es;
      found := [];
      var i := 0;
      while i < |ks|
        invariant 0 <= i <= |ks|
        invariant found == Names(OwnedBy(ks[..i], es, host))
      {
        var f := ks[i];
        var owners := es[f];
        var matches := FileMatches(f, owners, host);
        found := found + matches;
        OwnedByStep(ks, es, host, i);
        NamesAppend(OwnedBy(ks[..i], es, host), OwnedPairs(f, owners, host));
        i := i + 1;
      }
      assert ks[..i] == ks;
      forall f ensures multiset(found)[f] == if f in es then |TuplesOf(es[f], host)| else 0 {
        OwnedByCounts(ks, es, host, f);
      }
    }

    /** The inner loop of `discover`: the file's name once per tuple of `host` in its list. */
    static method FileMatches(f: string, owners: seq<Owner>, host: string) returns (found: seq<string>)
      ensures found == Names(OwnedPairs(f, owners, host))
      ensures |found| == |TuplesOf(owners, host)| && forall j :: 0 <= j < |found| ==> found[j] == f
    {
      found := [];
      var j := 0;
      while j < |owners|
        invariant 0 <= j <= |owners|
        invariant found == Names(OwnedPairs(f, owners[..j], host))
      {
        OwnedPairsStep(f, owners, j, host);
        NamesAppend(OwnedPairs(f, owners[..j], host), if owners[j].username == host then [(f, owners[j])] else []);
        if owners[j].username == host {
          found := found + [f];
        }
        j := j + 1;
      }
      assert owners[..j] == owners;
      OwnedPairsCount(f, owners, host);
    }

    /**
     * Username admission in `main`: `received` are the connection's
     * messages, read one at a time. Each decoded name already in
     * `client_list` is answered "Invalid" and the next message read; the
     * first free name is answered "Valid", and the message after it is
     * decoded and converted as the listen port stored with the
     * connection's port and IP.
     */
    method Admit(received: seq<Option<string>>, port: int, ip: string)
      returns (replies: seq<string>, outcome: Admission)
      requires Valid()
      modifies this
      ensures Valid()
      ensures files == old(files)
      ensures outcome.Spins? <==>
        && (forall j :: 0 <= j < |received| ==> received[j].Some? && received[j].value in old(clients.entries))
        && "" in old(clients.entries)
      ensures !outcome.Spins? ==>
        var taken := if outcome.NameUndecodable? then |replies| else |replies| - 1;
        && 0 <= taken
        && replies == seq(taken, _ => "Invalid") + (if outcome.NameUndecodable? then [] else ["Valid"])
        && (forall j :: 0 <= j < taken ==> ReadAt(received, j).Some? && ReadAt(received, j).value in old(clients.entries))
        && (outcome.NameUndecodable? <==> ReadAt(received, taken).None?)
        && (!outcome.NameUndecodable? ==>
              && ReadAt(received, taken) == Some(outcome.username)
              && outcome.username !in old(clients.entries)
              && (outcome.PortUndecodable? <==> ReadAt(received, taken + 1).None?)
              // a connection that closes after its free name sends "" as the port, which `int()` rejects
              && (taken + 1 >= |received| ==> outcome.PortRejected?)
              && (outcome.PortRejected? <==>
                    ReadAt(received, taken + 1).Some? && ParseInt(ReadAt(received, taken + 1).value).None?)
              && (outcome.Admitted? ==>
                    && ReadAt(received, taken + 1).Some? && ParseInt(ReadAt(received, taken + 1).value).Some?
                    && clients == old(clients).Set(outcome.username,
                         ClientInfo(port, ip, ParseInt(ReadAt(received, taken + 1).value).value))))
      ensures !outcome.Admitted? ==> clients == old(clients)
    {
      replies := [];
      var i := 0;
      while i < |received| && received[i].Some? && received[i].value in clients.entries
        invariant 0 <= i <= |received|
        invariant replies == seq(i, _ => "Invalid")
        invariant forall j :: 0 <= j < i ==> received[j].Some? && received[j].value in clients.entries
      {
        replies := replies + ["Invalid"];
        i := i + 1;
      }
      var name := ReadAt(received, i);
      if name.None? {
        outcome := NameUndecodable;
        return;
      }
      var username := name.value;
      if username in clients.entries {
        outcome := Spins;
        return;
      }
      replies := replies + ["Valid"];
      assert |replies| - 1 == i;
      var portText := ReadAt(received, i + 1);
      assert i + 1 >= |received| ==> portText == Some("") && ParseInt("").None?;
      if portText.None? {
        outcome := PortUndecodable(username);
        return;
      }
      var serverPort := ParseInt(portText.value);
      if serverPort.None? {
        outcome := PortRejected(username);
        return;
      }
      clients := clients.Set(username, ClientInfo(port, ip, serverPort.value));
      outcome := Admitted(username);
    }

    /**
     * The removal decision of `ping_client`: nothing happens when no client
     * is connected or the host is unknown; otherwise the client is removed
     * when the probe reads an empty reply or fails with a socket error.
     */
    method PingClient(hostname: string, probe: Probe) returns (removed: bool)
      requires Valid()
      modifies this
      ensures Valid()
      ensures removed <==>
        && old(clients.entries) != map[]
        && hostname in old(clients.entries)
        && (probe == Replied("") || probe == SocketError)
      ensures removed ==> clients == old(clients).Pop(hostname) && files == Purge(old(files), hostname)
      ensures !removed ==> clients == old(clients) && files == old(files)
    {
      removed := false;
      if clients.entries == map[] {
        return;
      }
      var info := GetClientInformation(hostname);
      if info.None? {
        return;
      }
      match probe
      case Replied(data) =>
        if data == "" {
          removed := RemoveClient(hostname);
        }
      case SocketError =>
        removed := RemoveClient(hostname);
      case OtherError =>
    }
  }

  /** `handle_fetch_file` / `handle_download_file`: "none" for an absent or empty list, else its encoding. */
  function FetchReply(files: Dict<seq<Owner>>, fileName: string, encode: seq<Owner> -> string): (r: string)
    ensures fileName !in files.entries || files.entries[fileName] == [] ==> r == "none"
    ensures fileName in files.entries && files.entries[fileName] != [] ==> r == encode(files.entries[fileName])
  {
    match files.Get(fileName)
    case None => "none"
    case Some(owners) => if owners == [] then "none" else encode(owners)
  }

  /**
   * After a known user's append, a fetch of that file answers with the
   * earlier owners of the file, in their order, followed by the new tuple.
   */
  lemma AddThenFetch(before: Dict<seq<Owner>>, after: Dict<seq<Owner>>, fileName: string, o: Owner,
                     encode: seq<Owner> -> string)
    requires before.Valid()
    requires after == before.Set(fileName, (if fileName in before.entries then before.entries[fileName] else []) + [o])
    ensures exists owners :: FetchReply(after, fileName, encode) == encode(owners + [o])
    ensures FetchReply(after, fileName, encode)
      == encode((if fileName in before.entries then before.entries[fileName] else []) + [o])
  {
    var owners := if fileName in before.entries then before.entries[fileName] else [];
    assert FetchReply(after, fileName, encode) == encode(owners + [o]);
  }

  /** After `remove_client(u)`, no file list holds a tuple of `u` and no list is left empty. */
  lemma PurgeRemovesOwner(d: Dict<seq<Owner>>, u: string)
    requires d.Valid()
    ensures Purge(d, u).Valid()
    ensures forall f :: f in Purge(d, u).entries ==>
      Purge(d, u).entries[f] != [] && forall o :: o in Purge(d, u).entries[f] ==> o.username != u
    ensures forall f :: f in d.entries && (exists o :: o in d.entries[f] && o.username != u) ==>
      f in Purge(d, u).entries
  {
    PartialPurgeValid(d, u, |d.keys|);
    PurgeEnd(d, u);
    forall f | f in Purge(d, u).entries
      ensures forall o :: o in Purge(d, u).entries[f] ==> o.username != u
    {
      var r := Purge(d, u).entries[f];
      forall o | o in r ensures o.username != u {
        var j :| 0 <= j < |r| && r[j] == o;
      }
    }
    forall f | f in d.entries && (exists o :: o in d.entries[f] && o.username != u)
      ensures f in Purge(d, u).entries
    {
      var o :| o in d.entries[f] && o.username != u;
      var j :| 0 <= j < |d.entries[f]| && d.entries[f][j] == o;
      assert o in OwnersWithout(d.entries[f], u);
    }
  }
}
