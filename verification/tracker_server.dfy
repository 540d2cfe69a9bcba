/**
 * tracker_server.py: the tracker variant of the line-oriented server. It
 * shares the registry of server.py (module LegacyRegistry) but records the
 * size text with every owner tuple, takes three-word commands and reports
 * sizes in its scrape.
 */
module TrackerServer {
  import opened Common
  import opened Text
  import opened PyDict
  import opened LegacyRegistry

  /** Every owner tuple carries a size, as the 4-tuples `share` and `inform` append do. */
  predicate AllSized(files: Dict<seq<Owner>>)
  {
    forall f, o :: f in files.entries && o in files.entries[f] ==> o.size.Some?
  }

  /** `handle_share_file`: append the 4-tuple and answer "Success" for a known user; otherwise nothing. */
  method HandleShareFile(reg: Registry, fileName: string, username: string, size: string)
    returns (reply: Option<string>)
    requires reg.Valid()
    modifies reg
    ensures reg.Valid()
    ensures reply == (if username in old(reg.clients.entries) then Some("Success") else None)
    ensures reg.clients == old(reg.clients)
    ensures username !in old(reg.clients.entries) ==> reg.files == old(reg.files)
    ensures username in old(reg.clients.entries) ==>
      var info := old(reg.clients.entries)[username];
      reg.files == old(reg.files).Set(fileName,
        (if fileName in old(reg.files.entries) then old(reg.files.entries)[fileName] else [])
          + [Owner(username, info.ip, info.serverPort, Some(size))])
    ensures AllSized(old(reg.files)) ==> AllSized(reg.files)
  {
    var known := reg.AddOwner(fileName, username, Some(size));
    reply := if known then Some("Success") else None;
  }

  /** `handle_inform`: the same append as a share, with no reply. */
  method HandleInform(reg: Registry, fileName: string, username: string, size: string)
    requires reg.Valid()
    modifies reg
    ensures reg.Valid()
    ensures reg.clients == old(reg.clients)
    ensures username !in old(reg.clients.entries) ==> reg.files == old(reg.files)
    ensures username in old(reg.clients.entries) ==>
      var info := old(reg.clients.entries)[username];
      reg.files == old(reg.files).Set(fileName,
        (if fileName in old(reg.files.entries) then old(reg.files.entries)[fileName] else [])
          + [Owner(username, info.ip, info.serverPort, Some(size))])
    ensures AllSized(old(reg.files)) ==> AllSized(reg.files)
  {
    var _ := reg.AddOwner(fileName, username, Some(size));
  }

  /** Removing a client keeps every remaining tuple sized. */
  lemma PurgeKeepsSized(d: Dict<seq<Owner>>, u: string)
    requires d.Valid() && AllSized(d)
    ensures AllSized(Purge(d, u))
  {
    forall f, o | f in Purge(d, u).entries && o in Purge(d, u).entries[f]
      ensures o.size.Some?
    {
      var r := Purge(d, u).entries[f];
      var j :| 0 <= j < |r| && r[j] == o;
      assert o in d.entries[f];
    }
  }

  /** `f"{file_name} ({float(file_size):.2f} KB)"`; `fmt` stands for the float formatting, `None` where `float()` raises. */
  function EntryText(pr: (string, Owner), fmt: string -> Option<string>): Option<string>
  {
    match pr.1.size
    case None => None
    case Some(s) =>
      match fmt(s)
      case None => None
      case Some(t) => Some(pr.0 + " (" + t + " KB)")
  }

  /** The list comprehension over one client's files: `None` as soon as one entry cannot be formatted. */
  function EntriesText(pairs: seq<(string, Owner)>, fmt: string -> Option<string>): (r: Option<seq<string>>)
    ensures r.Some? <==> forall j :: 0 <= j < |pairs| ==> EntryText(pairs[j], fmt).Some?
    ensures r.Some? ==>
      && |r.value| == |pairs|
      && forall j :: 0 <= j < |pairs| ==> r.value[j] == EntryText(pairs[j], fmt).value
  {
    if pairs == [] then Some([])
    else
      match EntriesText(pairs[..|pairs| - 1], fmt)
      case None => None
      case Some(front) =>
        match EntryText(pairs[|pairs| - 1], fmt)
        case None => None
        case Some(t) => Some(front + [t])
  }

  /** `f"[{username}]: {files_str}\n"`, or `None` when `files_str` cannot be built. */
  function ClientLine(u: string, pairs: seq<(string, Owner)>, fmt: string -> Option<string>): Option<string>
  {
    if pairs == [] then Some("[" + u + "]: No files\n")
    else
      match EntriesText(pairs, fmt)
      case None => None
      case Some(ts) => Some("[" + u + "]: " + Join(ts, ", ") + "\n")
  }

  /** The line of the report for client `u`. */
  ghost function ScrapeLine(u: string, files: Dict<seq<Owner>>, fmt: string -> Option<string>): Option<string>
    requires files.Valid()
  {
    ClientLine(u, OwnedBy(files.keys, files.entries, u), fmt)
  }

  /** The per-client lines, in order; `None` when some line cannot be built. */
  ghost function ScrapeLines(users: seq<string>, files: Dict<seq<Owner>>, fmt: string -> Option<string>)
    : Option<string>
    requires files.Valid()
  {
    if users == [] then Some("")
    else
      match ScrapeLines(users[..|users| - 1], files, fmt)
      case None => None
      case Some(front) =>
        match ScrapeLine(users[|users| - 1], files, fmt)
        case None => None
        case Some(line) => Some(front + line)
  }

  function ScrapeHeader(online: nat): string
  {
    "Number of peers online: " + NatToString(online) + "\nOnline peers with their files:\n"
  }

  /**
   * The report `handle_scrape` sends: a count of the clients, then one
   * `[name]: files` line per client in `client_list` order. `None` means
   * the handler raised and nothing was sent: some tuple has no size field
   * (the first pass reads `client[3]` of every tuple) or some size of an
   * online client is not a number.
   */
  ghost function ScrapeText(clients: Dict<ClientInfo>, files: Dict<seq<Owner>>, fmt: string -> Option<string>)
    : Option<string>
    requires files.Valid()
  {
    if !AllSized(files) then None
    else
      match ScrapeLines(clients.keys, files, fmt)
      case None => None
      case Some(lines) => Some(ScrapeHeader(|clients.keys|) + lines)
  }

  lemma ScrapeLinesStep(users: seq<string>, files: Dict<seq<Owner>>, fmt: string -> Option<string>, i: nat)
    requires files.Valid() && i < |users|
    ensures ScrapeLines(users[..i + 1], files, fmt) ==
      match ScrapeLines(users[..i], files, fmt)
      case None => None
      case Some(front) =>
        match ScrapeLine(users[i], files, fmt)
        case None => None
        case Some(line) => Some(front + line)
  {
    assert users[..i + 1][..i] == users[..i];
  }

  /** Once a prefix of the clients fails, the whole report fails. */
  lemma {:induction false} ScrapeLinesFailure(users: seq<string>, files: Dict<seq<Owner>>,
                                              fmt: string -> Option<string>, i: nat)
    requires files.Valid() && i <= |users|
    requires ScrapeLines(users[..i], files, fmt).None?
    ensures ScrapeLines(users, files, fmt).None?
    decreases |users| - i
  {
    if i < |users| {
      ScrapeLinesStep(users, files, fmt, i);
      ScrapeLinesFailure(users, files, fmt, i + 1);
    } else {
      assert users[..i] == users;
    }
  }

  /**
   * The second pass of `handle_scrape`: one line per user from the pairs the
   * first pass gathered; `None` as soon as a line cannot be built.
   */
  method BuildLines(users: seq<string>, online: map<string, seq<(string, Owner)>>,
                    files: Dict<seq<Owner>>, fmt: string -> Option<string>)
    returns (lines: Option<string>)
    requires files.Valid()
    requires forall u :: u in users ==> u in online && online[u] == OwnedBy(files.keys, files.entries, u)
    ensures lines == ScrapeLines(users, files, fmt)
  {
    var text := "";
    var i := 0;
    while i < |users|
      invariant 0 <= i <= |users|
      invariant ScrapeLines(users[..i], files, fmt) == Some(text)
    {
      var line := ClientLine(users[i], online[users[i]], fmt);
      ScrapeLinesStep(users, files, fmt, i);
      if line.None? {
        ScrapeLinesFailure(users, files, fmt, i + 1);
        return None;
      }
      text := text + line.value;
      i := i + 1;
    }
    assert users[..i] == users;
    lines := Some(text);
  }

  /** `handle_scrape`: the reply sent, or `None` when it raised. */
  method HandleScrape(reg: Registry, fmt: string -> Option<string>) returns (reply: Option<string>)
    requires reg.Valid()
    ensures reply == ScrapeText(reg.clients, reg.files, fmt)
  {
    if !AllSized(reg.files) {
      return None;
    }
    var online := reg.CollectOwned();
    assert |online| == |reg.clients.keys| by {
      NoDupKeysCount(reg.clients);
    }
    var lines := BuildLines(reg.clients.keys, online, reg.files, fmt);
    if lines.None? {
      return None;
    }
    reply := Some(ScrapeHeader(|online|) + lines.value);
  }

  /** The number of keys of a valid dictionary is the length of its order. */
  lemma NoDupKeysCount<V>(d: Dict<V>)
    requires d.Valid()
    ensures |d.entries.Keys| == |d.keys|
  {
    NoDupCard(d.keys);
    assert d.entries.Keys == set k | k in d.keys;
  }

  lemma {:induction false} NoDupCard(s: seq<string>)
    requires NoDup(s)
    ensures |set k | k in s| == |s|
  {
    if s != [] {
      var front := s[..|s| - 1];
      var last := s[|s| - 1];
      NoDupCard(front);
      assert (set k | k in s) == (set k | k in front) + {last};
      assert last !in front;
    }
  }

  /** With every tuple sized and every size a number, the scrape always answers. */
  lemma ScrapeSucceeds(clients: Dict<ClientInfo>, files: Dict<seq<Owner>>, fmt: string -> Option<string>)
    requires files.Valid() && AllSized(files)
    requires forall s :: fmt(s).Some?
    ensures ScrapeText(clients, files, fmt).Some?
  {
    LinesSucceed(clients.keys, files, fmt);
  }

  lemma {:induction false} LinesSucceed(users: seq<string>, files: Dict<seq<Owner>>, fmt: string -> Option<string>)
    requires files.Valid() && AllSized(files)
    requires forall s :: fmt(s).Some?
    ensures ScrapeLines(users, files, fmt).Some?
  {
    if users != [] {
      LinesSucceed(users[..|users| - 1], files, fmt);
      var u := users[|users| - 1];
      var pairs := OwnedBy(files.keys, files.entries, u);
      OwnedByIsOwned(files.keys, files.entries, u);
      forall j | 0 <= j < |pairs| ensures EntryText(pairs[j], fmt).Some? {
        assert pairs[j].1 in files.entries[pairs[j].0];
      }
    }
  }

  /** The loop variables of `handle_peer_connection`. */
  datatype LoopVars = LoopVars(func: Option<string>, name: Option<string>, size: Option<string>)

  /**
   * Tokenisation of one non-empty message: two tokens set `(func, name)`,
   * three set `(func, name, size)`, one sets `func` to the raw message, any
   * other count changes nothing.
   */
  function Parse(v: LoopVars, message: string): (r: LoopVars)
    ensures |Tokens(message)| == 3 ==>
      r == LoopVars(Some(Tokens(message)[0]), Some(Tokens(message)[1]), Some(Tokens(message)[2]))
    ensures |Tokens(message)| == 2 ==>
      r == LoopVars(Some(Tokens(message)[0]), Some(Tokens(message)[1]), v.size)
    ensures |Tokens(message)| == 1 ==> r == v.(func := Some(message))
    ensures |Tokens(message)| !in {1, 2, 3} ==> r == v
  {
    var toks := Tokens(message);
    if |toks| == 2 then LoopVars(Some(toks[0]), Some(toks[1]), v.size)
    else if |toks| == 1 then v.(func := Some(message))
    else if |toks| == 3 then LoopVars(Some(toks[0]), Some(toks[1]), Some(toks[2]))
    else v
  }

  datatype Command =
    | Share(fileName: string, size: string)
    | Download(fileName: string)
    | Disconnect
    | Scrape
    | Inform(fileName: string, size: string)
    /** `func` is none of the five words. */
    | Unrecognised
    /** The handler needs `name` or `size` before any message bound it: the NameError is caught and logged. */
    | NameUnbound
    /** `func` is unbound: the loop ends, the client is removed and the connection closed. */
    | FuncUnbound

  /** The case-insensitive dispatch on `func.lower()`. */
  function Dispatch(v: LoopVars): (c: Command)
    ensures c.FuncUnbound? <==> v.func.None?
    ensures c.Share? <==>
      v.func.Some? && AsciiLower(v.func.value) == "share" && v.name.Some? && v.size.Some?
    ensures c.Share? ==> c == Share(v.name.value, v.size.value)
    ensures c.Download? <==> v.func.Some? && AsciiLower(v.func.value) == "download" && v.name.Some?
    ensures c.Download? ==> c == Download(v.name.value)
    ensures c.Inform? <==>
      v.func.Some? && AsciiLower(v.func.value) == "inform" && v.name.Some? && v.size.Some?
    ensures c.Inform? ==> c == Inform(v.name.value, v.size.value)
    ensures c.Disconnect? <==> v.func.Some? && AsciiLower(v.func.value) == "disconnect"
    ensures c.Scrape? <==> v.func.Some? && AsciiLower(v.func.value) == "scrape"
  {
    match v.func
    case None => FuncUnbound
    case Some(f) =>
      var l := AsciiLower(f);
      if l == "share" then
        (if v.name.Some? && v.size.Some? then Share(v.name.value, v.size.value) else NameUnbound)
      else if l == "download" then (if v.name.Some? then Download(v.name.value) else NameUnbound)
      else if l == "disconnect" then Disconnect
      else if l == "scrape" then Scrape
      else if l == "inform" then
        (if v.name.Some? && v.size.Some? then Inform(v.name.value, v.size.value) else NameUnbound)
      else Unrecognised
  }

  /**
   * One turn of the loop of `handle_peer_connection` for `username`.
   * `received` is the decoded read, `None` when the bytes are not UTF-8:
   * the decode raises inside the loop's `try`, so the client is removed
   * and the connection closed. `encode` stands for `json.dumps`, `fmt` for
   * the float formatting of a size.
   */
  method HandleMessage(reg: Registry, username: string, v: LoopVars, received: Option<string>,
                       encode: seq<Owner> -> string, fmt: string -> Option<string>)
    returns (next: LoopVars, reply: Option<string>, closed: bool)
    requires reg.Valid()
    modifies reg
    ensures reg.Valid()
    ensures AllSized(old(reg.files)) ==> AllSized(reg.files)
    ensures received.None? ==>
      && next == v && reply == None && closed && reg.clients == old(reg.clients).Pop(username)
      && reg.files == (if username in old(reg.clients.entries) then Purge(old(reg.files), username) else old(reg.files))
    ensures received == Some("") ==>
      next == v && reply == None && !closed && reg.clients == old(reg.clients) && reg.files == old(reg.files)
    ensures received.Some? && received.value != "" ==> next == Parse(v, received.value)
    ensures closed <==> received.None? || (received.value != "" && Dispatch(next).FuncUnbound?)
    ensures received.Some? && received.value != "" ==>
      match Dispatch(next)
      case Share(f, s) =>
        reply == (if username in old(reg.clients.entries) then Some("Success") else None)
          && reg.clients == old(reg.clients) && reg.files == WithOwner(old(reg.clients), old(reg.files), f, username, Some(s))
      case Download(f) =>
        reply == Some(FetchReply(old(reg.files), f, encode))
          && reg.clients == old(reg.clients) && reg.files == old(reg.files)
      case Scrape =>
        reply == ScrapeText(old(reg.clients), old(reg.files), fmt)
          && reg.clients == old(reg.clients) && reg.files == old(reg.files)
      case Disconnect =>
        reply == None && reg.clients == old(reg.clients).Pop(username)
          && reg.files == (if username in old(reg.clients.entries) then Purge(old(reg.files), username) else old(reg.files))
      case FuncUnbound =>
        reply == None && reg.clients == old(reg.clients).Pop(username)
          && reg.files == (if username in old(reg.clients.entries) then Purge(old(reg.files), username) else old(reg.files))
      case Inform(f, s) =>
        reply == None
          && reg.clients == old(reg.clients) && reg.files == WithOwner(old(reg.clients), old(reg.files), f, username, Some(s))
      case Unrecognised =>
        reply == None && reg.clients == old(reg.clients) && reg.files == old(reg.files)
      case NameUnbound =>
        reply == None && reg.clients == old(reg.clients) && reg.files == old(reg.files)
  {
    next, reply, closed := v, None, false;
    if received.None? {
      var found := reg.RemoveClient(username);
      if found && AllSized(old(reg.files)) {
        PurgeKeepsSized(old(reg.files), username);
      }
      closed := true;
      return;
    }
    var message := received.value;
    if message == "" {
      return;
    }
    next := Parse(v, message);
    match Dispatch(next)
    case Share(f, s) =>
      reply := HandleShareFile(reg, f, username, s);
    case Download(f) =>
      reply := Some(FetchReply(reg.files, f, encode));
    case Disconnect =>
      var found := reg.RemoveClient(username);
      if found && AllSized(old(reg.files)) {
        PurgeKeepsSized(old(reg.files), username);
      }
    case Scrape =>
      reply := HandleScrape(reg, fmt);
    case Inform(f, s) =>
      HandleInform(reg, f, username, s);
    case Unrecognised =>
    case NameUnbound =>
    case FuncUnbound =>
      var found := reg.RemoveClient(username);
      if found && AllSized(old(reg.files)) {
        PurgeKeepsSized(old(reg.files), username);
      }
      closed := true;
  }
}
