/**
 * server.py: the line-oriented index server. Each client connection runs
 * `handle_client_connection`, which reads one text command at a time and
 * applies it to the shared registry (module LegacyRegistry).
 */
module Server {
  import opened Common
  import opened Text
  import opened PyDict
  import opened LegacyRegistry

  /**
   * `handle_publish_file`: a known user has its tuple appended to the
   * file's list and is answered "Success"; an unknown user changes nothing
   * and gets no reply.
   */
  method HandlePublishFile(reg: Registry, fileName: string, username: string) returns (reply: Option<string>)
    requires reg.Valid()
    modifies reg
    ensures reg.Valid()
    ensures reply == (if username in old(reg.clients.entries) then Some("Success") else None)
    ensures reg.clients == old(reg.clients)
    ensures username !in old(reg.clients.entries) ==> reg.files == old(reg.files)
    ensures username in old(reg.clients.entries) ==>
      var info := old(reg.clients.entries)[username];
      reg.files == old(reg.files).Set(fileName,
        (if fileName in old(reg.files.entries) then old(reg.files.entries)[fileName] else []) + [Owner(username, info.ip, info.serverPort, None)])
  {
    var known := reg.AddOwner(fileName, username, None);
    reply := if known then Some("Success") else None;
  }

  /** `handle_inform`: the same append as a publish, with no reply. */
  method HandleInform(reg: Registry, fileName: string, username: string)
    requires reg.Valid()
    modifies reg
    ensures reg.Valid()
    ensures reg.clients == old(reg.clients)
    ensures username !in old(reg.clients.entries) ==> reg.files == old(reg.files)
    ensures username in old(reg.clients.entries) ==>
      var info := old(reg.clients.entries)[username];
      reg.files == old(reg.files).Set(fileName,
        (if fileName in old(reg.files.entries) then old(reg.files.entries)[fileName] else []) + [Owner(username, info.ip, info.serverPort, None)])
  {
    var _ := reg.AddOwner(fileName, username, None);
  }

  /** One line of the scrape report: the files joined by ", ", or "No files". */
  function FilesText(names: seq<string>): string
  {
    if names == [] then "No files" else Join(names, ", ")
  }

  const ScrapeHeader := "Online clients with their files:\n"

  /** `f"{username}: {files_str}\n"`. */
  function ClientLine(u: string, names: seq<string>): string
  {
    u + ": " + FilesText(names) + "\n"
  }

  /** The line of the report for client `u`: the files it owns, in `file_list` order. */
  ghost function ScrapeLine(u: string, files: Dict<seq<Owner>>): string
    requires files.Valid()
  {
    ClientLine(u, Names(OwnedBy(files.keys, files.entries, u)))
  }

  /** The per-client lines of the report, one per user of `users` in order. */
  ghost function ScrapeLines(users: seq<string>, files: Dict<seq<Owner>>): string
    requires files.Valid()
  {
    if users == [] then ""
    else ScrapeLines(users[..|users| - 1], files) + ScrapeLine(users[|users| - 1], files)
  }

  lemma ScrapeLinesStep(users: seq<string>, files: Dict<seq<Owner>>, i: nat)
    requires files.Valid() && i < |users|
    ensures ScrapeLines(users[..i + 1], files) == ScrapeLines(users[..i], files) + ScrapeLine(users[i], files)
  {
    assert users[..i + 1][..i] == users[..i];
  }

  /**
   * The report of `handle_scrape`: a header, then one line per client in
   * `client_list` order listing the files it owns in `file_list` order.
   */
  ghost function ScrapeText(clients: Dict<ClientInfo>, files: Dict<seq<Owner>>): string
    requires files.Valid()
  {
    ScrapeHeader + ScrapeLines(clients.keys, files)
  }

  /** The second loop of `handle_scrape`: one line per user from the pairs the first loop gathered. */
  method BuildLines(users: seq<string>, online: map<string, seq<(string, Owner)>>, files: Dict<seq<Owner>>)
    returns (lines: string)
    requires files.Valid()
    requires forall u :: u in users ==> u in online && online[u] == OwnedBy(files.keys, files.entries, u)
    ensures lines == ScrapeLines(users, files)
  {
    lines := "";
    var i := 0;
    while i < |users|
      invariant 0 <= i <= |users|
      invariant lines == ScrapeLines(users[..i], files)
    {
      var line := ClientLine(users[i], Names(online[users[i]]));
      ScrapeLinesStep(users, files, i);
      lines := lines + line;
      i := i + 1;
    }
    assert users[..i] == users;
  }

  /**
   * `handle_scrape`: gathers files per online client file by file, then
   * writes one line per client; the text is the client-by-client report.
   */
  method HandleScrape(reg: Registry) returns (message: string)
    requires reg.Valid()
    ensures message == ScrapeText(reg.clients, reg.files)
  {
    var online := reg.CollectOwned();
    var lines := BuildLines(reg.clients.keys, online, reg.files);
    message := ScrapeHeader + lines;
  }

  /** The loop variables of `handle_client_connection`, which survive from one message to the next. */
  datatype LoopVars = LoopVars(func: Option<string>, name: Option<string>)

  /**
   * Tokenisation of one non-empty message: two whitespace tokens give
   * `(func, name)`; one token sets `func` to the whole raw message (not the
   * stripped token); any other count leaves both as they were.
   */
  function Parse(v: LoopVars, message: string): (r: LoopVars)
    ensures |Tokens(message)| == 2 ==> r.func == Some(Tokens(message)[0]) && r.name == Some(Tokens(message)[1])
    ensures |Tokens(message)| == 1 ==> r.func == Some(message) && r.name == v.name
    ensures |Tokens(message)| !in {1, 2} ==> r == v
  {
    var toks := Tokens(message);
    if |toks| == 2 then LoopVars(Some(toks[0]), Some(toks[1]))
    else if |toks| == 1 then LoopVars(Some(message), v.name)
    else v
  }

  datatype Command =
    | Publish(fileName: string)
    | Fetch(fileName: string)
    | Disconnect
    | PrintScrape
    | Inform(fileName: string)
    /** `func` matches none of the five words: the message is ignored. */
    | Unrecognised
    /** A command needing `name` before any two-token message bound it: the handler's NameError is caught and logged. */
    | NameUnbound
    /** No message has bound `func` yet: the NameError ends the loop, the client is removed, the connection closed. */
    | FuncUnbound

  /** The case-insensitive dispatch on `func.lower()`. */
  function Dispatch(v: LoopVars): (c: Command)
    ensures c.FuncUnbound? <==> v.func.None?
    ensures c.Publish? <==> v.func.Some? && AsciiLower(v.func.value) == "publish" && v.name.Some?
    ensures c.Publish? ==> c == Publish(v.name.value)
    ensures c.Fetch? <==> v.func.Some? && AsciiLower(v.func.value) == "fetch" && v.name.Some?
    ensures c.Fetch? ==> c == Fetch(v.name.value)
    ensures c.Inform? <==> v.func.Some? && AsciiLower(v.func.value) == "inform" && v.name.Some?
    ensures c.Inform? ==> c == Inform(v.name.value)
    ensures c.NameUnbound? <==>
      v.func.Some? && AsciiLower(v.func.value) in {"publish", "fetch", "inform"} && v.name.None?
    ensures c.Disconnect? <==> v.func.Some? && AsciiLower(v.func.value) == "disconnect"
    ensures c.PrintScrape? <==> v.func.Some? && AsciiLower(v.func.value) == "print_scrape"
  {
    match v.func
    case None => FuncUnbound
    case Some(f) =>
      var l := AsciiLower(f);
      if l == "publish" then (if v.name.Some? then Publish(v.name.value) else NameUnbound)
      else if l == "fetch" then (if v.name.Some? then Fetch(v.name.value) else NameUnbound)
      else if l == "disconnect" then Disconnect
      else if l == "print_scrape" then PrintScrape
      else if l == "inform" then (if v.name.Some? then Inform(v.name.value) else NameUnbound)
      else Unrecognised
  }

  /**
   * One turn of the loop of `handle_client_connection` for `username`.
   * `received` is the decoded read, `None` when the bytes are not UTF-8:
   * the decode raises inside the loop's `try`, so the client is removed
   * and the connection closed. An empty read does nothing; otherwise the
   * message is tokenised and the command dispatched. `encode` stands for
   * `json.dumps`.
   */
  method HandleMessage(reg: Registry, username: string, v: LoopVars, received: Option<string>,
                       encode: seq<Owner> -> string)
    returns (next: LoopVars, reply: Option<string>, closed: bool)
    requires reg.Valid()
    modifies reg
    ensures reg.Valid()
    ensures received.None? ==>
      && next == v && reply == None && closed && reg.clients == old(reg.clients).Pop(username)
      && reg.files == (if username in old(reg.clients.entries) then Purge(old(reg.files), username) else old(reg.files))
    ensures received == Some("") ==>
      next == v && reply == None && !closed && reg.clients == old(reg.clients) && reg.files == old(reg.files)
    ensures received.Some? && received.value != "" ==> next == Parse(v, received.value)
    ensures closed <==> received.None? || (received.value != "" && Dispatch(next).FuncUnbound?)
    ensures received.Some? && received.value != "" ==>
      match Dispatch(next)
      case Publish(f) =>
        reply == (if username in old(reg.clients.entries) then Some("Success") else None)
          && reg.clients == old(reg.clients) && reg.files == WithOwner(old(reg.clients), old(reg.files), f, username, None)
      case Fetch(f) =>
        reply == Some(FetchReply(old(reg.files), f, encode))
          && reg.clients == old(reg.clients) && reg.files == old(reg.files)
      case PrintScrape =>
        reply == Some(ScrapeText(old(reg.clients), old(reg.files)))
          && reg.clients == old(reg.clients) && reg.files == old(reg.files)
      case Disconnect =>
        reply == None && reg.clients == old(reg.clients).Pop(username)
          && reg.files == (if username in old(reg.clients.entries) then Purge(old(reg.files), username) else old(reg.files))
      case FuncUnbound =>
        reply == None && reg.clients == old(reg.clients).Pop(username)
          && reg.files == (if username in old(reg.clients.entries) then Purge(old(reg.files), username) else old(reg.files))
      case Inform(f) =>
        reply == None
          && reg.clients == old(reg.clients) && reg.files == WithOwner(old(reg.clients), old(reg.files), f, username, None)
      case Unrecognised =>
        reply == None && reg.clients == old(reg.clients) && reg.files == old(reg.files)
      case NameUnbound =>
        reply == None && reg.clients == old(reg.clients) && reg.files == old(reg.files)
  {
    next, reply, closed := v, None, false;
    if received.None? {
      var _ := reg.RemoveClient(username);
      closed := true;
      return;
    }
    var message := received.value;
    if message == "" {
      return;
    }
    next := Parse(v, message);
    match Dispatch(next)
    case Publish(f) =>
      reply := HandlePublishFile(reg, f, username);
    case Fetch(f) =>
      reply := Some(FetchReply(reg.files, f, encode));
    case Disconnect =>
      var _ := reg.RemoveClient(username);
    case PrintScrape =>
      var text := HandleScrape(reg);
      reply := Some(text);
    case Inform(f) =>
      HandleInform(reg, f, username);
    case Unrecognised =>
    case NameUnbound =>
    case FuncUnbound =>
      var _ := reg.RemoveClient(username);
      closed := true;
  }

  /**
   * A one-word command followed by whitespace (the newline a console sends)
   * is never recognised: `func` is set to the raw text, whitespace included.
   */
  lemma TrailingSpaceDefeatsCommand(v: LoopVars, w: string, c: char)
    requires w != [] && NoSpace(w) && IsSpace(c)
    ensures Parse(v, w + [c]).func == Some(w + [c])
    ensures Dispatch(Parse(v, w + [c])) == Unrecognised
  {
    var m := w + [c];
    WordLenOfWord(w, [c]);
    assert m[..|w|] == w;
    assert m[|w|..] == [c];
    assert Tokens([c]) == [] by {
      assert [c][1..] == [];
    }
    assert Tokens(m) == [w];
    var l := AsciiLower(m);
    assert IsSpace(l[|l| - 1]);
    assert l != "publish" && l != "fetch" && l != "disconnect" && l != "print_scrape" && l != "inform" by {
      assert !IsSpace('h') && !IsSpace('e') && !IsSpace('t') && !IsSpace('m');
    }
  }

  /** A bare command word reuses the file name of the last two-word command on the connection. */
  lemma BareCommandReusesLastName(v: LoopVars, name: string)
    requires v.name == Some(name)
    ensures Dispatch(Parse(v, "PUBLISH")) == Publish(name)
  {
    assert Parse(v, "PUBLISH") == LoopVars(Some("PUBLISH"), Some(name)) by {
      SingleWord("PUBLISH");
    }
    PublishDispatched(name);
  }

  /** Upper-case PUBLISH with a bound name dispatches to a publish of that name. */
  lemma PublishDispatched(name: string)
    ensures Dispatch(LoopVars(Some("PUBLISH"), Some(name))) == Publish(name)
  {
    LowerOfUpperWord("PUBLISH", "publish");
  }
}
