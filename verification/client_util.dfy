/**
 * client_util.py: the requests a client sends to the index server, the
 * block-by-block upload of a file, and the legacy parser of a printed
 * `(host, port)` tuple. peer_util.py (module PeerUtil) shares the last two.
 */
module ClientUtil {
  import opened Common
  import opened Text
  import Server

  /** `file.read(20480)`: the client's upload block. */
  const ClientBlockSize: nat := 20480

  /** `file.read(n)` at offset `pos`: up to `n` bytes, empty at the end of the file. */
  function Read(content: Bytes, pos: nat, n: nat): (r: Bytes)
    requires pos <= |content|
    ensures |r| <= n && pos + |r| <= |content|
    ensures r == content[pos..pos + |r|]
    ensures |r| < n ==> pos + |r| == |content|
  {
    if pos + n <= |content| then content[pos..pos + n] else content[pos..]
  }

  /**
   * The blocks `send_file` sends for a file: full blocks of `n` bytes from
   * the front, the last one possibly shorter, none for an empty file.
   */
  function Blocks(content: Bytes, n: nat): seq<Bytes>
    requires n > 0
    decreases |content|
  {
    if content == [] then []
    else if |content| <= n then [content]
    else [content[..n]] + Blocks(content[n..], n)
  }

  /** The blocks together are the file. */
  lemma {:induction false} BlocksConcat(content: Bytes, n: nat)
    requires n > 0
    ensures Concat(Blocks(content, n)) == content
    decreases |content|
  {
    if content == [] {
    } else if |content| <= n {
      assert Concat([content]) == Concat([]) + content;
    } else {
      BlocksConcat(content[n..], n);
      ConcatAppend([content[..n]], Blocks(content[n..], n));
      assert Concat([content[..n]]) == Concat([]) + content[..n];
      assert content[..n] + content[n..] == content;
    }
  }

  /** Every block is non-empty and at most `n` long, and all but the last are full. */
  predicate SizedBlocks(b: seq<Bytes>, n: nat)
  {
    && (forall i :: 0 <= i < |b| ==> 0 < |b[i]| <= n)
    && (forall i :: 0 <= i < |b| - 1 ==> |b[i]| == n)
  }

  /** The blocks of a file are sized as `send_file` reads them. */
  lemma {:induction false} BlocksSizes(content: Bytes, n: nat)
    requires n > 0
    ensures SizedBlocks(Blocks(content, n), n)
    decreases |content|
  {
    if content == [] {
      assert Blocks(content, n) == [];
    } else if |content| <= n {
      assert Blocks(content, n) == [content];
    } else {
      var rest := Blocks(content[n..], n);
      BlocksSizes(content[n..], n);
      assert SizedBlocks(rest, n);
      var b := [content[..n]] + rest;
      assert Blocks(content, n) == b;
      forall i | 0 <= i < |b|
        ensures 0 < |b[i]| <= n && (i < |b| - 1 ==> |b[i]| == n)
      {
        if i == 0 {
          assert b[i] == content[..n];
        } else {
          assert b[i] == rest[i - 1];
          assert 0 < |rest[i - 1]| <= n;
        }
      }
    }
  }

  /** One read at `pos` takes the first block of what is left. */
  lemma BlocksStep(content: Bytes, pos: nat, n: nat)
    requires n > 0 && pos < |content|
    ensures var data := Read(content, pos, n);
      pos + |data| <= |content| && Blocks(content[pos..], n) == [data] + Blocks(content[pos + |data|..], n)
  {
    var r := content[pos..];
    var data := Read(content, pos, n);
    if |r| <= n {
      assert data == r;
      assert content[pos + |data|..] == [];
    } else {
      assert data == r[..n];
      assert r[n..] == content[pos + n..];
    }
  }

  /**
   * `send_file`'s loop: read a block, and while it is non-empty send it
   * and read the next. What is sent is exactly the file's blocks.
   */
  method SendFile(content: Bytes, blockSize: nat) returns (sent: seq<Bytes>)
    requires blockSize > 0
    ensures sent == Blocks(content, blockSize)
    ensures Concat(sent) == content
    ensures forall i :: 0 <= i < |sent| ==> 0 < |sent[i]| <= blockSize
    ensures forall i :: 0 <= i < |sent| - 1 ==> |sent[i]| == blockSize
  {
    sent := [];
    var pos := 0;
    var data := Read(content, 0, blockSize);
    assert content[0..] == content;
    while data != []
      invariant pos <= |content|
      invariant data == Read(content, pos, blockSize)
      invariant sent + Blocks(content[pos..], blockSize) == Blocks(content, blockSize)
      decreases |content| - pos
    {
      BlocksStep(content, pos, blockSize);
      sent := sent + [data];
      pos := pos + |data|;
      data := Read(content, pos, blockSize);
    }
    assert content[pos..] == [];
    BlocksConcat(content, blockSize);
    BlocksSizes(content, blockSize);
  }

  /** client_util.py's `send_file`. */
  method ClientSendFile(content: Bytes) returns (sent: seq<Bytes>)
    ensures Concat(sent) == content
    ensures forall i :: 0 <= i < |sent| ==> 0 < |sent[i]| <= ClientBlockSize
    ensures forall i :: 0 <= i < |sent| - 1 ==> |sent[i]| == ClientBlockSize
  {
    sent := SendFile(content, ClientBlockSize);
  }

  /** `f"FETCH {file_name}"`. */
  function FetchRequest(fileName: string): string
  {
    "FETCH " + fileName
  }

  /** `f"INFORM {file_name}"`. */
  function InformFetchedRequest(fileName: string): string
  {
    "INFORM " + fileName
  }

  /** A name without whitespace sent with FETCH is parsed by the server as a fetch of that name. */
  lemma FetchRequestUnderstood(v: Server.LoopVars, fileName: string)
    requires fileName != [] && NoSpace(fileName)
    ensures Server.Dispatch(Server.Parse(v, FetchRequest(fileName))) == Server.Fetch(fileName)
  {
    assert FetchRequest(fileName) == "FETCH" + " " + fileName;
    TwoWords("FETCH", fileName);
    assert Server.Parse(v, FetchRequest(fileName)) == Server.LoopVars(Some("FETCH"), Some(fileName));
    DispatchesWord("FETCH", "fetch", fileName);
  }

  /** The same for INFORM: the server records the client as an owner of that name. */
  lemma InformRequestUnderstood(v: Server.LoopVars, fileName: string)
    requires fileName != [] && NoSpace(fileName)
    ensures Server.Dispatch(Server.Parse(v, InformFetchedRequest(fileName))) == Server.Inform(fileName)
  {
    assert InformFetchedRequest(fileName) == "INFORM" + " " + fileName;
    TwoWords("INFORM", fileName);
    assert Server.Parse(v, InformFetchedRequest(fileName)) == Server.LoopVars(Some("INFORM"), Some(fileName));
    DispatchesWord("INFORM", "inform", fileName);
  }

  /** A command word and a name separated by one space are two tokens. */
  lemma TwoWords(w: string, name: string)
    requires w != [] && NoSpace(w) && name != [] && NoSpace(name)
    ensures Tokens(w + " " + name) == [w, name]
  {
    WordThenSpace(w, name);
    SingleWord(name);
  }

  /** The upper-case command words the client sends dispatch to their commands. */
  lemma DispatchesWord(w: string, lower: string, name: string)
    requires (w, lower) in {("FETCH", "fetch"), ("INFORM", "inform")}
    ensures lower == "fetch" ==> Server.Dispatch(Server.LoopVars(Some(w), Some(name))) == Server.Fetch(name)
    ensures lower == "inform" ==> Server.Dispatch(Server.LoopVars(Some(w), Some(name))) == Server.Inform(name)
  {
    LowerOfUpperWord(w, lower);
  }

  /**
   * `retrieve_connect_port`: drop the first and last characters, split on
   * ", ", unpack exactly two parts and return `int` of the second; the
   * unpacking or the conversion failing is `None`.
   */
  function RetrieveConnectPort(msg: string): (r: Option<int>)
    ensures r.Some? <==>
      var inner := if |msg| >= 2 then msg[1..|msg| - 1] else "";
      |Split(inner, ", ")| == 2 && ParseInt(Split(inner, ", ")[1]).Some?
    ensures r.Some? ==> r == ParseInt(Split(msg[1..|msg| - 1], ", ")[1])
  {
    var inner := if |msg| >= 2 then msg[1..|msg| - 1] else "";
    var parts := Split(inner, ", ");
    if |parts| != 2 then None else ParseInt(parts[1])
  }

  /** `str((host, port))` for a host name. */
  function TupleText(host: string, port: int): string
  {
    "('" + host + "', " + IntToString(port) + ")"
  }

  /** For a host with no ", " in it, the port printed in the tuple text is read back. */
  lemma RetrieveConnectPortRoundTrip(host: string, port: int)
    requires NoMatchBefore(host, ", ", |host|)
    ensures RetrieveConnectPort(TupleText(host, port)) == Some(port)
  {
    var msg := TupleText(host, port);
    var a := "'" + host + "'";
    var b := IntToString(port);
    assert msg[1..|msg| - 1] == a + ", " + b;
    forall i | 0 <= i < |a|
      ensures !MatchAt(a + ", " + b, ", ", i)
    {
      var t := ", " + b;
      var s := a + t;
      assert s == a + ", " + b;
      assert |a| == |host| + 2 && |s| == |a| + |t| && i + 2 <= |s|;
      assert s[i] == a[i];
      if i == 0 || i == |a| - 1 {
        assert a[i] == '\'';
        assert s[i..i + 2][0] == s[i];
      } else if i == |a| - 2 {
        assert s[i + 1] == a[i + 1] == '\'';
        assert s[i..i + 2][1] == s[i + 1];
      } else {
        assert a[i] == host[i - 1] && a[i + 1] == host[i];
        assert s[i..i + 2] == host[i - 1..i + 1];
        assert !MatchAt(host, ", ", i - 1);
      }
    }
    SplitAtFirst(a, ", ", b);
    IntTextHasNoComma(port);
    SplitWithoutSeparator(b, ", ");
    IntRoundTrip(port);
  }

  lemma IntTextHasNoComma(port: int)
    ensures NoMatchBefore(IntToString(port), ", ", |IntToString(port)|)
  {
    var t := IntToString(port);
    forall i | 0 <= i < |t|
      ensures !MatchAt(t, ", ", i)
    {
      if port < 0 {
        assert t == "-" + NatToString(-port);
        if i > 0 {
          assert t[i] == NatToString(-port)[i - 1];
        }
      }
      assert t[i] != ',';
      assert i + 2 <= |t| ==> t[i..i + 2][0] != ',';
    }
  }

  /** The input that shows the failure: a port that is not a number. */
  lemma RetrieveConnectPortRejects()
    ensures RetrieveConnectPort("('h', x)") == None
    ensures RetrieveConnectPort("()") == None
  {
    var inner := "'h', x";
    assert "('h', x)"[1..7] == inner;
    assert inner == "'h'" + ", " + "x";
    forall i | 0 <= i < 3
      ensures !MatchAt(inner, ", ", i)
    {
      assert inner[i..i + 2][0] != ',';
    }
    SplitAtFirst("'h'", ", ", "x");
    SplitWithoutSeparator("x", ", ");
    assert Split(inner, ", ") == ["'h'", "x"];
    assert ParseInt("x") == None;
  }
}
