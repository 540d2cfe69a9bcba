/**
 * peer_util.py: the requests a peer sends to the tracker server and its
 * upload loop, which differs from client_util.py's only in the block
 * size; `send_file`'s loop and `retrieve_connect_port` are the ones of
 * module ClientUtil.
 */
module PeerUtil {
  import opened Common
  import opened Text
  import ClientUtil
  import TrackerServer

  /** `file.read(1048576)`: the peer's upload block. */
  const PeerBlockSize: nat := 1048576

  /** peer_util.py's `send_file`. */
  method PeerSendFile(content: Bytes) returns (sent: seq<Bytes>)
    ensures Concat(sent) == content
    ensures forall i :: 0 <= i < |sent| ==> 0 < |sent[i]| <= PeerBlockSize
    ensures forall i :: 0 <= i < |sent| - 1 ==> |sent[i]| == PeerBlockSize
  {
    sent := ClientUtil.SendFile(content, PeerBlockSize);
  }

  /** `f"DOWNLOAD {file_name}"`. */
  function DownloadRequest(fileName: string): string
  {
    "DOWNLOAD " + fileName
  }

  /** `f"INFORM {file_name} {file_size_str}"`. */
  function InformDownloadedRequest(fileName: string, fileSize: string): string
  {
    "INFORM " + fileName + " " + fileSize
  }

  /** A name without whitespace sent with DOWNLOAD is parsed by the tracker server as a download of that name. */
  lemma DownloadRequestUnderstood(v: TrackerServer.LoopVars, fileName: string)
    requires fileName != [] && NoSpace(fileName)
    ensures TrackerServer.Dispatch(TrackerServer.Parse(v, DownloadRequest(fileName))) == TrackerServer.Download(fileName)
  {
    ClientUtil.TwoWords("DOWNLOAD", fileName);
    assert DownloadRequest(fileName) == "DOWNLOAD" + " " + fileName;
    var parsed := TrackerServer.Parse(v, DownloadRequest(fileName));
    assert parsed == TrackerServer.LoopVars(Some("DOWNLOAD"), Some(fileName), v.size);
    DownloadDispatched(fileName, v.size);
  }

  /** The three-word INFORM is parsed by the tracker server as an inform of that name and size. */
  lemma InformDownloadedUnderstood(v: TrackerServer.LoopVars, fileName: string, fileSize: string)
    requires fileName != [] && NoSpace(fileName)
    requires fileSize != [] && NoSpace(fileSize)
    ensures TrackerServer.Dispatch(TrackerServer.Parse(v, InformDownloadedRequest(fileName, fileSize)))
      == TrackerServer.Inform(fileName, fileSize)
  {
    var m := InformDownloadedRequest(fileName, fileSize);
    assert Tokens(m) == ["INFORM", fileName, fileSize] by {
      ThreeWords("INFORM", fileName, fileSize);
      assert m == "INFORM" + " " + (fileName + " " + fileSize);
    }
    assert TrackerServer.Parse(v, m) == TrackerServer.LoopVars(Some("INFORM"), Some(fileName), Some(fileSize));
    InformDispatched(fileName, fileSize);
  }

  /** A command word, a name and a size separated by single spaces are three tokens. */
  lemma ThreeWords(w: string, name: string, size: string)
    requires w != [] && NoSpace(w) && name != [] && NoSpace(name) && size != [] && NoSpace(size)
    ensures Tokens(w + " " + (name + " " + size)) == [w, name, size]
  {
    WordThenSpace(w, name + " " + size);
    WordThenSpace(name, size);
    SingleWord(size);
  }

  /** Upper-case DOWNLOAD with a name dispatches to the tracker server's download. */
  lemma DownloadDispatched(name: string, size: Option<string>)
    ensures TrackerServer.Dispatch(TrackerServer.LoopVars(Some("DOWNLOAD"), Some(name), size))
      == TrackerServer.Download(name)
  {
    LowerOfUpperWord("DOWNLOAD", "download");
  }

  /** Upper-case INFORM with a name and a size dispatches to the tracker server's inform. */
  lemma InformDispatched(name: string, size: string)
    ensures TrackerServer.Dispatch(TrackerServer.LoopVars(Some("INFORM"), Some(name), Some(size)))
      == TrackerServer.Inform(name, size)
  {
    LowerOfUpperWord("INFORM", "inform");
  }

  /**
   * A file name with a space in it makes four words, which the tracker
   * server's tokenisation ignores: the loop variables stay as they were, so
   * the previous command is dispatched again.
   */
  lemma InformWithSpacedNameIgnored(v: TrackerServer.LoopVars, first: string, second: string, fileSize: string)
    requires first != [] && NoSpace(first) && second != [] && NoSpace(second)
    requires fileSize != [] && NoSpace(fileSize)
    ensures TrackerServer.Parse(v, InformDownloadedRequest(first + " " + second, fileSize)) == v
  {
    var m := InformDownloadedRequest(first + " " + second, fileSize);
    assert m == "INFORM" + " " + (first + " " + (second + " " + fileSize));
    WordThenSpace("INFORM", first + " " + (second + " " + fileSize));
    WordThenSpace(first, second + " " + fileSize);
    WordThenSpace(second, fileSize);
    SingleWord(fileSize);
    assert |Tokens(m)| == 4;
  }
}
