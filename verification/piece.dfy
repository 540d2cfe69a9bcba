/**
 * piece.py: `TorrentPieceManager`, which finds the next piece to download
 * by looking for `piece_<i>` files in the download directory. The disk is
 * a parameter: the set of paths that exist.
 */
module Piece {
  import opened Common
  import opened Text

  /** `os.path.join(a, b)` for a relative `b`: a separator is added unless `a` is empty or already ends in one. */
  function PathJoin(a: string, b: string): string
  {
    if a == [] || a[|a| - 1] == '/' then a + b else a + "/" + b
  }

  /** `os.path.join(download_dir, f"piece_{i}")`. */
  function PiecePath(dir: string, i: int): string
  {
    PathJoin(dir, "piece_" + IntToString(i))
  }

  /** Different pieces have different files. */
  lemma PiecePathInjective(dir: string, i: int, j: int)
    requires PiecePath(dir, i) == PiecePath(dir, j)
    ensures i == j
  {
    var pre := (if dir == [] || dir[|dir| - 1] == '/' then dir else dir + "/") + "piece_";
    var ti, tj := IntToString(i), IntToString(j);
    assert PiecePath(dir, i) == pre + ti;
    assert PiecePath(dir, j) == pre + tj;
    assert (pre + ti)[|pre|..] == ti;
    assert (pre + tj)[|pre|..] == tj;
    IntRoundTrip(i);
    IntRoundTrip(j);
  }

  /** `is_piece_downloaded`: the piece's file exists. */
  predicate Downloaded(disk: set<string>, dir: string, i: int)
  {
    PiecePath(dir, i) in disk
  }

  /** The least index in `[0, total)` whose file is missing, if any. */
  function NextPiece(disk: set<string>, dir: string, total: int): (r: Option<int>)
    ensures r.Some? ==> 0 <= r.value < total && !Downloaded(disk, dir, r.value)
    ensures r.Some? ==> forall j :: 0 <= j < r.value ==> Downloaded(disk, dir, j)
    ensures r.None? <==> forall j :: 0 <= j < total ==> Downloaded(disk, dir, j)
    decreases if total < 0 then 0 else total
  {
    if total <= 0 then None
    else
      match NextPiece(disk, dir, total - 1)
      case Some(i) => Some(i)
      case None => if Downloaded(disk, dir, total - 1) then None else Some(total - 1)
  }

  class TorrentPieceManager {
    const torrentFilePath: string
    const totalPieces: int
    const downloadDir: string
    var downloadedPieces: set<int>

    /** `__init__`: no piece is recorded as downloaded. */
    constructor (torrentFilePath: string, totalPieces: int, downloadDir: string)
      ensures this.torrentFilePath == torrentFilePath && this.totalPieces == totalPieces
      ensures this.downloadDir == downloadDir
      ensures downloadedPieces == {}
    {
      this.torrentFilePath := torrentFilePath;
      this.totalPieces := totalPieces;
      this.downloadDir := downloadDir;
      downloadedPieces := {};
    }

    /** `is_piece_downloaded`: true exactly when `download_dir/piece_<i>` exists. */
    function IsPieceDownloaded(disk: set<string>, i: int): (r: bool)
      ensures r <==> PiecePath(downloadDir, i) in disk
    {
      Downloaded(disk, downloadDir, i)
    }

    /**
     * `mark_piece_downloaded`: adds the index to the set (again, harmlessly).
     * Nothing else changes, so the answers of `is_piece_downloaded` and
     * `get_next_piece`, which only look at the disk, stay the same.
     */
    method MarkPieceDownloaded(i: int)
      modifies this
      ensures downloadedPieces == old(downloadedPieces) + {i}
      ensures i in old(downloadedPieces) ==> downloadedPieces == old(downloadedPieces)
    {
      downloadedPieces := downloadedPieces + {i};
    }

    /** `get_next_piece`: the first index whose file is missing, or `None` when all are present. */
    method GetNextPiece(disk: set<string>) returns (r: Option<int>)
      ensures r == NextPiece(disk, downloadDir, totalPieces)
    {
      var i := 0;
      while i < totalPieces
        invariant 0 <= i && (totalPieces >= 0 ==> i <= totalPieces)
        invariant forall j :: 0 <= j < i ==> Downloaded(disk, downloadDir, j)
      {
        if !IsPieceDownloaded(disk, i) {
          NextPieceIs(disk, downloadDir, totalPieces, i);
          return Some(i);
        }
        i := i + 1;
      }
      assert NextPiece(disk, downloadDir, totalPieces).None?;
      r := None;
    }
  }

  /** The least missing index is the next piece. */
  lemma NextPieceIs(disk: set<string>, dir: string, total: int, i: int)
    requires 0 <= i < total && !Downloaded(disk, dir, i)
    requires forall j :: 0 <= j < i ==> Downloaded(disk, dir, j)
    ensures NextPiece(disk, dir, total) == Some(i)
  {
  }
}
