/** Artifact locators and the local blob store (`blobs.py`).

    A locator is `<board>/<key>.<fmt>`.  Rows and blobs are tied together only by
    this text, so two artifacts must never share one: `LocatorRoundTrip` shows
    that a locator can be taken apart again at its last dot and last slash. */
module Blobs {
  import opened Options

  type Bytes = string

  predicate FormatChar(c: char) {
    'a' <= c <= 'z' || '0' <= c <= '9'
  }

  predicate SafeFormat(fmt: string) {
    fmt != "" && forall i :: 0 <= i < |fmt| ==> FormatChar(fmt[i])
  }

  /** `s.split(sep)`: always at least one part. */
  function Split(s: string, sep: char): (parts: seq<string>)
    ensures |parts| > 0
  {
    if s == "" then [""]
    else
      var rest := Split(s[1..], sep);
      if s[0] == sep then [""] + rest else [[s[0]] + rest[0]] + rest[1..]
  }

  function Join(parts: seq<string>, sep: char): string
    requires |parts| > 0
  {
    if |parts| == 1 then parts[0] else parts[0] + [sep] + Join(parts[1..], sep)
  }

  /** The parts are the separator-free pieces whose join is the text. */
  lemma {:induction false} SplitJoins(s: string, sep: char)
    ensures Join(Split(s, sep), sep) == s
    ensures forall i :: 0 <= i < |Split(s, sep)| ==> sep !in Split(s, sep)[i]
  {
    if s != "" {
      SplitJoins(s[1..], sep);
      var rest := Split(s[1..], sep);
      if s[0] == sep {
        assert ([""] + rest)[1..] == rest;
      } else {
        var first := [s[0]] + rest[0];
        assert ([first] + rest[1..])[1..] == rest[1..];
        assert Join([first] + rest[1..], sep) == [s[0]] + Join(rest, sep);
      }
    }
  }

  predicate SafeBoard(board: string) {
    && !("/" <= board)
    && '\\' !in board
    && forall i :: 0 <= i < |Split(board, '/')| ==> Split(board, '/')[i] !in {"", ".", ".."}
  }

  function ArtifactLocator(board: string, key: string, fmt: string): Result<string> {
    if !SafeFormat(fmt) then Raised("unsafe artifact format")
    else if !SafeBoard(board) then Raised("unsafe artifact board")
    else Ok(board + "/" + key + "." + fmt)
  }

  /** `s[i..j]` is a maximal piece without separators. */
  predicate Piece(s: string, sep: char, i: nat, j: nat) {
    && i <= j <= |s|
    && (i == 0 || s[i - 1] == sep) && (j == |s| || s[j] == sep)
    && forall k :: i <= k < j ==> s[k] != sep
  }

  /** Position of the first `c` in `s`, or `|s|` when there is none. */
  function FirstIndex(s: string, c: char): (f: nat)
    ensures f <= |s| && (forall k :: 0 <= k < f ==> s[k] != c) && (f < |s| ==> s[f] == c)
  {
    if s == "" || s[0] == c then 0
    else 1 + FirstIndex(s[1..], c)
  }

  lemma {:induction false} SplitAtFirst(s: string, sep: char)
    ensures var f := FirstIndex(s, sep);
      Split(s, sep) == [s[..f]] + if f < |s| then Split(s[f + 1..], sep) else []
  {
    if s != "" {
      SplitAtFirst(s[1..], sep);
      if s[0] != sep {
        var f := FirstIndex(s[1..], sep);
        assert s[..f + 1] == [s[0]] + s[1..][..f];
        if f < |s| - 1 { assert s[1..][f + 1..] == s[f + 2..]; }
      }
    }
  }

  lemma PieceBehind(s: string, sep: char, f: nat, i: nat, j: nat)
    requires f < |s| && f < i
    ensures Piece(s, sep, i, j) && s[f] == sep ==>
      Piece(s[f + 1..], sep, i - f - 1, j - f - 1) && s[f + 1..][i - f - 1..j - f - 1] == s[i..j]
  {
    if i <= j <= |s| {
      assert s[f + 1..][i - f - 1..j - f - 1] == s[i..j];
    }
  }

  lemma PieceAhead(s: string, sep: char, f: nat, i: nat, j: nat)
    requires f < |s| && s[f] == sep && Piece(s[f + 1..], sep, i, j)
    ensures Piece(s, sep, i + f + 1, j + f + 1) && s[i + f + 1..j + f + 1] == s[f + 1..][i..j]
  {
    assert s[i + f + 1..j + f + 1] == s[f + 1..][i..j];
  }

  /** The parts of a split are the maximal pieces without separators. */
  lemma {:induction false} PartsArePieces(s: string, sep: char, part: string)
    ensures part in Split(s, sep) <==> exists i: nat, j: nat :: Piece(s, sep, i, j) && s[i..j] == part
    decreases |s|
  {
    var f := FirstIndex(s, sep);
    SplitAtFirst(s, sep);
    assert Piece(s, sep, 0, f) && s[0..f] == s[..f];
    if f < |s| {
      var rest := s[f + 1..];
      PartsArePieces(rest, sep, part);
      if i: nat, j: nat :| Piece(rest, sep, i, j) && rest[i..j] == part {
        PieceAhead(s, sep, f, i, j);
      }
    }
    if i: nat, j: nat :| Piece(s, sep, i, j) && s[i..j] == part {
      if f < i {
        PieceBehind(s, sep, f, i, j);
      } else {
        OnlyFirstPiece(s, sep, i, j);
      }
    }
  }

  lemma OnlyFirstPiece(s: string, sep: char, i: nat, j: nat)
    requires Piece(s, sep, i, j) && i <= FirstIndex(s, sep)
    ensures i == 0 && j == FirstIndex(s, sep)
  {
  }

  /** Which artifacts `artifact_locator` accepts, character by character and piece by
      piece, and the text it gives them. */
  lemma LocatorAccepts(board: string, key: string, fmt: string)
    ensures ArtifactLocator(board, key, fmt).Ok? <==>
      && 1 <= |fmt| && (forall i :: 0 <= i < |fmt| ==> 'a' <= fmt[i] <= 'z' || '0' <= fmt[i] <= '9')
      && (forall i :: 0 <= i < |board| ==> board[i] != '\\')
      && (forall i: nat, j: nat :: Piece(board, '/', i, j) ==>
            board[i..j] != "" && board[i..j] != "." && board[i..j] != "..")
    ensures ArtifactLocator(board, key, fmt).Ok? ==>
      ArtifactLocator(board, key, fmt).value == board + "/" + key + "." + fmt
  {
    PartsArePieces(board, '/', "");
    PartsArePieces(board, '/', ".");
    PartsArePieces(board, '/', "..");
    if "/" <= board {
      assert Piece(board, '/', 0, 0) && board[0..0] == "";
    }
  }

  /** Position of the last `c` in `s`, or `|s|` when there is none. */
  function LastIndex(s: string, c: char): (i: nat)
    ensures i <= |s|
    ensures i < |s| ==> s[i] == c
    ensures forall j :: i < j < |s| ==> s[j] != c
    ensures i == |s| ==> c !in s
  {
    if s == "" then 0
    else if s[|s| - 1] == c then |s| - 1
    else
      var i := LastIndex(s[..|s| - 1], c);
      if i == |s| - 1 then |s| else i
  }

  /** Takes a locator apart: what follows the last dot is the format, what
      follows the last slash before it is the key. */
  function SplitLocator(locator: string): (string, string, string) {
    var dot := LastIndex(locator, '.');
    var stem := locator[..dot];
    var fmt := if dot < |locator| then locator[dot + 1..] else "";
    var slash := LastIndex(stem, '/');
    (stem[..slash], if slash < |stem| then stem[slash + 1..] else "", fmt)
  }

  lemma LastIndexOfJoin(front: string, c: char, back: string)
    requires c !in back
    ensures LastIndex(front + [c] + back, c) == |front|
  {
    var s := front + [c] + back;
    var i := LastIndex(s, c);
    assert s[|front|] == c;
    assert forall j :: |front| < j < |s| ==> s[j] in back;
  }

  lemma LocatorRoundTrip(board: string, key: string, fmt: string)
    requires '/' !in key
    requires ArtifactLocator(board, key, fmt).Ok?
    ensures SplitLocator(ArtifactLocator(board, key, fmt).value) == (board, key, fmt)
  {
    var stem := board + "/" + key;
    var locator := ArtifactLocator(board, key, fmt).value;
    assert locator == stem + ['.'] + fmt;
    LastIndexOfJoin(stem, '.', fmt);
    assert locator[..|stem|] == stem && locator[|stem| + 1..] == fmt;
    assert stem == board + ['/'] + key;
    LastIndexOfJoin(board, '/', key);
    assert stem[..|board|] == board && stem[|board| + 1..] == key;
  }

  /** A cache key together with the board and format it determines
      (`cachekey.py` hashes both into it); the digest is hexadecimal text. */
  datatype CacheKey = CacheKey(board: string, digest: string, format: string)

  predicate Renderable(key: CacheKey) {
    '/' !in key.digest && ArtifactLocator(key.board, key.digest, key.format).Ok?
  }

  function Locator(key: CacheKey): string
    requires Renderable(key)
  {
    ArtifactLocator(key.board, key.digest, key.format).value
  }

  /** Distinct keys have distinct locators: deleting one artifact's blob never
      removes another's. */
  lemma LocatorInjective(a: CacheKey, b: CacheKey)
    requires Renderable(a) && Renderable(b)
    ensures Locator(a) == Locator(b) <==> a == b
  {
    LocatorRoundTrip(a.board, a.digest, a.format);
    LocatorRoundTrip(b.board, b.digest, b.format);
  }

  /** The local blob store: published files by locator, and the staging area. */
  class LocalBlobs {
    var files: map<string, Bytes>
    var staging: map<string, Bytes>

    constructor ()
      ensures files == map[] && staging == map[]
    {
      files, staging := map[], map[];
    }

    /** `os.replace`: the staged file becomes the blob, replacing any previous
        one; a missing staged file raises and changes nothing. */
    method PutFile(locator: string, tmp: string) returns (r: Result<()>)
      modifies this
      ensures r.Ok? <==> tmp in old(staging)
      ensures r.Ok? ==> files == old(files)[locator := old(staging)[tmp]] && staging == old(staging) - {tmp}
      ensures r.Raised? ==> files == old(files) && staging == old(staging)
    {
      if tmp !in staging {
        return Raised("no staged file");
      }
      files, staging := files[locator := staging[tmp]], staging - {tmp};
      r := Ok(());
    }

    method Delete(locator: string)
      modifies this`files
      ensures files == old(files) - {locator}
    {
      files := files - {locator};
    }
  }
}
