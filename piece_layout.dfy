/**
 * How a torrent's pieces fall onto its files.
 *
 * The payload of a torrent is one byte stream, the concatenation of its files in
 * list order (the info dictionary of BEP 3).  The stream is cut into pieces of
 * `pieceLength` bytes, the last one possibly shorter.  `map_pieces_to_files`
 * describes each piece as a list of `FileBlock`s: the block starts at `offset`
 * within the piece and covers bytes `[fileOffset, fileOffset + size)` of file
 * `fileIndex`.
 *
 * `Layout` is the result of that loop, written as a fold over the files whose
 * inner recursion is the `while` loop.  The lemmas below relate it to the
 * byte-stream view: every block sits where the concatenation puts it.
 */
module PieceLayout {

  datatype FileBlock = FileBlock(offset: nat, fileIndex: nat, fileOffset: nat, size: nat)

  /**
   * The loop state of `map_pieces_to_files`: the pieces already closed, the
   * open piece, the room left in it (`current_piece_left`) and the fill level
   * of the open piece (`offset`).
   */
  datatype Cursor = Cursor(mapping: seq<seq<FileBlock>>, current: seq<FileBlock>, left: nat, offset: nat)

  // ---------------------------------------------------------------------------
  // Sums

  /** Sum of a list of lengths. */
  function Sum(xs: seq<nat>): nat
  {
    if xs == [] then 0 else Sum(xs[..|xs| - 1]) + xs[|xs| - 1]
  }

  /** Position in the payload stream where file `f` starts. */
  function FileStart(lengths: seq<nat>, f: nat): nat
    requires f <= |lengths|
  {
    Sum(lengths[..f])
  }

  /** Number of bytes a list of blocks covers. */
  function BlocksSize(blocks: seq<FileBlock>): nat
  {
    if blocks == [] then 0 else BlocksSize(blocks[..|blocks| - 1]) + blocks[|blocks| - 1].size
  }

  /** All blocks of all pieces, in order. */
  function Flatten(mapping: seq<seq<FileBlock>>): seq<FileBlock>
  {
    if mapping == [] then [] else Flatten(mapping[..|mapping| - 1]) + mapping[|mapping| - 1]
  }

  /** Number of bytes covered by all pieces together. */
  function MappedSize(mapping: seq<seq<FileBlock>>): nat
  {
    if mapping == [] then 0 else MappedSize(mapping[..|mapping| - 1]) + BlocksSize(mapping[|mapping| - 1])
  }

  // ---------------------------------------------------------------------------
  // The loop as a function

  /** The loop ends exactly when pieces have room or no file has bytes. */
  predicate Terminates(pieceLength: nat, lengths: seq<nat>)
  {
    pieceLength > 0 || forall i :: 0 <= i < |lengths| ==> lengths[i] == 0
  }

  function Start(pieceLength: nat): Cursor
  {
    Cursor([], [], pieceLength, 0)
  }

  /**
   * One turn of the `while` loop: the open piece is filled with the next
   * `left` bytes of the file and closed.
   */
  function CloseStep(pieceLength: nat, c: Cursor, fileIndex: nat, fileOffset: nat): Cursor
  {
    var block := FileBlock(c.offset, fileIndex, fileOffset, c.left);
    Cursor(c.mapping + [c.current + [block]], [], pieceLength, 0)
  }

  /**
   * The `while` loop followed by the final `if` for file `fileIndex`, which
   * has `remaining` bytes left from `fileOffset` on.
   */
  function SplitFile(pieceLength: nat, c: Cursor, fileIndex: nat, fileOffset: nat, remaining: nat): Cursor
    requires pieceLength > 0 || remaining == 0
    decreases remaining + (if c.left == 0 then 1 else 0)
  {
    if c.left < remaining then
      SplitFile(pieceLength, CloseStep(pieceLength, c, fileIndex, fileOffset),
                fileIndex, fileOffset + c.left, remaining - c.left)
    else
      Cursor(c.mapping, c.current + [FileBlock(c.offset, fileIndex, fileOffset, remaining)],
             c.left - remaining, c.offset + remaining)
  }

  /** The loop state after the first `n` files. */
  function Fold(pieceLength: nat, lengths: seq<nat>, n: nat): Cursor
    requires n <= |lengths|
    requires Terminates(pieceLength, lengths)
  {
    if n == 0 then Start(pieceLength)
    else SplitFile(pieceLength, Fold(pieceLength, lengths, n - 1), n - 1, 0, lengths[n - 1])
  }

  /**
   * The result of `map_pieces_to_files`: the open piece is kept if it holds a
   * block.  There is a piece exactly when there is a file, since every file,
   * even an empty one, puts a block in some piece.
   */
  function Layout(pieceLength: nat, lengths: seq<nat>): (pieces: seq<seq<FileBlock>>)
    requires Terminates(pieceLength, lengths)
    ensures pieces == [] <==> lengths == []
  {
    FoldTiles(pieceLength, lengths, |lengths|);
    var c := Fold(pieceLength, lengths, |lengths|);
    if c.current != [] then c.mapping + [c.current] else c.mapping
  }

  // ---------------------------------------------------------------------------
  // Properties of pieces and blocks

  /** The offsets of a piece's blocks run on from 0 without gaps. */
  ghost predicate Contiguous(piece: seq<FileBlock>)
  {
    forall k {:trigger BlocksSize(piece[..k])} :: 0 <= k < |piece| ==> piece[k].offset == BlocksSize(piece[..k])
  }

  /**
   * Block `b` of piece `i` lies inside its file, and byte `offset` of the piece
   * is the same payload byte as byte `fileOffset` of the file.
   */
  ghost predicate Placed(pieceLength: nat, lengths: seq<nat>, i: nat, b: FileBlock)
  {
    && b.fileIndex < |lengths|
    && b.fileOffset + b.size <= lengths[b.fileIndex]
    && i * pieceLength + b.offset == FileStart(lengths, b.fileIndex) + b.fileOffset
  }

  ghost predicate PieceOk(pieceLength: nat, lengths: seq<nat>, i: nat, piece: seq<FileBlock>)
  {
    Contiguous(piece) && forall k :: 0 <= k < |piece| ==> Placed(pieceLength, lengths, i, piece[k])
  }

  /** The loop invariant on pieces, `pos` being the payload bytes consumed so far. */
  ghost predicate CursorOk(pieceLength: nat, lengths: seq<nat>, c: Cursor, pos: nat)
  {
    && c.offset + c.left == pieceLength
    && (forall i :: 0 <= i < |c.mapping| ==>
          PieceOk(pieceLength, lengths, i, c.mapping[i]) && BlocksSize(c.mapping[i]) == pieceLength)
    && PieceOk(pieceLength, lengths, |c.mapping|, c.current)
    && BlocksSize(c.current) == c.offset
    && |c.mapping| * pieceLength + c.offset == pos
  }

  /** Two blocks name disjoint byte ranges of the files. */
  predicate Disjoint(a: FileBlock, b: FileBlock)
  {
    a.fileIndex != b.fileIndex || a.fileOffset + a.size <= b.fileOffset || b.fileOffset + b.size <= a.fileOffset
  }

  // ---------------------------------------------------------------------------
  // Properties of the flattened block list

  /** `b` may follow `a`: further into the same file, or at the start of the next once `a`'s file is done. */
  predicate Successor(a: FileBlock, b: FileBlock, lengths: seq<nat>)
  {
    if b.fileIndex == a.fileIndex then b.fileOffset == a.fileOffset + a.size
    else b.fileIndex == a.fileIndex + 1 && b.fileOffset == 0
         && a.fileIndex < |lengths| && a.fileOffset + a.size == lengths[a.fileIndex]
  }

  /** `blocks` cover the first `n` files in order, each from byte 0 to its end. */
  ghost predicate Tiles(blocks: seq<FileBlock>, lengths: seq<nat>, n: nat)
  {
    if n == 0 then blocks == []
    else
      && |blocks| > 0
      && blocks[0].fileIndex == 0 && blocks[0].fileOffset == 0
      && n - 1 < |lengths|
      && blocks[|blocks| - 1].fileIndex == n - 1
      && blocks[|blocks| - 1].fileOffset + blocks[|blocks| - 1].size == lengths[n - 1]
      && forall k :: 0 <= k < |blocks| - 1 ==> Successor(blocks[k], blocks[k + 1], lengths)
  }

  /** `run` covers bytes `[from, to)` of file `f` in order. */
  ghost predicate RunOf(run: seq<FileBlock>, f: nat, from: nat, to: nat)
  {
    && |run| > 0
    && run[0].fileOffset == from
    && (forall k :: 0 <= k < |run| ==> run[k].fileIndex == f)
    && (forall k :: 0 <= k < |run| - 1 ==> run[k + 1].fileOffset == run[k].fileOffset + run[k].size)
    && run[|run| - 1].fileOffset + run[|run| - 1].size == to
  }

  function Flat(c: Cursor): seq<FileBlock>
  {
    Flatten(c.mapping) + c.current
  }

  // ---------------------------------------------------------------------------
  // Small facts about the sums

  lemma MulSucc(i: nat, p: nat)
    ensures (i + 1) * p == i * p + p
  {
  }

  lemma SumSnoc(xs: seq<nat>, f: nat)
    requires f < |xs|
    ensures Sum(xs[..f + 1]) == Sum(xs[..f]) + xs[f]
  {
    assert xs[..f + 1][..f] == xs[..f];
  }

  lemma FileStartStep(lengths: seq<nat>, n: nat)
    requires 0 < n <= |lengths|
    ensures FileStart(lengths, n) == FileStart(lengths, n - 1) + lengths[n - 1]
  {
    assert lengths[..n][..n - 1] == lengths[..n - 1];
  }

  lemma BlocksSizeSnoc(blocks: seq<FileBlock>, b: FileBlock)
    ensures BlocksSize(blocks + [b]) == BlocksSize(blocks) + b.size
  {
    assert (blocks + [b])[..|blocks|] == blocks;
  }

  lemma {:induction false} BlocksSizePrefix(blocks: seq<FileBlock>, k: nat, n: nat)
    requires k <= n <= |blocks|
    ensures BlocksSize(blocks[..k]) <= BlocksSize(blocks[..n])
    decreases n
  {
    if k < n {
      BlocksSizePrefix(blocks, k, n - 1);
      assert blocks[..n] == blocks[..n - 1] + [blocks[n - 1]];
      BlocksSizeSnoc(blocks[..n - 1], blocks[n - 1]);
    }
  }

  lemma FlattenSnoc(mapping: seq<seq<FileBlock>>, piece: seq<FileBlock>)
    ensures Flatten(mapping + [piece]) == Flatten(mapping) + piece
  {
    assert (mapping + [piece])[..|mapping|] == mapping;
  }

  lemma MappedSizeSnoc(mapping: seq<seq<FileBlock>>, piece: seq<FileBlock>)
    ensures MappedSize(mapping + [piece]) == MappedSize(mapping) + BlocksSize(piece)
  {
    assert (mapping + [piece])[..|mapping|] == mapping;
  }

  /** Appending a block at the fill level keeps a piece contiguous. */
  lemma ContiguousSnoc(piece: seq<FileBlock>, b: FileBlock)
    requires Contiguous(piece)
    requires b.offset == BlocksSize(piece)
    ensures Contiguous(piece + [b])
  {
    var p := piece + [b];
    forall k | 0 <= k < |p|
      ensures p[k].offset == BlocksSize(p[..k])
    {
      if k < |piece| {
        assert p[..k] == piece[..k];
      } else {
        assert p[..k] == piece;
      }
    }
  }

  /** In a contiguous piece each block ends no later than the piece's size. */
  lemma BlockEndsWithinPiece(piece: seq<FileBlock>, k: nat)
    requires Contiguous(piece)
    requires k < |piece|
    ensures piece[k].offset + piece[k].size <= BlocksSize(piece)
  {
    assert piece[..k + 1] == piece[..k] + [piece[k]];
    BlocksSizeSnoc(piece[..k], piece[k]);
    BlocksSizePrefix(piece, k + 1, |piece|);
    assert piece[..|piece|] == piece;
  }

  /** In a contiguous piece an earlier block ends no later than a later one starts. */
  lemma BlocksInOrder(piece: seq<FileBlock>, j: nat, k: nat)
    requires Contiguous(piece)
    requires j < k < |piece|
    ensures piece[j].offset + piece[j].size <= piece[k].offset
  {
    assert piece[..j + 1] == piece[..j] + [piece[j]];
    BlocksSizeSnoc(piece[..j], piece[j]);
    BlocksSizePrefix(piece, j + 1, k);
  }

  // ---------------------------------------------------------------------------
  // The loop invariant on pieces

  /** Each file that the loop handles keeps the invariant, from `fileOffset` to the file's end. */
  lemma {:induction false} SplitFileOk(pieceLength: nat, lengths: seq<nat>, c: Cursor, f: nat, fileOffset: nat, remaining: nat)
    requires pieceLength > 0 || remaining == 0
    requires f < |lengths| && fileOffset + remaining == lengths[f]
    requires CursorOk(pieceLength, lengths, c, FileStart(lengths, f) + fileOffset)
    ensures CursorOk(pieceLength, lengths, SplitFile(pieceLength, c, f, fileOffset, remaining), FileStart(lengths, f) + lengths[f])
    ensures remaining > 0 ==> SplitFile(pieceLength, c, f, fileOffset, remaining).offset > 0
    ensures remaining == 0 ==> (SplitFile(pieceLength, c, f, fileOffset, remaining).mapping == c.mapping
                                && SplitFile(pieceLength, c, f, fileOffset, remaining).offset == c.offset)
    decreases remaining + (if c.left == 0 then 1 else 0), 1
  {
    if c.left < remaining {
      ClosingSplitOk(pieceLength, lengths, c, f, fileOffset, remaining);
    } else {
      var b := FileBlock(c.offset, f, fileOffset, remaining);
      AppendOk(pieceLength, lengths, c, b, FileStart(lengths, f) + fileOffset);
    }
  }

  /** `SplitFileOk` when the open piece fills up before the file ends: close it and go on. */
  lemma {:induction false} ClosingSplitOk(pieceLength: nat, lengths: seq<nat>, c: Cursor, f: nat, fileOffset: nat, remaining: nat)
    requires pieceLength > 0 && c.left < remaining
    requires f < |lengths| && fileOffset + remaining == lengths[f]
    requires CursorOk(pieceLength, lengths, c, FileStart(lengths, f) + fileOffset)
    ensures CursorOk(pieceLength, lengths, SplitFile(pieceLength, c, f, fileOffset, remaining), FileStart(lengths, f) + lengths[f])
    ensures SplitFile(pieceLength, c, f, fileOffset, remaining).offset > 0
    decreases remaining + (if c.left == 0 then 1 else 0), 0
  {
    var b := FileBlock(c.offset, f, fileOffset, c.left);
    AppendOk(pieceLength, lengths, c, b, FileStart(lengths, f) + fileOffset);
    var d := Cursor(c.mapping, c.current + [b], 0, c.offset + c.left);
    CloseOk(pieceLength, lengths, d, FileStart(lengths, f) + fileOffset + c.left);
    var c' := CloseStep(pieceLength, c, f, fileOffset);
    assert c' == Cursor(d.mapping + [d.current], [], pieceLength, 0);
    SplitFileOk(pieceLength, lengths, c', f, fileOffset + c.left, remaining - c.left);
  }

  /** Appending a block of its file at the fill level keeps the invariant, `size` bytes further on. */
  lemma AppendOk(pieceLength: nat, lengths: seq<nat>, c: Cursor, b: FileBlock, pos: nat)
    requires b.offset == c.offset && b.size <= c.left
    requires b.fileIndex < |lengths| && b.fileOffset + b.size <= lengths[b.fileIndex]
    requires pos == FileStart(lengths, b.fileIndex) + b.fileOffset
    requires CursorOk(pieceLength, lengths, c, pos)
    ensures CursorOk(pieceLength, lengths, Cursor(c.mapping, c.current + [b], c.left - b.size, c.offset + b.size), pos + b.size)
  {
    var i := |c.mapping|;
    var p := c.current + [b];
    assert Placed(pieceLength, lengths, i, b);
    ContiguousSnoc(c.current, b);
    BlocksSizeSnoc(c.current, b);
    forall k | 0 <= k < |p|
      ensures Placed(pieceLength, lengths, i, p[k])
    {
      if k < |c.current| { assert p[k] == c.current[k]; }
    }
  }

  /** Closing the open piece once it is full keeps the invariant. */
  lemma CloseOk(pieceLength: nat, lengths: seq<nat>, d: Cursor, pos: nat)
    requires d.left == 0
    requires CursorOk(pieceLength, lengths, d, pos)
    ensures CursorOk(pieceLength, lengths, Cursor(d.mapping + [d.current], [], pieceLength, 0), pos)
  {
    var m := d.mapping + [d.current];
    var i := |d.mapping|;
    MulSucc(i, pieceLength);
    forall j | 0 <= j < |m|
      ensures PieceOk(pieceLength, lengths, j, m[j]) && BlocksSize(m[j]) == pieceLength
    {
      if j < i { assert m[j] == d.mapping[j]; } else { assert m[j] == d.current; }
    }
    assert PieceOk(pieceLength, lengths, |m|, []);
  }

  /** The invariant after every file: pieces are placed, and once a piece is closed the open one is not empty. */
  lemma {:induction false} FoldOk(pieceLength: nat, lengths: seq<nat>, n: nat)
    requires n <= |lengths|
    requires Terminates(pieceLength, lengths)
    ensures CursorOk(pieceLength, lengths, Fold(pieceLength, lengths, n), FileStart(lengths, n))
    ensures Fold(pieceLength, lengths, n).mapping != [] ==> Fold(pieceLength, lengths, n).offset > 0
  {
    if n == 0 {
      assert PieceOk(pieceLength, lengths, 0, []);
    } else {
      FoldOk(pieceLength, lengths, n - 1);
      FileStartStep(lengths, n);
      assert pieceLength > 0 || lengths[n - 1] == 0;
      SplitFileOk(pieceLength, lengths, Fold(pieceLength, lengths, n - 1), n - 1, 0, lengths[n - 1]);
    }
  }

  // ---------------------------------------------------------------------------
  // The loop invariant on the flattened block list

  lemma RunCons(b: FileBlock, run: seq<FileBlock>, f: nat, to: nat)
    requires b.fileIndex == f
    requires RunOf(run, f, b.fileOffset + b.size, to)
    ensures RunOf([b] + run, f, b.fileOffset, to)
  {
    var r := [b] + run;
    forall k | 0 <= k < |r| - 1
      ensures r[k + 1].fileOffset == r[k].fileOffset + r[k].size
    {
      if k > 0 { assert r[k] == run[k - 1] && r[k + 1] == run[k]; }
    }
  }

  /** Each file adds to the flattened list a run of blocks covering the rest of the file. */
  lemma {:induction false} SplitFileFlat(pieceLength: nat, c: Cursor, f: nat, fileOffset: nat, remaining: nat)
    requires pieceLength > 0 || remaining == 0
    ensures var r := Flat(SplitFile(pieceLength, c, f, fileOffset, remaining));
            && |r| > |Flat(c)|
            && r[..|Flat(c)|] == Flat(c)
            && RunOf(r[|Flat(c)|..], f, fileOffset, fileOffset + remaining)
    decreases remaining + (if c.left == 0 then 1 else 0), 1
  {
    if c.left < remaining {
      ClosingSplitFlat(pieceLength, c, f, fileOffset, remaining);
    } else {
      var b := FileBlock(c.offset, f, fileOffset, remaining);
      var r := Flat(SplitFile(pieceLength, c, f, fileOffset, remaining));
      assert r == Flat(c) + [b];
      assert r[|Flat(c)|..] == [b];
    }
  }

  /** `SplitFileFlat` when the file closes the current piece. */
  lemma {:induction false} ClosingSplitFlat(pieceLength: nat, c: Cursor, f: nat, fileOffset: nat, remaining: nat)
    requires pieceLength > 0 && c.left < remaining
    ensures var r := Flat(SplitFile(pieceLength, c, f, fileOffset, remaining));
            && |r| > |Flat(c)|
            && r[..|Flat(c)|] == Flat(c)
            && RunOf(r[|Flat(c)|..], f, fileOffset, fileOffset + remaining)
    decreases remaining + (if c.left == 0 then 1 else 0), 0
  {
    var b := FileBlock(c.offset, f, fileOffset, c.left);
    var c' := CloseStep(pieceLength, c, f, fileOffset);
    FlattenSnoc(c.mapping, c.current + [b]);
    var front := Flat(c);
    assert Flat(c') == front + [b];
    SplitFileFlat(pieceLength, c', f, fileOffset + c.left, remaining - c.left);
    var r := Flat(SplitFile(pieceLength, c', f, fileOffset + c.left, remaining - c.left));
    assert r == Flat(SplitFile(pieceLength, c, f, fileOffset, remaining));
    PrependBlock(front, b, Flat(c'), r, f, (fileOffset + c.left) + (remaining - c.left));
    assert (fileOffset + c.left) + (remaining - c.left) == fileOffset + remaining;
  }

  /** A run that follows block `b` of the same file becomes, with `b` in front, a run from `b`'s start. */
  lemma PrependBlock(front: seq<FileBlock>, b: FileBlock, extended: seq<FileBlock>, r: seq<FileBlock>, f: nat, to: nat)
    requires extended == front + [b]
    requires b.fileIndex == f
    requires |r| > |extended| && r[..|extended|] == extended
    requires RunOf(r[|extended|..], f, b.fileOffset + b.size, to)
    ensures |r| > |front| && r[..|front|] == front
    ensures RunOf(r[|front|..], f, b.fileOffset, to)
  {
    PrefixAndRest(r, front, b);
    RunCons(b, r[|front| + 1..], f, to);
  }

  lemma PrefixAndRest(r: seq<FileBlock>, front: seq<FileBlock>, b: FileBlock)
    requires |r| > |front| + 1 && r[..|front| + 1] == front + [b]
    ensures r[..|front|] == front
    ensures r[|front|..] == [b] + r[|front| + 1..]
  {
    assert r[..|front|] == r[..|front| + 1][..|front|];
  }

  lemma TilesSnoc(blocks: seq<FileBlock>, run: seq<FileBlock>, lengths: seq<nat>, n: nat)
    requires n < |lengths|
    requires Tiles(blocks, lengths, n)
    requires RunOf(run, n, 0, lengths[n])
    ensures Tiles(blocks + run, lengths, n + 1)
  {
    var r := blocks + run;
    forall k | 0 <= k < |r| - 1
      ensures Successor(r[k], r[k + 1], lengths)
    {
      if k + 1 < |blocks| {
        assert r[k] == blocks[k] && r[k + 1] == blocks[k + 1];
      } else if k + 1 == |blocks| {
        assert r[k] == blocks[k] && r[k + 1] == run[0];
      } else {
        assert r[k] == run[k - |blocks|] && r[k + 1] == run[k - |blocks| + 1];
      }
    }
  }

  /** Splitting file `n` extends a tiling of the first `n` files to the first `n + 1`. */
  lemma TilesStep(pieceLength: nat, lengths: seq<nat>, c: Cursor, n: nat)
    requires n < |lengths| && (pieceLength > 0 || lengths[n] == 0)
    requires Tiles(Flat(c), lengths, n)
    ensures Tiles(Flat(SplitFile(pieceLength, c, n, 0, lengths[n])), lengths, n + 1)
  {
    SplitFileFlat(pieceLength, c, n, 0, lengths[n]);
    var r := Flat(SplitFile(pieceLength, c, n, 0, lengths[n]));
    var run := r[|Flat(c)|..];
    assert r == Flat(c) + run by {
      assert r == r[..|Flat(c)|] + run;
    }
    TilesSnoc(Flat(c), run, lengths, n);
  }

  lemma {:induction false} FoldTiles(pieceLength: nat, lengths: seq<nat>, n: nat)
    requires n <= |lengths|
    requires Terminates(pieceLength, lengths)
    ensures Tiles(Flat(Fold(pieceLength, lengths, n)), lengths, n)
  {
    if n > 0 {
      FoldTiles(pieceLength, lengths, n - 1);
      assert pieceLength > 0 || lengths[n - 1] == 0;
      TilesStep(pieceLength, lengths, Fold(pieceLength, lengths, n - 1), n - 1);
    }
  }
}
