/**
 * Gathering a piece from, and scattering it into, the byte ranges of the
 * files that its blocks name.  `contents[f]` stands for the bytes of file
 * `f`; these functions are what `read_piece` and `write_piece` compute.
 */
module PieceIo {
  import opened PieceLayout
  import opened SeqFacts
  import opened LayoutProperties

  type Byte = bv8

  /** Every block names a range inside an existing file. */
  predicate InFiles(contents: seq<seq<Byte>>, blocks: seq<FileBlock>)
  {
    forall k :: 0 <= k < |blocks| ==>
      blocks[k].fileIndex < |contents| && blocks[k].fileOffset + blocks[k].size <= |contents[blocks[k].fileIndex]|
  }

  /** Every block names a range inside a piece buffer of `len` bytes. */
  predicate InBuffer(blocks: seq<FileBlock>, len: nat)
  {
    forall k :: 0 <= k < |blocks| ==> blocks[k].offset + blocks[k].size <= len
  }

  /** The files have the given lengths. */
  predicate HasLengths(contents: seq<seq<Byte>>, lengths: seq<nat>)
  {
    |contents| == |lengths| && forall f :: 0 <= f < |lengths| ==> |contents[f]| == lengths[f]
  }

  /** The bytes one block names. */
  function ReadBlock(contents: seq<seq<Byte>>, b: FileBlock): seq<Byte>
    requires b.fileIndex < |contents| && b.fileOffset + b.size <= |contents[b.fileIndex]|
  {
    contents[b.fileIndex][b.fileOffset..b.fileOffset + b.size]
  }

  /** The bytes the blocks name, in block order. */
  function ReadBlocks(contents: seq<seq<Byte>>, blocks: seq<FileBlock>): (data: seq<Byte>)
    requires InFiles(contents, blocks)
    ensures |data| == BlocksSize(blocks)
  {
    if blocks == [] then []
    else ReadBlocks(contents, blocks[..|blocks| - 1]) + ReadBlock(contents, blocks[|blocks| - 1])
  }

  /** `s` with `t` written over it from position `at` on. */
  function Splice(s: seq<Byte>, at: nat, t: seq<Byte>): (r: seq<Byte>)
    requires at + |t| <= |s|
    ensures |r| == |s|
    ensures r[at..at + |t|] == t
    ensures forall x :: 0 <= x < |s| && !(at <= x < at + |t|) ==> r[x] == s[x]
  {
    s[..at] + t + s[at + |t|..]
  }

  /** The files after block `b`'s bytes of `data` are copied into its file range. */
  function WriteBlock(contents: seq<seq<Byte>>, b: FileBlock, data: seq<Byte>): (r: seq<seq<Byte>>)
    requires b.fileIndex < |contents| && b.fileOffset + b.size <= |contents[b.fileIndex]|
    requires b.offset + b.size <= |data|
    ensures |r| == |contents| && forall f :: 0 <= f < |contents| ==> |r[f]| == |contents[f]|
    ensures forall f :: 0 <= f < |contents| && f != b.fileIndex ==> r[f] == contents[f]
    ensures ReadBlock(r, b) == data[b.offset..b.offset + b.size]
  {
    contents[b.fileIndex := Splice(contents[b.fileIndex], b.fileOffset, data[b.offset..b.offset + b.size])]
  }

  /** The files after every block's bytes of `data` are copied, in block order. */
  function WriteBlocks(contents: seq<seq<Byte>>, blocks: seq<FileBlock>, data: seq<Byte>): (r: seq<seq<Byte>>)
    requires InFiles(contents, blocks) && InBuffer(blocks, |data|)
    ensures |r| == |contents| && forall f :: 0 <= f < |contents| ==> |r[f]| == |contents[f]|
  {
    if blocks == [] then contents
    else
      var before := WriteBlocks(contents, blocks[..|blocks| - 1], data);
      WriteBlock(before, blocks[|blocks| - 1], data)
  }

  /** The number of leading blocks whose range fits in a buffer of `len` bytes. */
  function FitCount(blocks: seq<FileBlock>, len: nat): (k: nat)
    ensures k <= |blocks|
    ensures forall j :: 0 <= j < k ==> blocks[j].offset + blocks[j].size <= len
    ensures InBuffer(blocks[..k], len)
    ensures k < |blocks| ==> blocks[k].offset + blocks[k].size > len
  {
    if blocks == [] || blocks[0].offset + blocks[0].size > len then 0
    else
      var k := 1 + FitCount(blocks[1..], len);
      assert forall j :: 1 <= j < k ==> blocks[..k][j] == blocks[1..][..k - 1][j - 1];
      k
  }

  /** The bytes of all files, in file order: the payload stream of BEP 3. */
  function Concat(contents: seq<seq<Byte>>): (stream: seq<Byte>)
  {
    if contents == [] then [] else Concat(contents[..|contents| - 1]) + contents[|contents| - 1]
  }

  /** Pairwise disjoint file ranges. */
  ghost predicate AllDisjoint(blocks: seq<FileBlock>)
  {
    forall j, k :: 0 <= j < k < |blocks| ==> Disjoint(blocks[j], blocks[k])
  }

  // ---------------------------------------------------------------------------
  // Lemmas

  lemma InFilesPrefix(contents: seq<seq<Byte>>, blocks: seq<FileBlock>, k: nat)
    requires InFiles(contents, blocks) && k <= |blocks|
    ensures InFiles(contents, blocks[..k])
  {
  }

  /** Writing into a range disjoint from every block leaves what the blocks read unchanged. */
  lemma {:induction false} ReadAfterDisjointWrite(contents: seq<seq<Byte>>, b: FileBlock, data: seq<Byte>, blocks: seq<FileBlock>)
    requires b.fileIndex < |contents| && b.fileOffset + b.size <= |contents[b.fileIndex]|
    requires b.offset + b.size <= |data|
    requires InFiles(contents, blocks)
    requires forall k :: 0 <= k < |blocks| ==> Disjoint(blocks[k], b)
    ensures InFiles(WriteBlock(contents, b, data), blocks)
    ensures ReadBlocks(WriteBlock(contents, b, data), blocks) == ReadBlocks(contents, blocks)
  {
    var w := WriteBlock(contents, b, data);
    assert InFiles(w, blocks) by {
      forall k | 0 <= k < |blocks|
        ensures blocks[k].fileIndex < |w| && blocks[k].fileOffset + blocks[k].size <= |w[blocks[k].fileIndex]|
      {
        assert |w[blocks[k].fileIndex]| == |contents[blocks[k].fileIndex]|;
      }
    }
    if blocks != [] {
      var a := blocks[|blocks| - 1];
      var front := blocks[..|blocks| - 1];
      ReadAfterDisjointWrite(contents, b, data, front);
      if a.fileIndex == b.fileIndex {
        var s := contents[a.fileIndex];
        var t := Splice(s, b.fileOffset, data[b.offset..b.offset + b.size]);
        assert w[a.fileIndex] == t;
        forall x | 0 <= x < a.size
          ensures ReadBlock(w, a)[x] == ReadBlock(contents, a)[x]
        {
          assert t[a.fileOffset + x] == s[a.fileOffset + x];
        }
      }
      assert ReadBlock(w, a) == ReadBlock(contents, a);
    }
  }

  /** Writing blocks that are disjoint from `blocks` leaves what `blocks` read unchanged. */
  lemma {:induction false} ReadAfterDisjointWrites(contents: seq<seq<Byte>>, written: seq<FileBlock>, data: seq<Byte>, blocks: seq<FileBlock>)
    requires InFiles(contents, written) && InBuffer(written, |data|)
    requires InFiles(contents, blocks)
    requires forall j, k :: 0 <= j < |written| && 0 <= k < |blocks| ==> Disjoint(blocks[k], written[j])
    ensures InFiles(WriteBlocks(contents, written, data), blocks)
    ensures ReadBlocks(WriteBlocks(contents, written, data), blocks) == ReadBlocks(contents, blocks)
  {
    if written != [] {
      var front := written[..|written| - 1];
      var b := written[|written| - 1];
      ReadAfterDisjointWrites(contents, front, data, blocks);
      var before := WriteBlocks(contents, front, data);
      ReadAfterDisjointWrite(before, b, data, blocks);
    }
  }

  /**
   * Scattering `data` into contiguous blocks with disjoint file ranges and
   * gathering them again gives back the first `BlocksSize(blocks)` bytes.
   */
  lemma {:induction false} ReadAfterWrite(contents: seq<seq<Byte>>, blocks: seq<FileBlock>, data: seq<Byte>)
    requires InFiles(contents, blocks) && InBuffer(blocks, |data|)
    requires Contiguous(blocks) && AllDisjoint(blocks)
    ensures BlocksSize(blocks) <= |data|
    ensures InFiles(WriteBlocks(contents, blocks, data), blocks)
    ensures ReadBlocks(WriteBlocks(contents, blocks, data), blocks) == data[..BlocksSize(blocks)]
  {
    WriteKeepsInFiles(contents, blocks, data, blocks);
    if blocks != [] {
      var n := |blocks| - 1;
      var front := blocks[..n];
      var b := blocks[n];
      ContiguousPrefix(blocks, n);
      assert AllDisjoint(front) by {
        forall j, k | 0 <= j < k < n ensures Disjoint(front[j], front[k]) {
          assert front[j] == blocks[j] && front[k] == blocks[k];
        }
      }
      ReadAfterWrite(contents, front, data);
      LastSplit(blocks);
      forall k | 0 <= k < n ensures Disjoint(front[k], b) {
        assert front[k] == blocks[k];
      }
      assert b.offset == BlocksSize(front);
      LastWriteStep(WriteBlocks(contents, front, data), front, b, data);
    }
  }

  /** Writing one more block after the blocks that read back the start of `data` reads back one block more of it. */
  lemma LastWriteStep(before: seq<seq<Byte>>, front: seq<FileBlock>, b: FileBlock, data: seq<Byte>)
    requires InFiles(before, front)
    requires b.fileIndex < |before| && b.fileOffset + b.size <= |before[b.fileIndex]|
    requires b.offset == BlocksSize(front) && b.offset + b.size <= |data|
    requires forall k :: 0 <= k < |front| ==> Disjoint(front[k], b)
    requires ReadBlocks(before, front) == data[..BlocksSize(front)]
    ensures BlocksSize(front + [b]) <= |data|
    ensures ReadBlocks(WriteBlock(before, b, data), front + [b]) == data[..BlocksSize(front + [b])]
  {
    var after := WriteBlock(before, b, data);
    ReadAfterDisjointWrite(before, b, data, front);
    BlocksSizeSnoc(front, b);
    ReadBlocksSnoc(after, front, b);
    assert BlocksSize(front + [b]) == b.offset + b.size;
    PrefixJoin(data, b.offset, b.offset + b.size);
  }

  /** Reading one block more appends that block's bytes. */
  lemma ReadBlocksSnoc(contents: seq<seq<Byte>>, front: seq<FileBlock>, b: FileBlock)
    requires InFiles(contents, front)
    requires b.fileIndex < |contents| && b.fileOffset + b.size <= |contents[b.fileIndex]|
    ensures InFiles(contents, front + [b])
    ensures ReadBlocks(contents, front + [b]) == ReadBlocks(contents, front) + ReadBlock(contents, b)
  {
    var blocks := front + [b];
    assert forall k :: 0 <= k < |front| ==> blocks[k] == front[k];
    assert blocks[..|front|] == front;
  }

  lemma ContiguousPrefix(blocks: seq<FileBlock>, n: nat)
    requires Contiguous(blocks) && n <= |blocks|
    ensures Contiguous(blocks[..n])
  {
    var front := blocks[..n];
    forall k | 0 <= k < |front| ensures front[k].offset == BlocksSize(front[..k]) {
      assert front[..k] == blocks[..k];
    }
  }

  lemma WriteKeepsInFiles(contents: seq<seq<Byte>>, written: seq<FileBlock>, data: seq<Byte>, blocks: seq<FileBlock>)
    requires InFiles(contents, written) && InBuffer(written, |data|)
    requires InFiles(contents, blocks)
    ensures InFiles(WriteBlocks(contents, written, data), blocks)
  {
    var w := WriteBlocks(contents, written, data);
    forall k | 0 <= k < |blocks|
      ensures blocks[k].fileIndex < |w| && blocks[k].fileOffset + blocks[k].size <= |w[blocks[k].fileIndex]|
    {
      assert |w[blocks[k].fileIndex]| == |contents[blocks[k].fileIndex]|;
    }
  }

  /** Byte `x` of file `f` is byte `FileStart(f) + x` of the payload stream. */
  lemma {:induction false} ConcatAt(contents: seq<seq<Byte>>, lengths: seq<nat>, f: nat, x: nat)
    requires HasLengths(contents, lengths)
    requires f < |contents| && x < |contents[f]|
    ensures |Concat(contents)| == Sum(lengths)
    ensures FileStart(lengths, f) + x < |Concat(contents)|
    ensures Concat(contents)[FileStart(lengths, f) + x] == contents[f][x]
  {
    var n := |contents| - 1;
    var front := contents[..n];
    assert lengths[..n + 1] == lengths;
    ConcatLength(front, lengths[..n]);
    assert |Concat(contents)| == Sum(lengths);
    if f < n {
      ConcatAt(front, lengths[..n], f, x);
      assert lengths[..n][..f] == lengths[..f];
    } else {
      assert contents[..n] == front;
    }
  }

  lemma {:induction false} ConcatLength(contents: seq<seq<Byte>>, lengths: seq<nat>)
    requires HasLengths(contents, lengths)
    ensures |Concat(contents)| == Sum(lengths)
  {
    if contents != [] {
      var n := |contents| - 1;
      ConcatLength(contents[..n], lengths[..n]);
    }
  }

  /** Writing changes no byte outside the file ranges of the written blocks. */
  lemma {:induction false} WriteOnlyInRanges(contents: seq<seq<Byte>>, written: seq<FileBlock>, data: seq<Byte>, f: nat, x: nat)
    requires InFiles(contents, written) && InBuffer(written, |data|)
    requires f < |contents| && x < |contents[f]|
    requires forall k :: 0 <= k < |written| && written[k].fileIndex == f ==>
               !(written[k].fileOffset <= x < written[k].fileOffset + written[k].size)
    ensures WriteBlocks(contents, written, data)[f][x] == contents[f][x]
  {
    if written != [] {
      var n := |written| - 1;
      WriteOnlyInRanges(contents, written[..n], data, f, x);
      var before := WriteBlocks(contents, written[..n], data);
      var b := written[n];
      if b.fileIndex == f {
        assert WriteBlock(before, b, data)[f]
            == Splice(before[f], b.fileOffset, data[b.offset..b.offset + b.size]);
      }
    }
  }

  // ---------------------------------------------------------------------------
  // Reading and writing the pieces of a layout

  /** Over files of the right lengths, every block of the layout names bytes inside its file. */
  lemma LayoutInFiles(pieceLength: nat, lengths: seq<nat>, contents: seq<seq<Byte>>, i: nat)
    requires Terminates(pieceLength, lengths)
    requires HasLengths(contents, lengths)
    requires i < |Layout(pieceLength, lengths)|
    ensures InFiles(contents, Layout(pieceLength, lengths)[i])
  {
    LayoutPieces(pieceLength, lengths, i);
    var piece := Layout(pieceLength, lengths)[i];
    forall k | 0 <= k < |piece|
      ensures piece[k].fileIndex < |contents| && piece[k].fileOffset + piece[k].size <= |contents[piece[k].fileIndex]|
    {
      assert Placed(pieceLength, lengths, i, piece[k]);
    }
  }

  /** A buffer of at least a piece's size holds the range of each of its blocks. */
  lemma PieceInBuffer(piece: seq<FileBlock>, len: nat)
    requires Contiguous(piece)
    requires BlocksSize(piece) <= len
    ensures InBuffer(piece, len)
  {
    forall k | 0 <= k < |piece| ensures piece[k].offset + piece[k].size <= len {
      BlockEndsWithinPiece(piece, k);
    }
  }

  /** A contiguous piece whose blocks all fit in a buffer of `len` bytes is no longer than `len`. */
  lemma BufferHoldsPiece(piece: seq<FileBlock>, len: nat)
    requires Contiguous(piece) && InBuffer(piece, len)
    ensures BlocksSize(piece) <= len
  {
    if piece != [] {
      var n := |piece| - 1;
      assert piece[..n + 1] == piece;
      assert piece[n].offset == BlocksSize(piece[..n]);
    }
  }

  /**
   * Round trip: after piece `i` is written from `data`, holding at least the
   * piece's size, reading piece `i` gives the first `BlocksSize` bytes of `data`.
   */
  lemma PieceRoundTrip(pieceLength: nat, lengths: seq<nat>, contents: seq<seq<Byte>>, i: nat, data: seq<Byte>)
    requires Terminates(pieceLength, lengths)
    requires HasLengths(contents, lengths)
    requires i < |Layout(pieceLength, lengths)|
    requires BlocksSize(Layout(pieceLength, lengths)[i]) <= |data|
    ensures var piece := Layout(pieceLength, lengths)[i];
            && InFiles(contents, piece) && InBuffer(piece, |data|)
            && InFiles(WriteBlocks(contents, piece, data), piece)
            && ReadBlocks(WriteBlocks(contents, piece, data), piece) == data[..BlocksSize(piece)]
  {
    var layout := Layout(pieceLength, lengths);
    var piece := layout[i];
    LayoutPieces(pieceLength, lengths, i);
    LayoutInFiles(pieceLength, lengths, contents, i);
    PieceInBuffer(piece, |data|);
    forall j, k | 0 <= j < k < |piece| ensures Disjoint(piece[j], piece[k]) {
      LayoutDisjoint(pieceLength, lengths, i, j, i, k);
    }
    ReadAfterWrite(contents, piece, data);
  }

  /**
   * Frame: writing any leading blocks of piece `i` leaves what every other
   * piece reads unchanged.
   */
  lemma PieceFrame(pieceLength: nat, lengths: seq<nat>, contents: seq<seq<Byte>>, i: nat, n: nat, data: seq<Byte>, j: nat)
    requires Terminates(pieceLength, lengths)
    requires HasLengths(contents, lengths)
    requires i < |Layout(pieceLength, lengths)| && j < |Layout(pieceLength, lengths)| && i != j
    requires n <= |Layout(pieceLength, lengths)[i]|
    requires InBuffer(Layout(pieceLength, lengths)[i][..n], |data|)
    ensures var written := Layout(pieceLength, lengths)[i][..n];
            var other := Layout(pieceLength, lengths)[j];
            && InFiles(contents, written) && InFiles(contents, other)
            && InFiles(WriteBlocks(contents, written, data), other)
            && ReadBlocks(WriteBlocks(contents, written, data), other) == ReadBlocks(contents, other)
  {
    var layout := Layout(pieceLength, lengths);
    var written := layout[i][..n];
    var other := layout[j];
    LayoutInFiles(pieceLength, lengths, contents, i);
    LayoutInFiles(pieceLength, lengths, contents, j);
    forall a, k | 0 <= a < |written| && 0 <= k < |other| ensures Disjoint(other[k], written[a]) {
      LayoutDisjoint(pieceLength, lengths, j, k, i, a);
    }
    ReadAfterDisjointWrites(contents, written, data, other);
  }

  /**
   * Stream view: piece `i` reads the bytes `[i * pieceLength, i * pieceLength + size)`
   * of the concatenation of all files, as BEP 3 defines pieces.
   */
  lemma PieceInStream(pieceLength: nat, lengths: seq<nat>, contents: seq<seq<Byte>>, i: nat)
    requires Terminates(pieceLength, lengths)
    requires HasLengths(contents, lengths)
    requires i < |Layout(pieceLength, lengths)|
    ensures var piece := Layout(pieceLength, lengths)[i];
            && InFiles(contents, piece)
            && i * pieceLength + BlocksSize(piece) <= |Concat(contents)|
            && ReadBlocks(contents, piece) == Concat(contents)[i * pieceLength..i * pieceLength + BlocksSize(piece)]
  {
    var piece := Layout(pieceLength, lengths)[i];
    LayoutPieces(pieceLength, lengths, i);
    LayoutInFiles(pieceLength, lengths, contents, i);
    ConcatLength(contents, lengths);
    PrefixInStream(pieceLength, lengths, contents, i, piece, |piece|);
    assert piece[..|piece|] == piece;
  }

  lemma {:induction false} PrefixInStream(pieceLength: nat, lengths: seq<nat>, contents: seq<seq<Byte>>, i: nat, piece: seq<FileBlock>, n: nat)
    requires HasLengths(contents, lengths)
    requires PieceOk(pieceLength, lengths, i, piece) && 0 < |piece| && n <= |piece|
    requires InFiles(contents, piece)
    ensures InFiles(contents, piece[..n])
    ensures i * pieceLength + BlocksSize(piece[..n]) <= |Concat(contents)|
    ensures ReadBlocks(contents, piece[..n]) == Concat(contents)[i * pieceLength..i * pieceLength + BlocksSize(piece[..n])]
  {
    if n > 0 {
      PrefixInStream(pieceLength, lengths, contents, i, piece, n - 1);
      PrefixStep(pieceLength, lengths, contents, i, piece, n);
    } else {
      assert Placed(pieceLength, lengths, i, piece[0]);
      BlockInStream(contents, lengths, piece[0], i * pieceLength + piece[0].offset);
    }
  }

  /** The induction step of `PrefixInStream`: block `n - 1` extends what the first `n - 1` blocks read. */
  lemma PrefixStep(pieceLength: nat, lengths: seq<nat>, contents: seq<seq<Byte>>, i: nat, piece: seq<FileBlock>, n: nat)
    requires HasLengths(contents, lengths)
    requires PieceOk(pieceLength, lengths, i, piece) && 0 < n <= |piece|
    requires InFiles(contents, piece)
    requires InFiles(contents, piece[..n - 1])
    requires i * pieceLength + BlocksSize(piece[..n - 1]) <= |Concat(contents)|
    requires ReadBlocks(contents, piece[..n - 1])
             == Concat(contents)[i * pieceLength..i * pieceLength + BlocksSize(piece[..n - 1])]
    ensures InFiles(contents, piece[..n])
    ensures i * pieceLength + BlocksSize(piece[..n]) <= |Concat(contents)|
    ensures ReadBlocks(contents, piece[..n]) == Concat(contents)[i * pieceLength..i * pieceLength + BlocksSize(piece[..n])]
  {
    var b := piece[n - 1];
    var front := piece[..n - 1];
    assert piece[..n] == front + [b];
    assert Placed(pieceLength, lengths, i, b);
    assert b.offset == BlocksSize(front);
    BlockInStream(contents, lengths, b, i * pieceLength + b.offset);
    StreamStep(contents, front, b, Concat(contents), i * pieceLength);
  }

  /** A block whose bytes follow, in `stream`, the bytes read so far extends the read by them. */
  lemma StreamStep(contents: seq<seq<Byte>>, front: seq<FileBlock>, b: FileBlock, stream: seq<Byte>, lo: nat)
    requires InFiles(contents, front)
    requires b.fileIndex < |contents| && b.fileOffset + b.size <= |contents[b.fileIndex]|
    requires lo + BlocksSize(front) + b.size <= |stream|
    requires ReadBlocks(contents, front) == stream[lo..lo + BlocksSize(front)]
    requires ReadBlock(contents, b) == stream[lo + BlocksSize(front)..lo + BlocksSize(front) + b.size]
    ensures InFiles(contents, front + [b])
    ensures lo + BlocksSize(front + [b]) <= |stream|
    ensures ReadBlocks(contents, front + [b]) == stream[lo..lo + BlocksSize(front + [b])]
  {
    BlocksSizeSnoc(front, b);
    ReadBlocksSnoc(contents, front, b);
    var mid := lo + BlocksSize(front);
    JoinInStream(ReadBlocks(contents, front), ReadBlock(contents, b), ReadBlocks(contents, front + [b]),
                 stream, lo, mid, mid + b.size, lo + BlocksSize(front + [b]));
  }

  /** Two reads that follow each other in `stream` join into one. */
  lemma JoinInStream(x: seq<Byte>, y: seq<Byte>, xy: seq<Byte>, stream: seq<Byte>, lo: nat, mid: nat, hi: nat, hi': nat)
    requires lo <= mid <= hi <= |stream| && hi == hi'
    requires xy == x + y && x == stream[lo..mid] && y == stream[mid..hi]
    ensures xy == stream[lo..hi']
  {
    SliceJoin(stream, lo, mid, hi);
  }

  /** The bytes one block names are the stream bytes from the block's stream position on. */
  lemma BlockInStream(contents: seq<seq<Byte>>, lengths: seq<nat>, b: FileBlock, start: nat)
    requires HasLengths(contents, lengths)
    requires b.fileIndex < |contents| && b.fileOffset + b.size <= |contents[b.fileIndex]|
    requires start == FileStart(lengths, b.fileIndex) + b.fileOffset
    ensures start + b.size <= |Concat(contents)|
    ensures ReadBlock(contents, b) == Concat(contents)[start..start + b.size]
  {
    ConcatLength(contents, lengths);
    FileEnd(lengths, b.fileIndex);
    forall x | 0 <= x < b.size
      ensures ReadBlock(contents, b)[x] == Concat(contents)[start..start + b.size][x]
    {
      ConcatAt(contents, lengths, b.fileIndex, b.fileOffset + x);
    }
    assert |ReadBlock(contents, b)| == b.size == |Concat(contents)[start..start + b.size]|;
  }

  /** A file ends no later than the payload stream. */
  lemma FileEnd(lengths: seq<nat>, f: nat)
    requires f < |lengths|
    ensures FileStart(lengths, f) + lengths[f] <= Sum(lengths)
  {
    SumSnoc(lengths, f);
    SumPrefix(lengths, f + 1);
  }

  lemma {:induction false} SumPrefix(lengths: seq<nat>, n: nat)
    requires n <= |lengths|
    ensures Sum(lengths[..n]) <= Sum(lengths)
    decreases |lengths| - n
  {
    if n < |lengths| {
      SumPrefix(lengths, n + 1);
      SumSnoc(lengths, n);
    } else {
      assert lengths[..n] == lengths;
    }
  }
}
