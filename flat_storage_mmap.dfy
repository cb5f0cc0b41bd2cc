/**
 * The memory-mapped storage back end: one byte buffer per file, and the
 * piece-to-file layout that `read_piece` and `write_piece` go through.
 */
module FlatStorageMmap {
  import opened Outcomes
  import FlatStorage
  import opened PieceLayout
  import opened LayoutProperties
  import opened PieceIo
  import opened SeqFacts

  /** A failure of the file system while a file is created, resized or mapped. */
  datatype IoError = IoError

  /** The layout loop of the storage crate: pieces of `pieceSize` bytes over `files`. */
  method MapPiecesToFiles(pieceSize: nat, files: seq<FlatStorage.FlatStorageFile>) returns (mapping: seq<seq<FileBlock>>)
    requires Terminates(pieceSize, FlatStorage.Lengths(files))
    ensures mapping == Layout(pieceSize, FlatStorage.Lengths(files))
  {
    ghost var lengths := FlatStorage.Lengths(files);
    var currentPieceLeft := pieceSize;
    var currentPiece: seq<FileBlock> := [];
    var offset := 0;
    mapping := [];
    for fileIndex := 0 to |files|
      invariant Cursor(mapping, currentPiece, currentPieceLeft, offset) == Fold(pieceSize, lengths, fileIndex)
    {
      var fileRemainingLength := files[fileIndex].length;
      var fileOffset := 0;
      while currentPieceLeft < fileRemainingLength
        invariant pieceSize > 0 || fileRemainingLength == 0
        invariant SplitFile(pieceSize, Cursor(mapping, currentPiece, currentPieceLeft, offset), fileIndex, fileOffset, fileRemainingLength)
                  == Fold(pieceSize, lengths, fileIndex + 1)
        decreases fileRemainingLength + (if currentPieceLeft == 0 then 1 else 0)
      {
        currentPiece := currentPiece + [FileBlock(offset, fileIndex, fileOffset, currentPieceLeft)];
        fileRemainingLength := fileRemainingLength - currentPieceLeft;
        fileOffset := fileOffset + currentPieceLeft;
        currentPieceLeft := pieceSize;
        mapping := mapping + [currentPiece];
        currentPiece := [];
        offset := 0;
      }
      if currentPieceLeft >= fileRemainingLength {
        currentPiece := currentPiece + [FileBlock(offset, fileIndex, fileOffset, fileRemainingLength)];
        currentPieceLeft := currentPieceLeft - fileRemainingLength;
        offset := offset + fileRemainingLength;
      }
    }
    if currentPiece != [] {
      mapping := mapping + [currentPiece];
    }
  }

  /** A file after `set_len(length)`: cut to `length` bytes, or extended with zero bytes. */
  function SetLen(existing: seq<Byte>, length: nat): (bytes: seq<Byte>)
    ensures |bytes| == length
    ensures forall x :: 0 <= x < length ==> bytes[x] == (if x < |existing| then existing[x] else 0)
  {
    if length <= |existing| then existing[..length]
    else existing + seq(length - |existing|, _ => 0)
  }

  /**
   * One buffer per file, in file order.  `existing[f]` stands for what is on
   * disk at file `f`'s path beforehand (empty for a missing file), and
   * `ioFailure`, when it names a file, is the first file whose creation,
   * resizing or mapping fails.
   */
  method LoadFiles(files: seq<FlatStorage.FlatStorageFile>, existing: seq<seq<Byte>>, ioFailure: Option<nat>)
    returns (r: Result<seq<array<Byte>>, IoError>)
    requires |existing| == |files|
    ensures r.Err? <==> ioFailure.Some? && ioFailure.value < |files|
    ensures r.Ok? ==> |r.value| == |files|
    ensures r.Ok? ==> forall f :: 0 <= f < |files| ==> fresh(r.value[f]) && r.value[f][..] == SetLen(existing[f], files[f].length)
    ensures r.Ok? ==> forall f, g :: 0 <= f < g < |files| ==> r.value[f] != r.value[g]
  {
    var result: seq<array<Byte>> := [];
    for f := 0 to |files|
      invariant |result| == f
      invariant ioFailure.Some? ==> ioFailure.value >= f
      invariant forall g :: 0 <= g < f ==> fresh(result[g]) && result[g][..] == SetLen(existing[g], files[g].length)
      invariant forall g, h :: 0 <= g < h < f ==> result[g] != result[h]
    {
      if ioFailure == Some(f) {
        return Err(IoError);
      }
      var bytes := SetLen(existing[f], files[f].length);
      var buffer := new Byte[files[f].length](x requires 0 <= x < files[f].length => bytes[x]);
      result := result + [buffer];
    }
    r := Ok(result);
  }

  /** The loop of `read_piece`: the bytes `piece` names in the buffers, block after block. */
  method ReadBlocksFrom(fileHandles: seq<array<Byte>>, ghost contents: seq<seq<Byte>>, piece: seq<FileBlock>)
    returns (result: seq<Byte>)
    requires |contents| == |fileHandles|
    requires forall f :: 0 <= f < |fileHandles| ==> contents[f] == fileHandles[f][..]
    requires InFiles(contents, piece)
    ensures result == ReadBlocks(contents, piece)
  {
    result := [];
    for k := 0 to |piece|
      invariant InFiles(contents, piece[..k])
      invariant result == ReadBlocks(contents, piece[..k])
    {
      var fileBlock := piece[k];
      var f := fileHandles[fileBlock.fileIndex];
      var bytes := f[fileBlock.fileOffset..fileBlock.fileOffset + fileBlock.size];
      assert bytes == ReadBlock(contents, fileBlock);
      PrefixSnoc(piece, k);
      ReadBlocksSnoc(contents, piece[..k], fileBlock);
      result := result + bytes;
    }
    assert piece[..|piece|] == piece;
  }

  /** The storage: the files, one buffer per file, and the layout of the pieces over them. */
  class MmapFlatStorage {
    const files: seq<FlatStorage.FlatStorageFile>
    const fileHandles: seq<array<Byte>>
    const mapping: seq<seq<FileBlock>>
    ghost const pieceSize: nat

    /** One buffer of the file's length per file, no buffer shared, and the layout for `pieceSize`. */
    ghost predicate Valid()
    {
      && Terminates(pieceSize, FlatStorage.Lengths(files))
      && mapping == Layout(pieceSize, FlatStorage.Lengths(files))
      && |fileHandles| == |files|
      && (forall f :: 0 <= f < |files| ==> fileHandles[f].Length == files[f].length)
      && (forall f, g :: 0 <= f < g < |files| ==> fileHandles[f] != fileHandles[g])
    }

    /** The bytes of every file. */
    function Contents(): (contents: seq<seq<Byte>>)
      reads fileHandles
      ensures |contents| == |fileHandles|
      ensures forall f :: 0 <= f < |fileHandles| ==> contents[f] == fileHandles[f][..]
    {
      seq(|fileHandles|, f requires 0 <= f < |fileHandles| reads fileHandles => fileHandles[f][..])
    }

    constructor (files: seq<FlatStorage.FlatStorageFile>, fileHandles: seq<array<Byte>>, mapping: seq<seq<FileBlock>>, ghost pieceSize: nat)
      requires Terminates(pieceSize, FlatStorage.Lengths(files))
      requires mapping == Layout(pieceSize, FlatStorage.Lengths(files))
      requires |fileHandles| == |files|
      requires forall f :: 0 <= f < |files| ==> fileHandles[f].Length == files[f].length
      requires forall f, g :: 0 <= f < g < |files| ==> fileHandles[f] != fileHandles[g]
      ensures Valid()
      ensures this.files == files && this.fileHandles == fileHandles && this.mapping == mapping
      ensures this.pieceSize == pieceSize
    {
      this.files := files;
      this.fileHandles := fileHandles;
      this.mapping := mapping;
      this.pieceSize := pieceSize;
    }

    /**
     * `create`: the layout first, then one buffer per file.  The layout loop
     * does not end for `pieceSize == 0` and a non-empty payload.
     */
    static method Create(pieceSize: nat, files: seq<FlatStorage.FlatStorageFile>, existing: seq<seq<Byte>>, ioFailure: Option<nat>)
      returns (r: Result<MmapFlatStorage, IoError>)
      requires Terminates(pieceSize, FlatStorage.Lengths(files))
      requires |existing| == |files|
      ensures r.Err? <==> ioFailure.Some? && ioFailure.value < |files|
      ensures r.Ok? ==> && fresh(r.value) && r.value.Valid()
                        && r.value.files == files && r.value.pieceSize == pieceSize
                        && r.value.Contents() == seq(|files|, f requires 0 <= f < |files| => SetLen(existing[f], files[f].length))
      ensures r.Ok? ==> forall f :: 0 <= f < |files| ==> fresh(r.value.fileHandles[f])
    {
      var mapping := MapPiecesToFiles(pieceSize, files);
      var handles := LoadFiles(files, existing, ioFailure);
      if handles.Err? {
        return Err(handles.error);
      }
      var storage := new MmapFlatStorage(files, handles.value, mapping, pieceSize);
      r := Ok(storage);
    }

    /** `read_piece`: the bytes the blocks of piece `index` name, in block order. */
    method ReadPiece(index: nat) returns (r: Result<Result<Option<seq<Byte>>, FlatStorage.FlatStorageError>, Panic>)
      requires Valid()
      ensures index >= |mapping| ==> r == Err(Panic)
      ensures index < |mapping| ==>
                HasLengths(Contents(), FlatStorage.Lengths(files))
                && InFiles(Contents(), mapping[index])
                && r == Ok(Ok(Some(ReadBlocks(Contents(), mapping[index]))))
    {
      if index >= |mapping| {
        return Err(Panic);
      }
      PieceInFiles(index);
      var bytes := ReadBlocksFrom(fileHandles, Contents(), mapping[index]);
      r := Ok(Ok(Some(bytes)));
    }

    /**
     * `write_piece`: copies each block's bytes of `block` into its file range,
     * in block order, until a block's range runs past the end of `block`,
     * where slicing panics with the earlier blocks already written.  When it
     * returns, piece `index` reads back as the prefix of `block`, and every
     * other piece reads as before, also after a panic.
     */
    method WritePiece(index: nat, block: seq<Byte>) returns (r: Result<Result<(), FlatStorage.FlatStorageError>, Panic>)
      requires Valid()
      modifies fileHandles
      ensures index >= |mapping| ==> r == Err(Panic) && Contents() == old(Contents())
      ensures index < |mapping| ==>
                var piece := mapping[index];
                var n := FitCount(piece, |block|);
                && HasLengths(old(Contents()), FlatStorage.Lengths(files))
                && InFiles(old(Contents()), piece[..n])
                && Contents() == WriteBlocks(old(Contents()), piece[..n], block)
                && r == (if n == |piece| then Ok(Ok(())) else Err(Panic))
      ensures index < |mapping| && r.Ok? ==>
                && InFiles(Contents(), mapping[index])
                && BlocksSize(mapping[index]) <= |block|
                && ReadBlocks(Contents(), mapping[index]) == block[..BlocksSize(mapping[index])]
      ensures forall j :: 0 <= j < |mapping| && j != index ==>
                && InFiles(Contents(), mapping[j]) && InFiles(old(Contents()), mapping[j])
                && ReadBlocks(Contents(), mapping[j]) == ReadBlocks(old(Contents()), mapping[j])
    {
      ghost var contents := Contents();
      if index >= |mapping| {
        OthersUnchanged(contents, index, 0, block);
        return Err(Panic);
      }
      PieceInFiles(index);
      var piece := mapping[index];
      var k := CopyBlocks(piece, block);
      if k < |piece| {
        OthersUnchanged(contents, index, k, block);
        return Err(Panic);
      }
      assert piece[..k] == piece;
      OthersUnchanged(contents, index, k, block);
      LayoutPieces(pieceSize, FlatStorage.Lengths(files), index);
      BufferHoldsPiece(piece, |block|);
      PieceRoundTrip(pieceSize, FlatStorage.Lengths(files), contents, index, block);
      assert ReadBlocks(Contents(), piece) == block[..BlocksSize(piece)];
      r := Ok(Ok(()));
    }

    /**
     * The loop of `write_piece`: copies the blocks of `piece` in order and
     * stops at the first block whose range runs past the end of `block`,
     * where slicing panics; `k` blocks have been written.
     */
    method CopyBlocks(piece: seq<FileBlock>, block: seq<Byte>) returns (k: nat)
      requires Valid()
      requires InFiles(Contents(), piece)
      modifies fileHandles
      ensures k == FitCount(piece, |block|)
      ensures InFiles(old(Contents()), piece[..k]) && InBuffer(piece[..k], |block|)
      ensures Contents() == WriteBlocks(old(Contents()), piece[..k], block)
    {
      ghost var contents := Contents();
      ghost var n := FitCount(piece, |block|);
      k := 0;
      while k < |piece|
        invariant k <= n
        invariant InFiles(contents, piece[..k]) && InBuffer(piece[..k], |block|)
        invariant Contents() == WriteBlocks(contents, piece[..k], block)
      {
        var fileBlock := piece[k];
        if fileBlock.offset + fileBlock.size > |block| {
          return;
        }
        assert k < n;
        WritePrefixStep(contents, piece, k, block);
        WriteFileBlock(fileBlock, block);
        k := k + 1;
      }
    }

    /** One block of a piece: `copy_from_slice` of its bytes of `data` into its file's buffer. */
    method WriteFileBlock(b: FileBlock, data: seq<Byte>)
      requires Valid()
      requires b.fileIndex < |fileHandles| && b.fileOffset + b.size <= fileHandles[b.fileIndex].Length
      requires b.offset + b.size <= |data|
      modifies fileHandles
      ensures Contents() == WriteBlock(old(Contents()), b, data)
    {
      var f := fileHandles[b.fileIndex];
      ghost var before := Contents();
      assert forall g :: 0 <= g < |fileHandles| && g != b.fileIndex ==> fileHandles[g] != f;
      label Copy:
      CopyInto(f, b.fileOffset, data[b.offset..b.offset + b.size]);
      assert forall g :: 0 <= g < |fileHandles| && g != b.fileIndex ==> fileHandles[g][..] == old@Copy(fileHandles[g][..]);
      ContentsAfterCopy(before, b, data, f);
    }

    /**
     * The contents after buffer `b.fileIndex` alone was overwritten at the
     * block's file range.
     */
    lemma ContentsAfterCopy(before: seq<seq<Byte>>, b: FileBlock, data: seq<Byte>, buffer: array<Byte>)
      requires Valid()
      requires |before| == |fileHandles|
      requires b.fileIndex < |before| && b.fileOffset + b.size <= |before[b.fileIndex]|
      requires b.offset + b.size <= |data|
      requires buffer == fileHandles[b.fileIndex]
      requires buffer[..] == Splice(before[b.fileIndex], b.fileOffset, data[b.offset..b.offset + b.size])
      requires forall f :: 0 <= f < |fileHandles| && f != b.fileIndex ==> fileHandles[f][..] == before[f]
      ensures Contents() == WriteBlock(before, b, data)
    {
    }

    /** Over the buffers, every block of piece `index` names bytes inside its file. */
    lemma PieceInFiles(index: nat)
      requires Valid() && index < |mapping|
      ensures HasLengths(Contents(), FlatStorage.Lengths(files))
      ensures InFiles(Contents(), mapping[index])
    {
      var contents := Contents();
      assert HasLengths(contents, FlatStorage.Lengths(files));
      LayoutInFiles(pieceSize, FlatStorage.Lengths(files), contents, index);
    }

    /** Writing the first `n` blocks of piece `index` leaves every other piece reading the same. */
    lemma OthersUnchanged(contents: seq<seq<Byte>>, index: nat, n: nat, block: seq<Byte>)
      requires Valid()
      requires HasLengths(contents, FlatStorage.Lengths(files))
      requires index < |mapping| ==> n <= |mapping[index]| && InBuffer(mapping[index][..n], |block|)
      ensures forall j :: 0 <= j < |mapping| && j != index ==> InFiles(contents, mapping[j])
      ensures index < |mapping| ==> InFiles(contents, mapping[index][..n])
      ensures forall j :: 0 <= j < |mapping| && j != index ==>
                var after := if index < |mapping| then WriteBlocks(contents, mapping[index][..n], block) else contents;
                && InFiles(after, mapping[j])
                && ReadBlocks(after, mapping[j]) == ReadBlocks(contents, mapping[j])
    {
      var lengths := FlatStorage.Lengths(files);
      if index < |mapping| {
        LayoutInFiles(pieceSize, lengths, contents, index);
      }
      forall j | 0 <= j < |mapping| && j != index
        ensures InFiles(contents, mapping[j])
        ensures var after := if index < |mapping| then WriteBlocks(contents, mapping[index][..n], block) else contents;
                && InFiles(after, mapping[j])
                && ReadBlocks(after, mapping[j]) == ReadBlocks(contents, mapping[j])
      {
        LayoutInFiles(pieceSize, lengths, contents, j);
        if index < |mapping| {
          PieceFrame(pieceSize, lengths, contents, index, n, block, j);
        }
      }
    }
  }

  /** One more block of `piece` written is one more `WriteBlock`. */
  lemma WritePrefixStep(contents: seq<seq<Byte>>, piece: seq<FileBlock>, k: nat, data: seq<Byte>)
    requires k < |piece|
    requires InFiles(contents, piece) && InBuffer(piece[..k], |data|)
    requires piece[k].offset + piece[k].size <= |data|
    ensures InFiles(contents, piece[..k + 1]) && InBuffer(piece[..k + 1], |data|)
    ensures var before := WriteBlocks(contents, piece[..k], data);
            && piece[k].fileIndex < |before| && piece[k].fileOffset + piece[k].size <= |before[piece[k].fileIndex]|
            && WriteBlocks(contents, piece[..k + 1], data) == WriteBlock(before, piece[k], data)
  {
    assert piece[..k + 1][..k] == piece[..k];
    assert InBuffer(piece[..k + 1], |data|) by {
      forall j | 0 <= j < k + 1 ensures piece[j].offset + piece[j].size <= |data| {
        if j < k { assert piece[j] == piece[..k][j]; }
      }
    }
  }

  /** `copy_from_slice`: `bytes` copied into `buffer` from position `at` on. */
  method CopyInto(buffer: array<Byte>, at: nat, bytes: seq<Byte>)
    requires at + |bytes| <= buffer.Length
    modifies buffer
    ensures buffer[..] == Splice(old(buffer[..]), at, bytes)
  {
    forall x | 0 <= x < |bytes| {
      buffer[at + x] := bytes[x];
    }
    assert buffer[..] == old(buffer[..])[..at] + bytes + old(buffer[..])[at + |bytes|..];
  }
}
