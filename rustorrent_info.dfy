/**
 * The first-generation client's normalised torrent info: the hashes, the
 * total length, the file list and the piece-to-file layout, built from the
 * raw info dictionary.
 */
module RustorrentInfo {
  import opened Outcomes
  import FlatStorage
  import opened PieceLayout
  import opened LayoutProperties
  import opened RawInfo

  datatype TorrentInfo = TorrentInfo(
    pieceLength: Usize,
    pieces: seq<seq<Byte>>,
    mapping: seq<seq<FileBlock>>,
    length: Usize,
    files: seq<FlatStorage.FlatStorageFile>)

  /**
   * The layout loop ends: a conversion whose file list exists and whose piece
   * length, read as `usize`, is 0 runs forever unless every file is empty.
   */
  predicate Converges(raw: TorrentInfoRaw)
  {
    InfoFiles(raw).Ok? ==> Terminates(AsUsize(raw.pieceLength), FlatStorage.Lengths(InfoFiles(raw).value))
  }

  /**
   * `From<TorrentInfoRaw>`: hashes, then `len`, then the files, then the
   * layout; it panics exactly when building the file list does.
   */
  function From(raw: TorrentInfoRaw): (r: Result<TorrentInfo, Panic>)
    requires Converges(raw)
    ensures r.Err? <==> InfoFiles(raw).Err?
    ensures r.Ok? ==> r.value.files == InfoFiles(raw).value && r.value.pieceLength == AsUsize(raw.pieceLength)
  {
    var pieces := Hashes(raw);
    match Len(raw)
    case Err(e) => Err(e)
    case Ok(length) =>
      match InfoFiles(raw)
      case Err(e) => Err(e)
      case Ok(files) =>
        var pieceLength := AsUsize(raw.pieceLength);
        Ok(TorrentInfo(pieceLength, pieces, Layout(pieceLength, FlatStorage.Lengths(files)), length, files))
  }

  /**
   * `map_pieces_to_files`.  `totalLengthRemaining` is kept as in the source,
   * wrapping as `usize` does; it is never read, so the result depends on the
   * piece length and the files alone.
   */
  method MapPiecesToFiles(pieceLength: Usize, length: Usize, files: seq<FlatStorage.FlatStorageFile>)
    returns (mapping: seq<seq<FileBlock>>)
    requires Terminates(pieceLength, FlatStorage.Lengths(files))
    ensures mapping == Layout(pieceLength, FlatStorage.Lengths(files))
  {
    ghost var lengths := FlatStorage.Lengths(files);
    var totalLengthRemaining := length;
    var currentPieceLeft: nat := pieceLength;
    var currentPiece: seq<FileBlock> := [];
    var offset: nat := 0;
    mapping := [];
    for fileIndex := 0 to |files|
      invariant Cursor(mapping, currentPiece, currentPieceLeft, offset) == Fold(pieceLength, lengths, fileIndex)
    {
      var fileRemainingLength: nat := files[fileIndex].length;
      var fileOffset: nat := 0;
      while currentPieceLeft < fileRemainingLength
        invariant pieceLength > 0 || fileRemainingLength == 0
        invariant SplitFile(pieceLength, Cursor(mapping, currentPiece, currentPieceLeft, offset), fileIndex, fileOffset, fileRemainingLength)
                  == Fold(pieceLength, lengths, fileIndex + 1)
        decreases fileRemainingLength + (if currentPieceLeft == 0 then 1 else 0)
      {
        currentPiece := currentPiece + [FileBlock(offset, fileIndex, fileOffset, currentPieceLeft)];
        fileRemainingLength := fileRemainingLength - currentPieceLeft;
        fileOffset := fileOffset + currentPieceLeft;
        totalLengthRemaining := (totalLengthRemaining - currentPieceLeft) % U64;
        currentPieceLeft := pieceLength;
        mapping := mapping + [currentPiece];
        currentPiece := [];
        offset := 0;
      }
      if currentPieceLeft >= fileRemainingLength {
        currentPiece := currentPiece + [FileBlock(offset, fileIndex, fileOffset, fileRemainingLength)];
        currentPieceLeft := currentPieceLeft - fileRemainingLength;
        offset := offset + fileRemainingLength;
        totalLengthRemaining := (totalLengthRemaining - fileRemainingLength) % U64;
      }
    }
    if currentPiece != [] {
      mapping := mapping + [currentPiece];
    }
  }

  /**
   * A converted info covers its payload: the blocks of the layout add up to
   * the file lengths, whose sum modulo 2^64 is `len`; every piece but the last
   * is full and there are `ceil(total / piece_length)` pieces of a non-empty
   * payload.
   */
  lemma FromCoversPayload(raw: TorrentInfoRaw)
    requires Converges(raw)
    requires From(raw).Ok?
    ensures var info := From(raw).value;
            var total := Sum(FlatStorage.Lengths(info.files));
            && MappedSize(info.mapping) == total
            && info.length == total % U64
            && (forall i :: 0 <= i < |info.mapping| - 1 ==> BlocksSize(info.mapping[i]) == info.pieceLength)
            && (total > 0 ==> info.pieceLength > 0 && |info.mapping| == (total + info.pieceLength - 1) / info.pieceLength)
  {
    var info := From(raw).value;
    FromFields(raw);
    LenIsFileTotal(raw);
    LayoutCovers(info.pieceLength, FlatStorage.Lengths(info.files));
  }

  lemma FromFields(raw: TorrentInfoRaw)
    requires Converges(raw)
    requires From(raw).Ok?
    ensures From(raw).value.length == Len(raw).value
    ensures From(raw).value.mapping == Layout(From(raw).value.pieceLength, FlatStorage.Lengths(From(raw).value.files))
  {
  }

  /** The layout's part of `FromCoversPayload`. */
  lemma LayoutCovers(pieceLength: nat, lengths: seq<nat>)
    requires Terminates(pieceLength, lengths)
    ensures var mapping := Layout(pieceLength, lengths);
            && MappedSize(mapping) == Sum(lengths)
            && (forall i :: 0 <= i < |mapping| - 1 ==> BlocksSize(mapping[i]) == pieceLength)
            && (Sum(lengths) > 0 ==> pieceLength > 0 && |mapping| == (Sum(lengths) + pieceLength - 1) / pieceLength)
  {
    LayoutSize(pieceLength, lengths);
    LayoutCount(pieceLength, lengths);
    var mapping := Layout(pieceLength, lengths);
    forall i | 0 <= i < |mapping| - 1
      ensures BlocksSize(mapping[i]) == pieceLength
    {
      LayoutPieces(pieceLength, lengths, i);
    }
  }

  /**
   * The hash list is `pieces` cut into 20-byte chunks, a partial tail dropped;
   * hash `i` is what the raw info's `piece(i)` returns.
   */
  lemma FromHashes(raw: TorrentInfoRaw)
    requires Converges(raw)
    requires From(raw).Ok?
    requires |raw.pieces| <= I64_MAX
    ensures var info := From(raw).value;
            && |info.pieces| == PiecesCount(raw)
            && forall i :: 0 <= i < |info.pieces| ==> Piece(raw, i) == Some(info.pieces[i])
  {
    var info := From(raw).value;
    forall i | 0 <= i < |info.pieces|
      ensures Piece(raw, i) == Some(info.pieces[i])
    {
      HashesMatchPiece(raw, i);
    }
  }

  /**
   * A single-file torrent becomes one file named after the torrent, of the
   * given length, laid out on its own.
   */
  lemma FromSingleFile(raw: TorrentInfoRaw)
    requires raw.length.Some? && raw.length.value >= 0
    requires Converges(raw)
    ensures From(raw).Ok?
    ensures var info := From(raw).value;
            && info.files == [FlatStorage.FlatStorageFile([raw.name], raw.length.value)]
            && info.length == raw.length.value
            && info.mapping == Layout(info.pieceLength, [raw.length.value])
  {
    var info := From(raw).value;
    assert FlatStorage.Lengths(info.files) == [raw.length.value];
  }

  /**
   * A multi-file torrent keeps one file per raw entry, in order, with its path
   * and its length read as `usize`; `len` is their sum modulo 2^64.
   */
  lemma FromMultiFile(raw: TorrentInfoRaw)
    requires raw.length.None? && raw.files.Some?
    requires Converges(raw)
    ensures From(raw).Ok?
    ensures var info := From(raw).value;
            && |info.files| == |raw.files.value|
            && (forall f :: 0 <= f < |info.files| ==>
                  && info.files[f].path == raw.files.value[f].path
                  && info.files[f].length == AsUsize(raw.files.value[f].length))
            && info.length == TotalLength(raw.files.value) % U64
  {
  }

  /** With neither `length` nor `files`, or with a negative `length`, the conversion panics. */
  lemma FromPanics(raw: TorrentInfoRaw)
    requires (raw.length.None? && raw.files.None?) || (raw.length.Some? && raw.length.value < 0)
    ensures Converges(raw)
    ensures From(raw) == Err(Panic)
  {
  }
}
