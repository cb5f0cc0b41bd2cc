/**
 * The later service's normalised torrent info: besides hashes, length and
 * files it records the size of a regular piece and of the last piece, each
 * with its number of blocks.  The block count helper and the block size are
 * parameters.
 */
module ServiceInfo {
  import opened Outcomes
  import FlatStorage
  import opened PieceLayout
  import opened LayoutProperties
  import opened RawInfo

  datatype TorrentInfo = TorrentInfo(
    pieceLength: Usize,
    defaultBlocksCount: Usize,
    lastPieceLength: Usize,
    lastPieceBlocksCount: Usize,
    pieces: seq<seq<Byte>>,
    length: Usize,
    files: seq<FlatStorage.FlatStorageFile>)

  datatype TryFromSliceError = TryFromSliceError

  /** `Piece::try_from`: a slice converts to a hash exactly when it has 20 bytes. */
  function PieceTryFrom(slice: seq<Byte>): (r: Result<seq<Byte>, TryFromSliceError>)
    ensures r.Ok? <==> |slice| == SHA1_SIZE
    ensures r.Ok? ==> r.value == slice
  {
    if |slice| == SHA1_SIZE then Ok(slice) else Err(TryFromSliceError)
  }

  /** The size of the last piece: the remainder of the payload, or a whole piece when it divides evenly. */
  function LastPieceLength(length: Usize, pieceLength: Usize): (r: Usize)
    requires pieceLength > 0
    ensures 0 < r <= pieceLength
    ensures r == pieceLength <==> length % pieceLength == 0
    ensures r < pieceLength ==> r == length % pieceLength
    ensures length == 0 ==> r == pieceLength
  {
    var rest := length % pieceLength;
    if rest == 0 then pieceLength else rest
  }

  /**
   * `From<TorrentInfoRaw>`: hashes, `len`, files, then the piece sizes;
   * `length % piece_length` panics on a zero piece length.
   */
  function From(raw: TorrentInfoRaw, countParts: (Usize, Usize) -> Usize, blockSize: Usize): (r: Result<TorrentInfo, Panic>)
    ensures r.Err? <==> InfoFiles(raw).Err? || AsUsize(raw.pieceLength) == 0
    ensures r.Ok? ==>
              && r.value.files == InfoFiles(raw).value
              && r.value.length == RawInfo.Len(raw).value
              && r.value.pieceLength == AsUsize(raw.pieceLength)
              && r.value.pieces == Hashes(raw)
  {
    var pieces := Hashes(raw);
    match RawInfo.Len(raw)
    case Err(e) => Err(e)
    case Ok(length) =>
      match InfoFiles(raw)
      case Err(e) => Err(e)
      case Ok(files) =>
        var pieceLength := AsUsize(raw.pieceLength);
        var defaultBlocksCount := countParts(pieceLength, blockSize);
        if pieceLength == 0 then Err(Panic)
        else
          var lastPieceLength := LastPieceLength(length, pieceLength);
          var lastPieceBlocksCount := countParts(lastPieceLength, blockSize);
          Ok(TorrentInfo(pieceLength, defaultBlocksCount, lastPieceLength, lastPieceBlocksCount, pieces, length, files))
  }

  /** `len`: the payload length the conversion stored. */
  function Len(info: TorrentInfo): (n: Usize)
    ensures n == info.length
  {
    info.length
  }

  /** `is_empty`: no payload bytes. */
  function IsEmpty(info: TorrentInfo): (empty: bool)
    ensures empty <==> info.length == 0
  {
    Len(info) == 0
  }

  /**
   * `sizes(index)`: the last piece's size and block count for the last index,
   * the regular ones for every other index.  `pieces.len() - 1` wraps as
   * `usize` does, so with no pieces the "last" index is 2^64 - 1.
   */
  function Sizes(info: TorrentInfo, index: Usize): (r: (Usize, Usize))
    ensures r == (info.pieceLength, info.defaultBlocksCount) || r == (info.lastPieceLength, info.lastPieceBlocksCount)
  {
    var notLast := index != (|info.pieces| - 1) % U64;
    if notLast then (info.pieceLength, info.defaultBlocksCount)
    else (info.lastPieceLength, info.lastPieceBlocksCount)
  }

  /** `sizes` on a non-empty hash list: the last index gets the last piece's sizes, every other index the regular ones. */
  lemma SizesByIndex(info: TorrentInfo, index: Usize)
    requires 0 < |info.pieces| <= U64
    ensures index == |info.pieces| - 1 ==> Sizes(info, index) == (info.lastPieceLength, info.lastPieceBlocksCount)
    ensures index != |info.pieces| - 1 ==> Sizes(info, index) == (info.pieceLength, info.defaultBlocksCount)
  {
  }

  /** With no hashes the subtraction wraps: only index 2^64 - 1 is taken for the last piece. */
  lemma SizesWithoutPieces(info: TorrentInfo, index: Usize)
    requires info.pieces == []
    ensures index == U64 - 1 ==> Sizes(info, index) == (info.lastPieceLength, info.lastPieceBlocksCount)
    ensures index < U64 - 1 ==> Sizes(info, index) == (info.pieceLength, info.defaultBlocksCount)
  {
  }

  /**
   * A converted info is empty exactly when the raw info is, that is when the
   * file lengths add up to a multiple of 2^64 (to 0 when nothing wraps).
   */
  lemma EmptyAgrees(raw: TorrentInfoRaw, countParts: (Usize, Usize) -> Usize, blockSize: Usize)
    requires From(raw, countParts, blockSize).Ok?
    ensures RawInfo.IsEmpty(raw).Ok?
    ensures IsEmpty(From(raw, countParts, blockSize).value) == RawInfo.IsEmpty(raw).value
    ensures IsEmpty(From(raw, countParts, blockSize).value)
            <==> Sum(FlatStorage.Lengths(InfoFiles(raw).value)) % U64 == 0
  {
    LenIsFileTotal(raw);
  }

  /**
   * The piece sizes of a converted info: the last piece holds between 1 and
   * `piece_length` bytes, and both block counts come from the same helper,
   * applied to the regular and to the last piece length.
   */
  lemma FromPieceSizes(raw: TorrentInfoRaw, countParts: (Usize, Usize) -> Usize, blockSize: Usize)
    requires From(raw, countParts, blockSize).Ok?
    ensures var info := From(raw, countParts, blockSize).value;
            && 0 < info.lastPieceLength <= info.pieceLength
            && info.lastPieceLength == LastPieceLength(info.length, info.pieceLength)
            && info.defaultBlocksCount == countParts(info.pieceLength, blockSize)
            && info.lastPieceBlocksCount == countParts(info.lastPieceLength, blockSize)
  {
  }

  /**
   * The last piece length is the size of the last piece of the payload's
   * layout, for a non-empty payload whose length fits in a `usize`; an empty
   * payload is nonetheless given a full last piece.
   */
  lemma LastPieceMatchesLayout(raw: TorrentInfoRaw, countParts: (Usize, Usize) -> Usize, blockSize: Usize)
    requires From(raw, countParts, blockSize).Ok?
    ensures var info := From(raw, countParts, blockSize).value;
            var lengths := FlatStorage.Lengths(info.files);
            && info.pieceLength > 0
            && (0 < Sum(lengths) < U64 ==>
                  var layout := Layout(info.pieceLength, lengths);
                  layout != [] && info.lastPieceLength == BlocksSize(layout[|layout| - 1]))
            && (info.length == 0 ==> info.lastPieceLength == info.pieceLength)
  {
    var info := From(raw, countParts, blockSize).value;
    var lengths := FlatStorage.Lengths(info.files);
    var total := Sum(lengths);
    FromPieceSizes(raw, countParts, blockSize);
    LenIsFileTotal(raw);
    if 0 < total < U64 {
      assert info.length == total;
      LastPieceOfLayout(info.pieceLength, lengths);
    }
  }

  lemma LastPieceOfLayout(pieceLength: Usize, lengths: seq<nat>)
    requires pieceLength > 0
    requires 0 < Sum(lengths) < U64
    ensures var layout := Layout(pieceLength, lengths);
            layout != [] && LastPieceLength(Sum(lengths), pieceLength) == BlocksSize(layout[|layout| - 1])
  {
    LayoutCount(pieceLength, lengths);
  }

  /** Every 20-byte chunk of the hash string converts, so building the hash list never panics. */
  lemma HashesConvert(raw: TorrentInfoRaw, i: nat)
    requires i < |Hashes(raw)|
    ensures PieceTryFrom(Hashes(raw)[i]) == Ok(Hashes(raw)[i])
  {
  }

  /** A slice of any other length is refused. */
  lemma ShortSliceRefused(slice: seq<Byte>)
    requires |slice| != SHA1_SIZE
    ensures PieceTryFrom(slice) == Err(TryFromSliceError)
  {
  }
}
