/**
 * The `info` dictionary of a .torrent file as decoded (BEP 3), before it is
 * normalised: total length, the 20-byte SHA-1 piece hashes, and the file list.
 * Integer conversions follow Rust's release builds: `as usize` on an `i64`
 * keeps the low 64 bits, and `usize`/`i64` arithmetic wraps.
 */
module RawInfo {
  import opened Outcomes
  import FlatStorage
  import opened PieceLayout

  type Byte = bv8

  /** 2^64: one more than the largest `usize`. */
  const U64: int := 0x1_0000_0000_0000_0000
  const I64_MIN: int := -0x8000_0000_0000_0000
  const I64_MAX: int := 0x7FFF_FFFF_FFFF_FFFF

  type Usize = x: int | 0 <= x < U64
  type I64 = x: int | I64_MIN <= x <= I64_MAX

  /** Size of a SHA-1 digest. */
  const SHA1_SIZE: nat := 20

  datatype TorrentInfoFileRaw = TorrentInfoFileRaw(length: I64, path: seq<string>)

  datatype TorrentInfoRaw = TorrentInfoRaw(
    name: string,
    pieceLength: I64,
    pieces: seq<Byte>,
    length: Option<I64>,
    files: Option<seq<TorrentInfoFileRaw>>)

  // ---------------------------------------------------------------------------
  // Integer conversions

  /** `x as usize`: the two's-complement bits of `x` read as unsigned. */
  function AsUsize(x: I64): (r: Usize)
    ensures x >= 0 ==> r == x
    ensures x < 0 ==> r == x + U64
  {
    x % U64
  }

  /** `i64` addition with wrap-around. */
  function WrappingAdd(a: I64, b: I64): (r: I64)
    ensures (r - (a + b)) % U64 == 0
    ensures I64_MIN <= a + b <= I64_MAX ==> r == a + b
  {
    var s := a + b;
    if s > I64_MAX then s - U64 else if s < I64_MIN then s + U64 else s
  }

  /** The exact sum of the lengths. */
  function TotalLength(files: seq<TorrentInfoFileRaw>): int
  {
    if files == [] then 0 else TotalLength(files[..|files| - 1]) + files[|files| - 1].length
  }

  /** `files.iter().map(|x| x.length).sum::<i64>()`, wrapping on overflow. */
  function WrappingSum(files: seq<TorrentInfoFileRaw>): (r: I64)
    ensures (r - TotalLength(files)) % U64 == 0
  {
    if files == [] then 0
    else
      var front := WrappingSum(files[..|files| - 1]);
      var r := WrappingAdd(front, files[|files| - 1].length);
      ModStep(r, front, files[|files| - 1].length, TotalLength(files[..|files| - 1]));
      r
  }

  /** `r ≡ a + b` and `a ≡ t` give `r ≡ t + b` (mod 2^64). */
  lemma ModStep(r: int, a: int, b: int, t: int)
    requires (r - (a + b)) % U64 == 0 && (a - t) % U64 == 0
    ensures (r - (t + b)) % U64 == 0
  {
    var k1 := (r - (a + b)) / U64;
    var k2 := (a - t) / U64;
    assert r - (a + b) == k1 * U64;
    assert a - t == k2 * U64;
    assert r - (t + b) == (k1 + k2) * U64;
  }

  /** Two integers congruent mod 2^64 read as the same `usize`. */
  lemma SameUsize(x: I64, t: int)
    requires (x - t) % U64 == 0
    ensures AsUsize(x) == t % U64
  {
    var k := (x - t) / U64;
    assert x == t + k * U64;
  }

  // ---------------------------------------------------------------------------
  // TorrentInfoRaw

  /**
   * `len`: the `length` key of a single-file torrent, otherwise the sum of
   * the file lengths; neither key is a panic.
   */
  function Len(raw: TorrentInfoRaw): (r: Result<Usize, Panic>)
    ensures r.Err? <==> raw.length.None? && raw.files.None?
    ensures raw.length.Some? ==> r == Ok(raw.length.value % U64)
    ensures raw.length.None? && raw.files.Some? ==> r == Ok(TotalLength(raw.files.value) % U64)
  {
    if raw.length.Some? then Ok(AsUsize(raw.length.value))
    else if raw.files.Some? then
      SameUsize(WrappingSum(raw.files.value), TotalLength(raw.files.value));
      Ok(AsUsize(WrappingSum(raw.files.value)))
    else Err(Panic)
  }

  /** `is_empty`: whether `len` is 0. */
  function IsEmpty(raw: TorrentInfoRaw): (r: Result<bool, Panic>)
    ensures r.Ok? <==> Len(raw).Ok?
    ensures r.Ok? ==> (r.value <==> Len(raw).value == 0)
  {
    match Len(raw)
    case Ok(n) => Ok(n == 0)
    case Err(e) => Err(e)
  }

  /** `pieces_count`: the number of whole 20-byte hashes. */
  function PiecesCount(raw: TorrentInfoRaw): (n: nat)
    ensures n * SHA1_SIZE <= |raw.pieces| < n * SHA1_SIZE + SHA1_SIZE
  {
    |raw.pieces| / SHA1_SIZE
  }

  /** `pieces.get(start..end)`: `None` unless `start <= end <= len`. */
  function Get(s: seq<Byte>, start: int, end: int): (r: Option<seq<Byte>>)
    ensures r.Some? <==> 0 <= start <= end <= |s|
    ensures r.Some? ==> r.value == s[start..end]
  {
    if 0 <= start <= end <= |s| then Some(s[start..end]) else None
  }

  /**
   * `piece(index)` as written: `index * 20` and `index * 20 + 20` wrap
   * around in a release build.
   */
  function Piece(raw: TorrentInfoRaw, index: Usize): (r: Option<seq<Byte>>)
    ensures r.Some? ==> |r.value| == SHA1_SIZE
  {
    var start := (index * SHA1_SIZE) % U64;
    Get(raw.pieces, start, (start + SHA1_SIZE) % U64)
  }

  /** `piece` with overflow-checked arithmetic: `None` as soon as an offset leaves `usize`. */
  function CheckedPiece(raw: TorrentInfoRaw, index: Usize): (r: Option<seq<Byte>>)
    ensures r.Some? ==> |r.value| == SHA1_SIZE
  {
    if index * SHA1_SIZE + SHA1_SIZE >= U64 then None
    else Get(raw.pieces, index * SHA1_SIZE, index * SHA1_SIZE + SHA1_SIZE)
  }

  /** For every index whose offsets fit in `usize`, `piece` is the hash at `20 * index`, if there is one. */
  lemma PieceWindow(raw: TorrentInfoRaw, index: Usize)
    requires index * SHA1_SIZE + SHA1_SIZE < U64
    ensures Piece(raw, index).Some? <==> index < PiecesCount(raw)
    ensures Piece(raw, index).Some? ==>
              Piece(raw, index).value == raw.pieces[index * SHA1_SIZE..index * SHA1_SIZE + SHA1_SIZE]
    ensures Piece(raw, index) == CheckedPiece(raw, index)
  {
  }

  /**
   * The corrected `piece`: for pieces lists a `Vec` can hold, `Some` exactly
   * for the indices below `pieces_count`, with the hash at `20 * index`.
   */
  lemma CheckedPieceInRange(raw: TorrentInfoRaw, index: Usize)
    requires |raw.pieces| <= I64_MAX
    ensures CheckedPiece(raw, index).Some? <==> index < PiecesCount(raw)
    ensures CheckedPiece(raw, index).Some? ==>
              CheckedPiece(raw, index).value == raw.pieces[index * SHA1_SIZE..index * SHA1_SIZE + SHA1_SIZE]
  {
  }

  /**
   * As written, `piece(2^62)` of a two-hash list wraps to offset 0 and
   * returns the first hash instead of `None`.
   */
  lemma PieceWrapsAround(raw: TorrentInfoRaw)
    requires |raw.pieces| == 2 * SHA1_SIZE
    ensures PiecesCount(raw) == 2
    ensures Piece(raw, 0x4000_0000_0000_0000) == Some(raw.pieces[..SHA1_SIZE])
    ensures CheckedPiece(raw, 0x4000_0000_0000_0000) == None
  {
    assert (0x4000_0000_0000_0000 * SHA1_SIZE) % U64 == 0;
  }

  /** The two hashes of the unit test: `pieces_count` is 2, pieces 0 and 1 are found, piece 2 is not. */
  lemma TwoHashes(raw: TorrentInfoRaw)
    requires |raw.pieces| == 40
    ensures PiecesCount(raw) == 2
    ensures Piece(raw, 0) == Some(raw.pieces[0..20])
    ensures Piece(raw, 1) == Some(raw.pieces[20..40])
    ensures Piece(raw, 2) == None
  {
  }

  // ---------------------------------------------------------------------------
  // Hashes and files

  /** `chunks_exact(20)`: consecutive 20-byte chunks, a shorter tail dropped. */
  function ChunksExact(s: seq<Byte>): (chunks: seq<seq<Byte>>)
    ensures |chunks| == |s| / SHA1_SIZE
    ensures forall i :: 0 <= i < |chunks| ==> |chunks[i]| == SHA1_SIZE
    decreases |s|
  {
    if |s| < SHA1_SIZE then [] else [s[..SHA1_SIZE]] + ChunksExact(s[SHA1_SIZE..])
  }

  /** Chunk `i` is bytes `[20 * i, 20 * i + 20)`. */
  lemma {:induction false} ChunkAt(s: seq<Byte>, i: nat)
    requires i < |s| / SHA1_SIZE
    ensures i * SHA1_SIZE + SHA1_SIZE <= |s|
    ensures ChunksExact(s)[i] == s[i * SHA1_SIZE..i * SHA1_SIZE + SHA1_SIZE]
    decreases i
  {
    if i > 0 {
      var rest := s[SHA1_SIZE..];
      assert |rest| / SHA1_SIZE == |s| / SHA1_SIZE - 1;
      ChunkAt(rest, i - 1);
      var j := (i - 1) * SHA1_SIZE;
      assert j + SHA1_SIZE == i * SHA1_SIZE;
      assert rest[j..j + SHA1_SIZE] == s[i * SHA1_SIZE..i * SHA1_SIZE + SHA1_SIZE];
    }
  }

  /** The hash list of the normalised info: `chunks_exact(20)`, each chunk a `Piece`. */
  function Hashes(raw: TorrentInfoRaw): (hashes: seq<seq<Byte>>)
    ensures |hashes| == PiecesCount(raw)
    ensures forall i :: 0 <= i < |hashes| ==> |hashes[i]| == SHA1_SIZE
  {
    ChunksExact(raw.pieces)
  }

  /** Hash `i` of the normalised info is what `piece(i)` returns on the raw info. */
  lemma HashesMatchPiece(raw: TorrentInfoRaw, i: nat)
    requires |raw.pieces| <= I64_MAX
    requires i < |Hashes(raw)|
    ensures Piece(raw, i) == Some(Hashes(raw)[i])
  {
    ChunkAt(raw.pieces, i);
    PieceWindow(raw, i);
  }

  /**
   * The file list of the normalised info: one file named after the torrent
   * when `length` is present (a negative length fails `try_into().unwrap()`),
   * otherwise one entry per raw file with its path components and its length
   * read `as usize`; neither key is a panic.
   */
  function InfoFiles(raw: TorrentInfoRaw): (r: Result<seq<FlatStorage.FlatStorageFile>, Panic>)
    ensures r.Err? <==> (raw.length.None? && raw.files.None?) || (raw.length.Some? && raw.length.value < 0)
    ensures raw.length.Some? && r.Ok? ==> r.value == [FlatStorage.FlatStorageFile([raw.name], raw.length.value)]
    ensures raw.length.None? && r.Ok? ==>
              && |r.value| == |raw.files.value|
              && forall f :: 0 <= f < |r.value| ==>
                   r.value[f] == FlatStorage.FlatStorageFile(raw.files.value[f].path, AsUsize(raw.files.value[f].length))
  {
    if raw.length.Some? then
      if raw.length.value < 0 then Err(Panic)
      else Ok([FlatStorage.FlatStorageFile([raw.name], raw.length.value)])
    else if raw.files.Some? then
      Ok(seq(|raw.files.value|, f requires 0 <= f < |raw.files.value| =>
               FlatStorage.FlatStorageFile(raw.files.value[f].path, AsUsize(raw.files.value[f].length))))
    else Err(Panic)
  }

  /**
   * When the conversion succeeds, `len` is the sum of the file lengths modulo
   * 2^64, which is that sum itself whenever the sum fits in a `usize`.
   */
  lemma LenIsFileTotal(raw: TorrentInfoRaw)
    requires InfoFiles(raw).Ok?
    ensures Len(raw).Ok?
    ensures Len(raw).value == Sum(FlatStorage.Lengths(InfoFiles(raw).value)) % U64
    ensures Sum(FlatStorage.Lengths(InfoFiles(raw).value)) < U64 ==>
              Len(raw).value == Sum(FlatStorage.Lengths(InfoFiles(raw).value))
  {
    var files := InfoFiles(raw).value;
    var total := Sum(FlatStorage.Lengths(files));
    if raw.length.Some? {
      SingleFileSum(raw.name, raw.length.value);
      ShiftedResidue(total, raw.length.value, 0);
    } else {
      FileSumWraps(raw.files.value, files);
      ShiftedResidue(total, TotalLength(raw.files.value), NegativeCount(raw.files.value));
    }
    SmallResidue(total);
  }

  /** The length list of a single-file torrent adds up to its one length. */
  lemma SingleFileSum(name: string, x: nat)
    ensures Sum(FlatStorage.Lengths([FlatStorage.FlatStorageFile([name], x)])) == x
  {
    var one: seq<nat> := [x];
    assert FlatStorage.Lengths([FlatStorage.FlatStorageFile([name], x)]) == one;
    assert one[..0] == [];
  }

  /** A natural number below 2^64 is its own remainder. */
  lemma SmallResidue(x: nat)
    ensures x < U64 ==> x % U64 == x
  {
  }

  /** Adding a multiple of 2^64 leaves the remainder unchanged. */
  lemma ShiftedResidue(x: int, t: int, c: nat)
    requires x == t + c * U64
    ensures x % U64 == t % U64
  {
    var q := t / U64;
    assert t == q * U64 + t % U64;
    assert x == (q + c) * U64 + t % U64;
  }

  /** The number of negative raw lengths, each of which `as usize` raises by 2^64. */
  function NegativeCount(raw: seq<TorrentInfoFileRaw>): nat
  {
    if raw == [] then 0
    else NegativeCount(raw[..|raw| - 1]) + (if raw[|raw| - 1].length < 0 then 1 else 0)
  }

  /** Reading each raw length `as usize` adds 2^64 to the total once per negative length. */
  lemma {:induction false} FileSumWraps(raw: seq<TorrentInfoFileRaw>, files: seq<FlatStorage.FlatStorageFile>)
    requires |files| == |raw|
    requires forall f :: 0 <= f < |raw| ==> files[f].length == AsUsize(raw[f].length)
    ensures Sum(FlatStorage.Lengths(files)) == TotalLength(raw) + NegativeCount(raw) * U64
  {
    if raw != [] {
      var n := |raw| - 1;
      FileSumWraps(raw[..n], files[..n]);
      var lengths := FlatStorage.Lengths(files);
      assert lengths[..n] == FlatStorage.Lengths(files[..n]);
    }
  }
}
