# rustorrent core, modelled in Dafny

This project models the sequential core of the rustorrent BitTorrent client in
Dafny 4.11 and proves properties of that model. The client comes in two
generations, `rustorrent/` and the later `service/`, with a memory-mapped
storage crate and a small web front end beside them. The modelled parts are:

- **Piece-to-file layout** (`piece_layout.dfy`, `layout_properties.dfy`). A
  torrent's payload is its files concatenated in list order, cut into pieces
  of `piece_length` bytes (the info dictionary of BEP 3).
  `map_pieces_to_files` describes every piece as a list of
  `FileBlock { offset, file_index, file_offset, size }`. `PieceLayout.Layout`
  is that loop written as a fold over the files. Both copies of the loop are
  methods proved equal to it: `RustorrentInfo.MapPiecesToFiles` and
  `FlatStorageMmap.MapPiecesToFiles`. The lemmas place every block at its
  position in the byte stream and prove the piece sizes, the piece count, the
  order of blocks per file and that no two blocks overlap.
- **Flat storage over the layout** (`piece_io.dfy`, `flat_storage_mmap.dfy`).
  `MmapFlatStorage` keeps one byte array per file. `read_piece` gathers a
  piece from the file ranges its blocks name. `write_piece` scatters it into
  them with `copy_from_slice`. Both are specified by the pure functions
  `ReadBlocks` and `WriteBlocks`, so a write followed by a read of the same
  piece returns the data, and a write leaves every other piece unchanged.
- **Torrent info normalisation** (`raw_info.dfy`, `rustorrent_info.dfy`,
  `service_info.dfy`). This covers:
  - `TorrentInfoRaw::{len, is_empty, pieces_count, piece}`;
  - both `From<TorrentInfoRaw>` conversions;
  - the later `TorrentInfo::{len, is_empty, sizes}` and `Piece::try_from`.

  Integers follow Rust release builds on a 64-bit target:
  - `as usize` reinterprets an `i64` modulo 2^64;
  - `sum::<i64>()` wraps;
  - `usize` arithmetic wraps;
  - `unwrap` of a failed conversion, `panic!` and `% 0` are the error value
    `Panic`.
- **Bitfield indexing** (`bitfield.dfy`). `index_in_bitarray` and
  `bit_by_index` address pieces MSB first, as the `bitfield` message of BEP 3
  does.
- **Piece completion** (`peer_piece_downloaded.dfy`).
  `process_peer_piece_downloaded` works on a `Swarm`, a class holding the peer
  map and the trace of effects so far:
  - it clears the peer's download slots;
  - it saves the piece;
  - it tells the other peers `Have` and `Cancel`;
  - it calls the peer selection.

  The save, each message sent and the selection are entries of one trace, in
  the order they happen.
- **Torrent registry** (`download_events.dfy`). This covers the view of a
  torrent, the handshake lookup by info-hash, the listing of all torrents,
  and the loop that serves these commands on the registry.
- **Server-sent-events broadcaster** (`broadcaster.dfy`). The web front end
  keeps a list of client channels and greets each new client. A broadcast
  drops the clients whose channel refused the message.

Calls into code the model cannot see are parameters: the save, the peer
selection, `match_pieces`, `count_parts`, `add_torrent`, `torrent_action`,
and the outcome of each `try_send`. So are the existing file contents and any
I/O failure when the storage is created, and the iteration order of the peer
map.

Where an identifier and the code disagree, the model follows the code. In
`sizes` (service/src/types/info.rs:36) the variable `is_last_piece` holds
exactly when the index is *not* the last one. The behaviour is still the
documented one, and `ServiceInfo.SizesByIndex` states it.

## Model

| member | source | states |
|---|---|---|
| PieceLayout.SplitFileOk | rustorrent/src/types/info.rs:81-108 | Handling one file, the `while` loop and then the final `if`, keeps the loop invariant up to the file's end. Every closed piece holds exactly `piece_length` bytes. Each piece's block offsets run on from 0 without gaps. Each block lies inside its file, with piece byte `i*piece_length + offset` the same payload byte as `file_offset` of its file. A non-empty file leaves the open piece non-empty. |
| PieceLayout.ClosingSplitOk | rustorrent/src/types/info.rs:81-97 | The case of `SplitFileOk` where the file overflows the open piece: closing it at `current_piece_left` bytes and going on keeps the invariant. |
| PieceLayout.AppendOk | rustorrent/src/types/info.rs:98-108 | Appending a block of its file at the fill level of the open piece keeps the invariant, `size` bytes further on in the payload. |
| PieceLayout.CloseOk | rustorrent/src/types/info.rs:91-96 | Closing a full open piece and opening an empty one of `piece_length` bytes keeps the invariant. |
| PieceLayout.FoldOk | rustorrent/src/types/info.rs:78-109 | After any number of files the loop state satisfies the invariant at the payload position where the next file starts. Once a piece has been closed, the open one is non-empty. |
| PieceLayout.ContiguousSnoc | rustorrent/src/types/info.rs:99-106 | A block appended at the current `offset`, which is the piece's size so far, keeps the piece's offsets gap-free. |
| PieceLayout.BlockEndsWithinPiece | rustorrent/src/types/info.rs:99-106 | In a contiguous piece every block ends within the piece's size. |
| PieceLayout.BlocksInOrder | rustorrent/src/types/info.rs:99-106 | In a contiguous piece an earlier block ends no later than a later block starts. |
| PieceLayout.SplitFileFlat | rustorrent/src/types/info.rs:81-108 | Each file appends to the flattened block list one run of blocks of that file. The run starts at `file_offset` 0, each block starts where the previous ended, and it ends at the file's length. The blocks already there are untouched. |
| PieceLayout.ClosingSplitFlat | rustorrent/src/types/info.rs:81-97 | The case of `SplitFileFlat` where the file overflows the open piece. |
| PieceLayout.TilesStep | rustorrent/src/types/info.rs:78-108 | Splitting file `n` extends a tiling of the first `n` files, each covered from byte 0 to its end in order, to the first `n + 1`. |
| PieceLayout.FoldTiles | rustorrent/src/types/info.rs:78-109 | After `n` files the flattened blocks tile exactly the first `n` files in order. |
| PieceLayout.Layout | rustorrent/src/types/info.rs:66-114 | The result of `map_pieces_to_files`: the closed pieces, then the open piece if it holds a block. There is a piece exactly when there is a file, since even an empty file puts a zero-size block in a piece. |
| LayoutProperties.LayoutPieces | rustorrent/src/types/info.rs:81-112 | Every piece of the result is non-empty and gap-free from offset 0, and its blocks are placed in the payload stream. Every piece but the last holds exactly `piece_length` bytes; the last holds at most that. |
| LayoutProperties.LayoutSize | rustorrent/src/types/info.rs:78-112 | The block sizes over all pieces add up to the sum of the file lengths. |
| LayoutProperties.LayoutCount | rustorrent/src/types/info.rs:78-112 | A payload of `S > 0` bytes gives `ceil(S / piece_length)` pieces. The last holds `S % piece_length` bytes, or a full piece when that is 0. An empty payload gives at most one piece. |
| LayoutProperties.LayoutTiles | rustorrent/src/types/info.rs:78-112 | The flattened result covers every file, in order, from byte 0 to its end. Within a file `file_offset` advances by each block's size, and the next file starts at `file_offset` 0. |
| LayoutProperties.TilesMonotone | rustorrent/src/types/info.rs:78-104 | Across the flattened result `file_index` never decreases. |
| LayoutProperties.LayoutDisjoint | rustorrent/src/types/info.rs:78-112 | No two different blocks of the result name overlapping byte ranges of a file. |
| LayoutProperties.LayoutAt | rustorrent/src/types/info.rs:110-113 | The result is the closed pieces, followed by the open piece when it holds a block. |
| LayoutProperties.FullPiecesSize | rustorrent/src/types/info.rs:91-96 | Pieces that each hold `piece_length` bytes together hold their number times `piece_length`. |
| LayoutProperties.LastPiece | rustorrent/src/types/info.rs:98-112 | A non-empty payload ends with an open piece of between 1 and `piece_length` bytes. |
| LayoutProperties.NoProgressWithoutRoom | rustorrent/src/types/info.rs:81-96 | With `piece_length == 0` and bytes left, one turn of the `while` loop makes no progress: the new piece has no room and the bytes left are unchanged, so the loop condition holds again. |
| LayoutProperties.TenPieces | rustorrent/src/types/info.rs:234-244 | 1000 bytes in pieces of 100 give ten pieces. |
| LayoutProperties.OneFullPiece | rustorrent/src/types/info.rs:246-262 | One 1000-byte file in pieces of 1000 is one piece with one block. |
| LayoutProperties.OneShortPiece | rustorrent/src/types/info.rs:264-280 | One 800-byte file in pieces of 1000 is one short piece. |
| LayoutProperties.ThreeFullPiecesAndOneByte | rustorrent/src/types/info.rs:282-318 | 1000 bytes in pieces of 333 give three full pieces and a 1-byte piece, with the file offsets of the unit test. |
| LayoutProperties.ThreeFilesAcrossPieces | rustorrent/src/types/info.rs:320-376 | Files of 300, 400 and 500 bytes in pieces of 500 give the blocks of the unit test, with pieces spanning file boundaries. |
| LayoutProperties.ZeroBlockAtBoundary | rustorrent/src/types/info.rs:81-104 | A file ending on a piece boundary, followed by a non-empty file: the full piece gets a size-0 block of the next file before it is closed. |
| LayoutProperties.ZeroBlockForEmptyFile | rustorrent/src/types/info.rs:98-104 | An empty file yields a size-0 block in the open piece. |
| LayoutProperties.EmptyPayloads | rustorrent/src/types/info.rs:110-112 | No files give no pieces. Only empty files give one piece of size-0 blocks, even with `piece_length == 0`. |
| RustorrentInfo.MapPiecesToFiles | rustorrent/src/types/info.rs:66-114 | The loop's result equals `Layout`. The `length` argument only feeds a counter that is never read, so the result depends on `piece_length` and the files alone. |
| FlatStorageMmap.MapPiecesToFiles | flat-storage-mmap/src/lib.rs:118-164 | The storage crate's copy of the loop also equals `Layout`, so both copies give the same blocks for the same piece size and files. |
| RustorrentInfo.From | rustorrent/src/types/info.rs:24-64 | The conversion panics exactly when building the file list does. Otherwise the files are that list and `piece_length` is the raw one as `usize`. |
| RustorrentInfo.FromCoversPayload | rustorrent/src/types/info.rs:24-64 | A converted info's mapping covers exactly the files' total length. `length` is that total modulo 2^64. Every piece but the last holds `piece_length` bytes, and a non-empty payload has `ceil(total / piece_length)` pieces. |
| RustorrentInfo.FromHashes | rustorrent/src/types/info.rs:26-31 | The hash list has `pieces_count` entries, and entry `i` is what `piece(i)` returns on the raw info. |
| RustorrentInfo.FromSingleFile | rustorrent/src/types/info.rs:35-39 | A non-negative `length` gives one file named after the torrent, of that length, and a total of that length. |
| RustorrentInfo.FromMultiFile | rustorrent/src/types/info.rs:40-47 | Without `length`, one file per raw entry, with its path and its length as `usize`. The total is the wrapping sum of the raw lengths. |
| RustorrentInfo.FromPanics | rustorrent/src/types/info.rs:33-50 | With neither `length` nor `files`, or with a negative `length`, the conversion panics. |
| RawInfo.AsUsize | rustorrent/src/types/info.rs:158 | `i64 as usize` is the value itself when non-negative, otherwise the value plus 2^64. |
| RawInfo.WrappingSum | rustorrent/src/types/info.rs:160 | The `i64` sum of the file lengths is congruent to their exact sum modulo 2^64. |
| RawInfo.Len | rustorrent/src/types/info.rs:156-164 | `len` panics exactly when neither `length` nor `files` is present. Otherwise it is `length`, or else the files' total, each taken modulo 2^64. |
| RawInfo.IsEmpty | service/src/types/info.rs:138-140 | `is_empty` is defined exactly when `len` is, and holds exactly when `len` is 0. |
| RawInfo.PiecesCount | rustorrent/src/types/info.rs:167-169 | `pieces_count` is the number of whole 20-byte hashes in `pieces`. |
| RawInfo.Piece | rustorrent/src/types/info.rs:172-175 | `piece(index)` as written, with `index * 20` and `+ 20` wrapping in `usize`: any hash it returns has 20 bytes. Which bytes those are is stated by `RawInfo.PieceWindow` and, past the wrap, by `RawInfo.PieceWrapsAround`. |
| RawInfo.PieceWindow | rustorrent/src/types/info.rs:172-175 | For every index whose byte offsets fit in `usize`, `piece(i)` is the 20 bytes at `20*i` when `i < pieces_count`, and `None` otherwise. |
| RawInfo.TwoHashes | rustorrent/src/types/info.rs:212-231 | On a 40-byte hash string `pieces_count` is 2, pieces 0 and 1 are the two halves, and piece 2 is `None`. |
| RawInfo.PieceWrapsAround | rustorrent/src/types/info.rs:172-175 | As written, index 2^62 on a 40-byte hash string wraps `20*index` to 0 and returns the first hash. |
| RawInfo.CheckedPiece | rustorrent/src/types/info.rs:172-175 | `piece` with overflow-checked offsets: any hash it returns has 20 bytes. |
| RawInfo.CheckedPieceInRange | rustorrent/src/types/info.rs:172-175 | With checked offsets, `piece(i)` returns a hash exactly when `i < pieces_count`, and that hash is the 20 bytes at `20*i`, for every `usize` index. |
| RawInfo.ChunkAt | rustorrent/src/types/info.rs:29 | Chunk `i` of `chunks_exact(20)` is bytes `[20*i, 20*i+20)`. A trailing partial chunk is dropped. |
| RawInfo.Hashes | rustorrent/src/types/info.rs:26-31 | The hash list of the conversion has `pieces_count` entries, each of 20 bytes. |
| RawInfo.HashesMatchPiece | rustorrent/src/types/info.rs:26-31 | Hash `i` of the normalised info is what `piece(i)` returns on the raw info. |
| RawInfo.InfoFiles | rustorrent/src/types/info.rs:35-50 | Building the file list panics exactly when both fields are missing or `length` is negative. Otherwise it gives one file named after the torrent, or one file per raw entry with its length as `usize`. |
| RawInfo.LenIsFileTotal | rustorrent/src/types/info.rs:33-50 | When the file list exists, `len` is the sum of its file lengths modulo 2^64, and exactly that sum when it fits. |
| RawInfo.FileSumWraps | rustorrent/src/types/info.rs:45 | Reading each raw length `as usize` adds 2^64 to the total once per negative length. |
| ServiceInfo.PieceTryFrom | service/src/types/info.rs:100-106 | `Piece::try_from` succeeds exactly on a 20-byte slice and keeps its bytes. |
| ServiceInfo.ShortSliceRefused | service/src/types/info.rs:100-106 | A slice of any other length is refused with `TryFromSliceError`. |
| ServiceInfo.HashesConvert | service/src/types/info.rs:48-53 | Every 20-byte chunk of the hash string converts, so the `unwrap` never panics. |
| ServiceInfo.LastPieceLength | service/src/types/info.rs:78-81 | The last piece length lies in `[1, piece_length]`. It is the whole piece exactly when the length divides evenly, including a length of 0, and otherwise the remainder. |
| ServiceInfo.From | service/src/types/info.rs:46-95 | The conversion panics exactly when building the file list does or the piece length is 0 as `usize`. Otherwise files, length, piece length and hashes are those of the raw info. |
| ServiceInfo.FromPieceSizes | service/src/types/info.rs:74-83 | The last piece holds between 1 and `piece_length` bytes. Both block counts come from the same `count_parts(_, BLOCK_SIZE)`, applied to the regular and to the last piece length. |
| ServiceInfo.LastPieceMatchesLayout | service/src/types/info.rs:78-81 | For a non-empty payload whose length fits in `usize`, the last piece length is the size of the last piece of the layout. An empty payload is given a full last piece. |
| ServiceInfo.Len | service/src/types/info.rs:25-27 | `len` is the payload length the conversion stored; `ServiceInfo.EmptyAgrees` ties it to the raw info. |
| ServiceInfo.IsEmpty | service/src/types/info.rs:29-31 | `is_empty` holds exactly when that length is 0. |
| ServiceInfo.Sizes | service/src/types/info.rs:35-43 | `sizes(index)` is always one of the two pairs: the regular piece length and block count, or the last piece's. |
| ServiceInfo.SizesByIndex | service/src/types/info.rs:35-43 | With hashes present, `sizes(i)` is the last piece's size and block count for the last index, and the regular ones for every other index. |
| ServiceInfo.SizesWithoutPieces | service/src/types/info.rs:36 | With no hashes, `pieces.len() - 1` wraps, so only index 2^64 - 1 gets the last piece's sizes. |
| ServiceInfo.EmptyAgrees | service/src/types/info.rs:29-31 | A converted info is empty exactly when the raw info is, that is when the file lengths add up to a multiple of 2^64. |
| Messages.IndexInBitarray | rustorrent/src/messages/mod.rs:23-25 | The byte is `index / 8` and the mask is bit `7 - index % 8`, so piece 0 is the high bit of byte 0. |
| Messages.IndexRecovered | rustorrent/src/messages/mod.rs:23-25 | The mask has exactly one bit set, one of 1, 2, 4, …, 128, and the index is recovered as `8 * byte` plus the mask's position from the high end. |
| Messages.IndexInjective | rustorrent/src/messages/mod.rs:23-25 | Distinct indices give distinct `(byte, mask)` pairs. |
| Messages.BitByIndex | rustorrent/src/messages/mod.rs:28-37 | `bit_by_index` is `None` past the end of the field, and any answer it gives is `index_in_bitarray(index)`. |
| Messages.BitTest | rustorrent/src/messages/mod.rs:31 | Masking a byte with a single-bit mask reads that bit of its value. |
| Messages.BitByIndexHasPiece | rustorrent/src/messages/mod.rs:28-37 | `bit_by_index` answers exactly for the pieces whose bit, counted MSB first, is set in the field. |
| Messages.OnlyItsByte | rustorrent/src/messages/mod.rs:28-37 | The answer depends only on the byte that holds the piece. |
| Messages.FirstByte | rustorrent/src/messages/mod.rs:23-37 | `0x80` marks piece 0 and not piece 7, `0x01` marks piece 7, and piece 8 lies past a one-byte field. |
| PieceIo.ReadBlocks | flat-storage-mmap/src/lib.rs:85-99 | A piece's bytes are as many as its blocks cover. |
| PieceIo.Splice | flat-storage-mmap/src/lib.rs:111 | `copy_from_slice` into a range puts the slice there and leaves every byte outside it unchanged. |
| PieceIo.WriteBlock | flat-storage-mmap/src/lib.rs:107-112 | Writing one block changes only its file, keeps every file's length, and reads back the block's bytes of the data. |
| PieceIo.FitCount | flat-storage-mmap/src/lib.rs:107-112 | The number of leading blocks whose range fits in the data buffer. The block after them is the first out of range. |
| PieceIo.ReadAfterDisjointWrites | flat-storage-mmap/src/lib.rs:101-115 | Writing blocks disjoint from a list of blocks leaves what that list reads unchanged. |
| PieceIo.ReadAfterWrite | flat-storage-mmap/src/lib.rs:85-115 | Writing a gap-free list of pairwise disjoint blocks, then reading it back, gives the data's prefix of the blocks' total size. |
| PieceIo.WriteOnlyInRanges | flat-storage-mmap/src/lib.rs:101-115 | Writing changes no file byte outside the ranges of the written blocks. |
| PieceIo.ConcatAt | flat-storage-mmap/src/lib.rs:118-164 | Byte `x` of file `f` is byte `start(f) + x` of the payload stream. |
| PieceIo.LayoutInFiles | flat-storage-mmap/src/lib.rs:118-164 | Over files of the listed lengths, every block of the layout names bytes inside its file. |
| PieceIo.PieceRoundTrip | flat-storage-mmap/src/lib.rs:85-115 | Writing piece `i` from a buffer at least its size and reading it back gives the buffer's prefix of the piece's size. |
| PieceIo.PieceFrame | flat-storage-mmap/src/lib.rs:101-115 | Writing any prefix of piece `i`'s blocks leaves every other piece reading the same. |
| PieceIo.PieceInStream | flat-storage-mmap/src/lib.rs:85-99 | Reading piece `i` gives the payload-stream bytes from `i*piece_length`, as many as the piece covers. |
| FlatStorageMmap.SetLen | flat-storage-mmap/src/lib.rs:71 | A file after `set_len` has the requested length, keeps its bytes below it, and is zero beyond its old end. |
| FlatStorageMmap.LoadFiles | flat-storage-mmap/src/lib.rs:49-78 | Fails exactly when some file's I/O fails. Otherwise it gives one fresh, distinct buffer per file, in file order, each the existing contents resized to the file's length. |
| FlatStorageMmap.MmapFlatStorage.Create | flat-storage-mmap/src/lib.rs:33-46 | `create` fails exactly when loading the files does. Otherwise it keeps the files and one buffer per file holding its resized contents, and its mapping is the layout. |
| FlatStorageMmap.MmapFlatStorage.constructor | flat-storage-mmap/src/lib.rs:41-45 | The storage holds the given files, buffers and layout. |
| FlatStorageMmap.ReadBlocksFrom | flat-storage-mmap/src/lib.rs:91-96 | The loop of `read_piece` yields, block after block, the bytes the blocks name in the file buffers. |
| FlatStorageMmap.MmapFlatStorage.ReadPiece | flat-storage-mmap/src/lib.rs:85-99 | An index past the mapping panics. Otherwise the result is always `Ok(Some(_))`, holding the bytes piece `index`'s blocks name, in block order. |
| FlatStorageMmap.MmapFlatStorage.WritePiece | flat-storage-mmap/src/lib.rs:101-115 | An index past the mapping panics and writes nothing. Otherwise the blocks are copied in order until one lies past the buffer, which panics. The files become exactly those writes. When all blocks are written, reading the piece gives the buffer's prefix of its size. Every other piece reads the same as before. |
| FlatStorageMmap.MmapFlatStorage.CopyBlocks | flat-storage-mmap/src/lib.rs:107-112 | The copy loop writes the blocks that fit in the buffer, in order, and stops at the first that does not. |
| FlatStorageMmap.MmapFlatStorage.WriteFileBlock | flat-storage-mmap/src/lib.rs:108-111 | One block's `copy_from_slice` changes the files exactly as `WriteBlock` says. |
| FlatStorageMmap.MmapFlatStorage.OthersUnchanged | flat-storage-mmap/src/lib.rs:101-115 | Writing the first `n` blocks of piece `index` leaves every other piece reading the same. |
| FlatStorageMmap.CopyInto | flat-storage-mmap/src/lib.rs:111 | `copy_from_slice` puts the bytes into the buffer from the given position and changes nothing else. |
| PeerPieceDownloaded.Process | rustorrent/src/app/process_peer_piece_downloaded.rs:3-80 | The operation as a function of the peer map and the trace so far. No peer is added or removed, the earlier trace is kept as a prefix, and an error comes only after the save was recorded. |
| PeerPieceDownloaded.Swarm.ProcessPeerPieceDownloaded | rustorrent/src/app/process_peer_piece_downloaded.rs:3-80 | The new peer map, the trace and the result are those of `Process`. |
| PeerPieceDownloaded.NothingForUnconnectedPeer | rustorrent/src/app/process_peer_piece_downloaded.rs:12-43 | An absent or unconnected peer: the result is `Ok`, and nothing changes, is saved or is sent. |
| PeerPieceDownloaded.SlotsCleared | rustorrent/src/app/process_peer_piece_downloaded.rs:20-21 | For a connected peer both download slots are empty afterwards, even when only one was set. Its bitfield is kept and no other peer's state changes. |
| PeerPieceDownloaded.SavedOnlyWhenDownloading | rustorrent/src/app/process_peer_piece_downloaded.rs:20-37 | The save is the first new effect, and happens only when both slots were set; otherwise the result is `Ok` with no effect. A failed save is the result, and then the save is the only new effect: nothing is sent or selected. |
| PeerPieceDownloaded.NotifiesThenSelects | rustorrent/src/app/process_peer_piece_downloaded.rs:23-77 | After a successful save the new effects are exactly: the save, the other peers' notifications, then one call of the selection with the originating peer's downloadable list. So every message of the call precedes the selection, which is the last effect. The result is `Ok` exactly when the selection succeeds. |
| PeerPieceDownloaded.NotifyPeers | rustorrent/src/app/process_peer_piece_downloaded.rs:45-75 | The notification loop sends exactly the messages `Notifications` lists for the walk. |
| PeerPieceDownloaded.CollectDownloadable | rustorrent/src/app/process_peer_piece_downloaded.rs:25-33 | The loop over the peer's bitfield builds the downloadable list byte by byte through `match_pieces`. |
| PeerPieceDownloaded.HaveSent | rustorrent/src/app/process_peer_piece_downloaded.rs:45-64 | `Have(index)` goes exactly to the other connected peers in the walk whose bitfield lacks the piece. It never goes to the originating peer. |
| PeerPieceDownloaded.CancelSent | rustorrent/src/app/process_peer_piece_downloaded.rs:65-73 | `Cancel` goes exactly to the peers told `Have` that are fetching the same piece. |
| PeerPieceDownloaded.CancelFollowsHave | rustorrent/src/app/process_peer_piece_downloaded.rs:58-73 | Every `Cancel` comes right after the `Have` sent to the same peer. |
| DownloadEvents.ViewOf | service/src/app/download_events_loop/mod.rs:35-53 | A view is active exactly when the torrent is enabled. `received` is the bytes written and `uploaded` the bytes read. `id` and `name` are copied, and `length` is the info's length. |
| DownloadEvents.ListViews | service/src/app/download_events_loop/mod.rs:126-132 | The listing has one view per torrent, in registry order. |
| DownloadEvents.FindProcess | service/src/app/download_events_loop/mod.rs:111-120 | The handshake answer is `None` exactly when no torrent has the info-hash. Otherwise it is the process of the first torrent that has it. |
| DownloadEvents.Step | service/src/app/download_events_loop/mod.rs:91-141 | One turn of the loop. Each command is answered with a reply of its own kind; handshakes and listings keep the registry, and an action keeps the id counter. |
| DownloadEvents.ReadOnlyStep | service/src/app/download_events_loop/mod.rs:105-132 | A handshake is answered with the process of the first torrent with that info-hash, a listing with the views of all torrents; neither changes the registry. |
| DownloadEvents.ReadOnlyRun | service/src/app/download_events_loop/mod.rs:105-132 | Handshakes and listings leave the torrents and the id counter unchanged, with one reply per command. |
| DownloadEvents.DownloadEventsLoop.constructor | service/src/app/download_events_loop/mod.rs:87-88 | The loop starts with no torrents and id 0. |
| DownloadEvents.DownloadEventsLoop.Handle | service/src/app/download_events_loop/mod.rs:91-141 | One command moves the registry and the replies as `Step` says. Only adding a torrent and acting on one change the registry. |
| DownloadEvents.DownloadEventsLoop.Run | service/src/app/download_events_loop/mod.rs:83-146 | The commands are served in arrival order, and the registry and replies end up as `Replay` says. |
| Broadcasting.Broadcaster.constructor | rustorrent-web/src/main.rs:147-149 | A new broadcaster has no clients. |
| Broadcasting.Broadcaster.NewClient | rustorrent-web/src/main.rs:151-162 | Given a channel created for the call, so held by no client yet, the greeting is placed in it and it is appended to the list. Existing clients are unchanged. |
| Broadcasting.Broadcaster.Message | rustorrent-web/src/main.rs:164-176 | Every client is tried once, in order, and the list itself is left alone. The result is `Ok` when all sends succeeded, and otherwise `Err` of the clients that accepted. |
| Broadcasting.Broadcaster.Broadcast | rustorrent-web/src/main.rs:108-111 | After a broadcast the list is the clients that accepted, so it never grows. |
| Broadcasting.Kept | rustorrent-web/src/main.rs:165-171 | The clients whose send succeeded, in their order; never more than the list held. |
| Broadcasting.KeptLength | rustorrent-web/src/main.rs:165-174 | As many clients are kept as sends succeeded. All are kept exactly when every send succeeded. |
| Broadcasting.KeptAll | rustorrent-web/src/main.rs:172-175 | When every send succeeds, the list is kept whole. |
| Broadcasting.MessageOutcome | rustorrent-web/src/main.rs:172-175 | `message` is `Ok` exactly when every send succeeded, and an `Err` payload is strictly shorter than the list. |
| Broadcasting.KeptMembers | rustorrent-web/src/main.rs:167-171 | The kept clients are exactly those whose send succeeded. |
| Broadcasting.KeptPrefix | rustorrent-web/src/main.rs:167-171 | The clients kept keep their original order. |
| Broadcasting.Deliveries | rustorrent-web/src/main.rs:168 | A broadcast places one message with the data in each kept client's channel, in order. |

## Left out

- File system I/O in `load_files`: creating directories and files, `set_len` and `mmap`. The existing file contents and the index of a failing file are parameters, and every failure is one `IoError`.
- The `Mutex` around each file handle, and its `saved` counter. The buffers are plain arrays, and concurrent access is not modelled.
- `files()` of the storage: the file list is a constant field of `MmapFlatStorage`.
- Bencode decoding (`try_from_bencode!`), which builds `TorrentInfoRaw`. The raw info is taken as given.
- The later service's `TorrentInfoRaw` has the same `len`, `is_empty`, `pieces_count` and `piece` as the first generation's. Both are modelled once, in `RawInfo`; its `From` is `ServiceInfo.From`.
- `count_parts` and `BLOCK_SIZE` are parameters of `ServiceInfo.From`.
- `match_pieces`, `storage.save`, the storage's downloaded set and `select_new_peer` are parameters or recorded calls. The changes `select_new_peer` itself makes to the peer map are not modelled.
- Send results in `process_peer_piece_downloaded` are only logged, so every send is recorded. `try_send` outcomes in the broadcaster are one boolean per client. Channels are numbers.
- The iteration order of the peer `HashMap` is a parameter: any order that visits each peer once.
- `add_torrent` and `torrent_action` are parameters. Only their results, the new torrents and the new id counter, are modelled.
- Sending a reply can fail, which is only logged, so every reply is recorded as handed over.
- The timer, the random delay, the HTTP server and the actix arbiters of the web front end. Only the two callers' replacement of the client list is modelled.
- Async execution and debug logging.
- Debug-build overflow panics. The model follows release builds, where `usize` and `i64` arithmetic wraps.
- RustorrentInfo.From and RustorrentInfo.MapPiecesToFiles: require that the layout loop ends, `Converges` and `Terminates`. With a piece length of 0 and a non-empty file the loop never ends. `LayoutProperties.NoProgressWithoutRoom` shows why; the non-terminating run itself is not modelled.
- FlatStorageMmap.MapPiecesToFiles and FlatStorageMmap.MmapFlatStorage.Create: require `Terminates` for the same reason.
- RawInfo.PieceWindow: stated only for indices whose byte offsets fit in `usize`. Beyond that `piece` wraps, as the finding below shows.
- ServiceInfo.LastPieceMatchesLayout: ties the last piece length to the layout only when the payload length fits in `usize`, because `len` wraps beyond that.
- RawInfo.HashesMatchPiece, RawInfo.CheckedPieceInRange and RustorrentInfo.FromHashes: require a hash string of at most 2^63 - 1 bytes, the most a Rust `Vec<u8>` can hold.

## Findings

| source | as written | input that shows it | evidently intended | confidence | as-written member | corrected member |
|---|---|---|---|---|---|---|
| rustorrent/src/types/info.rs:172-175 | `piece(index)` computes `index * 20` and `index + 20` in `usize`, which wrap in release builds. | `piece(2^62)` on a 40-byte hash string: `20 * 2^62` wraps to 0, so it returns the first hash instead of `None`. The same code is at service/src/types/info.rs:148-151. | Any index at or past `pieces_count` gives `None`. | not executed | RawInfo.PieceWrapsAround | RawInfo.CheckedPieceInRange |
