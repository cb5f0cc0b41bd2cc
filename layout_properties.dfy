/**
 * What the piece layout promises: every block lies in its file where the
 * concatenated payload puts it, the blocks of a piece run on without gaps, all
 * pieces but the last are full, there are as many pieces as the payload needs,
 * the flattened blocks cover every file in order, and no two blocks overlap.
 */
module LayoutProperties {
  import opened PieceLayout

  /** Facts about the final loop state that the lemmas below share. */
  lemma FinalState(pieceLength: nat, lengths: seq<nat>)
    requires Terminates(pieceLength, lengths)
    ensures var c := Fold(pieceLength, lengths, |lengths|);
            && CursorOk(pieceLength, lengths, c, Sum(lengths))
            && (c.mapping != [] ==> c.offset > 0)
            && (pieceLength == 0 ==> c.mapping == [])
  {
    FoldOk(pieceLength, lengths, |lengths|);
    assert lengths[..|lengths|] == lengths;
  }

  lemma {:induction false} FullPiecesSize(mapping: seq<seq<FileBlock>>, pieceLength: nat)
    requires forall i :: 0 <= i < |mapping| ==> BlocksSize(mapping[i]) == pieceLength
    ensures MappedSize(mapping) == |mapping| * pieceLength
  {
    if mapping != [] {
      var n := |mapping| - 1;
      FullPiecesSize(mapping[..n], pieceLength);
      MulSucc(n, pieceLength);
    }
  }

  /** The layout is the closed pieces followed by the open one, if it holds a block. */
  lemma LayoutAt(pieceLength: nat, lengths: seq<nat>)
    requires Terminates(pieceLength, lengths)
    ensures var c := Fold(pieceLength, lengths, |lengths|);
            && |Layout(pieceLength, lengths)| == |c.mapping| + (if c.current != [] then 1 else 0)
            && (forall i :: 0 <= i < |c.mapping| ==> Layout(pieceLength, lengths)[i] == c.mapping[i])
            && (c.current != [] ==> Layout(pieceLength, lengths)[|c.mapping|] == c.current)
  {
  }

  /**
   * Each piece of the layout is non-empty, runs on from offset 0 without gaps,
   * and has its blocks placed where the payload stream puts them; every piece
   * but the last holds exactly `pieceLength` bytes, the last at most that.
   */
  lemma LayoutPieces(pieceLength: nat, lengths: seq<nat>, i: nat)
    requires Terminates(pieceLength, lengths)
    requires i < |Layout(pieceLength, lengths)|
    ensures var piece := Layout(pieceLength, lengths)[i];
            && |piece| > 0
            && PieceOk(pieceLength, lengths, i, piece)
            && BlocksSize(piece) <= pieceLength
            && (i < |Layout(pieceLength, lengths)| - 1 ==> BlocksSize(piece) == pieceLength)
  {
    FinalState(pieceLength, lengths);
    LayoutAt(pieceLength, lengths);
    var c := Fold(pieceLength, lengths, |lengths|);
    var piece := if i < |c.mapping| then c.mapping[i] else c.current;
    assert Layout(pieceLength, lengths)[i] == piece;
    assert PieceOk(pieceLength, lengths, i, piece);
    if i < |c.mapping| {
      assert BlocksSize(piece) == pieceLength;
      assert pieceLength > 0;
      assert piece != [];
    } else {
      assert piece == c.current && c.current != [];
    }
  }

  /** The blocks of all pieces together cover exactly the bytes of all files. */
  lemma LayoutSize(pieceLength: nat, lengths: seq<nat>)
    requires Terminates(pieceLength, lengths)
    ensures MappedSize(Layout(pieceLength, lengths)) == Sum(lengths)
  {
    FinalState(pieceLength, lengths);
    var c := Fold(pieceLength, lengths, |lengths|);
    FullPiecesSize(c.mapping, pieceLength);
    if c.current != [] {
      MappedSizeSnoc(c.mapping, c.current);
    }
  }

  lemma MulMono(x: nat, y: nat, b: nat)
    requires x <= y
    ensures x * b <= y * b
  {
    var d := y - x;
    assert y * b == x * b + d * b;
  }

  /** A strictly larger factor gives a product at least one `b` larger. */
  lemma MulStepUp(x: int, y: int, b: nat)
    ensures x < y ==> (x + 1) * b <= y * b
  {
    var d := y - x - 1;
    assert y * b == (x + 1) * b + d * b;
  }

  lemma DivIs(a: nat, b: nat, q: nat)
    requires b > 0
    requires q * b <= a < q * b + b
    ensures a / b == q
  {
    var d := a / b;
    assert a == d * b + a % b;
    assert (q + 1) * b == q * b + b;
    assert (d + 1) * b == d * b + b;
    MulStepUp(q, d, b);
    MulStepUp(d, q, b);
  }

  /**
   * A payload of `Sum(lengths) > 0` bytes gives `ceil(Sum / pieceLength)`
   * pieces, the last of them holding the remainder (a full piece when the
   * payload divides evenly).  An empty payload gives at most one piece.
   */
  lemma LayoutCount(pieceLength: nat, lengths: seq<nat>)
    requires Terminates(pieceLength, lengths)
    ensures var layout := Layout(pieceLength, lengths);
            && (Sum(lengths) == 0 ==> |layout| <= 1)
            && (Sum(lengths) > 0 ==>
                  && pieceLength > 0
                  && |layout| == (Sum(lengths) + pieceLength - 1) / pieceLength
                  && BlocksSize(layout[|layout| - 1])
                     == (if Sum(lengths) % pieceLength == 0 then pieceLength else Sum(lengths) % pieceLength))
  {
    FinalState(pieceLength, lengths);
    LayoutAt(pieceLength, lengths);
    var c := Fold(pieceLength, lengths, |lengths|);
    if Sum(lengths) == 0 {
      NoClosedPieces(|c.mapping|, pieceLength, c.offset);
    } else {
      LastPiece(pieceLength, lengths);
    }
  }

  /** No payload, no closed piece: a closed piece leaves a non-empty open one behind. */
  lemma NoClosedPieces(closed: nat, pieceLength: nat, offset: nat)
    requires closed * pieceLength + offset == 0
    requires closed > 0 ==> offset > 0
    ensures closed == 0
  {
  }

  /** A non-empty payload ends with an open piece of between 1 and `pieceLength` bytes. */
  lemma LastPiece(pieceLength: nat, lengths: seq<nat>)
    requires Terminates(pieceLength, lengths)
    requires Sum(lengths) > 0
    ensures var c := Fold(pieceLength, lengths, |lengths|);
            && pieceLength > 0
            && c.current != []
            && (Sum(lengths) + pieceLength - 1) / pieceLength == |c.mapping| + 1
            && (if Sum(lengths) % pieceLength == 0 then pieceLength else Sum(lengths) % pieceLength) == BlocksSize(c.current)
  {
    FinalState(pieceLength, lengths);
    var c := Fold(pieceLength, lengths, |lengths|);
    var total := Sum(lengths);
    var m := |c.mapping|;
    assert total == m * pieceLength + c.offset;
    assert c.mapping == [] ==> c.offset == total;
    assert pieceLength > 0;
    assert c.current != [];
    CountArith(total, pieceLength, m, c.offset);
  }

  /** The arithmetic behind `LayoutCount`: `m` full pieces and a last one of `o` bytes. */
  lemma CountArith(total: nat, pieceLength: nat, m: nat, o: nat)
    requires 0 < o <= pieceLength
    requires total == m * pieceLength + o
    ensures (total + pieceLength - 1) / pieceLength == m + 1
    ensures (if total % pieceLength == 0 then pieceLength else total % pieceLength) == o
  {
    assert (m + 1) * pieceLength == m * pieceLength + pieceLength;
    DivIs(total + pieceLength - 1, pieceLength, m + 1);
    if o == pieceLength {
      DivIs(total, pieceLength, m + 1);
    } else {
      DivIs(total, pieceLength, m);
    }
  }

  /**
   * Read in order, the blocks of all pieces cover every file from byte 0 to
   * its end: within a file `fileOffset` advances by each block's size, and
   * `fileIndex` only ever moves on to the next file once the current one is
   * complete.
   */
  lemma LayoutTiles(pieceLength: nat, lengths: seq<nat>)
    requires Terminates(pieceLength, lengths)
    ensures Tiles(Flatten(Layout(pieceLength, lengths)), lengths, |lengths|)
  {
    FoldTiles(pieceLength, lengths, |lengths|);
    var c := Fold(pieceLength, lengths, |lengths|);
    if c.current != [] {
      FlattenSnoc(c.mapping, c.current);
    } else {
      assert Flat(c) == Flatten(c.mapping);
    }
  }

  /** Across the flattened layout, `fileIndex` never decreases. */
  lemma {:induction false} TilesMonotone(blocks: seq<FileBlock>, lengths: seq<nat>, n: nat, j: nat, k: nat)
    requires Tiles(blocks, lengths, n)
    requires j <= k < |blocks|
    ensures blocks[j].fileIndex <= blocks[k].fileIndex
    decreases k - j
  {
    if j < k {
      TilesMonotone(blocks, lengths, n, j, k - 1);
      assert Successor(blocks[k - 1], blocks[k], lengths);
    }
  }

  lemma MulStep(i: nat, j: nat, p: nat)
    requires i < j
    ensures i * p + p <= j * p
  {
    MulMono(i + 1, j, p);
    assert (i + 1) * p == i * p + p;
  }

  /** Two different blocks of the layout never name an overlapping range of a file. */
  lemma LayoutDisjoint(pieceLength: nat, lengths: seq<nat>, i: nat, k: nat, j: nat, l: nat)
    requires Terminates(pieceLength, lengths)
    requires i < |Layout(pieceLength, lengths)| && j < |Layout(pieceLength, lengths)|
    requires k < |Layout(pieceLength, lengths)[i]| && l < |Layout(pieceLength, lengths)[j]|
    requires (i, k) != (j, l)
    ensures Disjoint(Layout(pieceLength, lengths)[i][k], Layout(pieceLength, lengths)[j][l])
  {
    var layout := Layout(pieceLength, lengths);
    LayoutPieces(pieceLength, lengths, i);
    LayoutPieces(pieceLength, lengths, j);
    var a, b := layout[i][k], layout[j][l];
    assert Placed(pieceLength, lengths, i, a) && Placed(pieceLength, lengths, j, b);
    if i == j {
      if k < l { BlocksInOrder(layout[i], k, l); } else { BlocksInOrder(layout[i], l, k); }
    } else if i < j {
      BlockEndsWithinPiece(layout[i], k);
      MulStep(i, j, pieceLength);
    } else {
      BlockEndsWithinPiece(layout[j], l);
      MulStep(j, i, pieceLength);
    }
  }

  // ---------------------------------------------------------------------------
  // The cases pinned by the unit tests, and the zero-size blocks

  /** 1000 bytes in pieces of 100 make ten pieces. */
  lemma TenPieces()
    ensures |Layout(100, [1000])| == 10
  {
    assert Sum([1000]) == 1000 by {
      assert [1000][..0] == [];
    }
    LayoutCount(100, [1000]);
  }

  lemma OneFullPiece()
    ensures Layout(1000, [1000]) == [[FileBlock(0, 0, 0, 1000)]]
  {
    assert Fold(1000, [1000], 1) == SplitFile(1000, Start(1000), 0, 0, 1000);
    assert Fold(1000, [1000], 1) == Cursor([], [FileBlock(0, 0, 0, 1000)], 0, 1000);
  }

  lemma OneShortPiece()
    ensures Layout(1000, [800]) == [[FileBlock(0, 0, 0, 800)]]
  {
    assert Fold(1000, [800], 1) == SplitFile(1000, Start(1000), 0, 0, 800);
    assert Fold(1000, [800], 1) == Cursor([], [FileBlock(0, 0, 0, 800)], 200, 800);
  }

  lemma ThreeFullPiecesAndOneByte()
    ensures Layout(333, [1000])
         == [[FileBlock(0, 0, 0, 333)], [FileBlock(0, 0, 333, 333)],
             [FileBlock(0, 0, 666, 333)], [FileBlock(0, 0, 999, 1)]]
  {
    var m1 := [[FileBlock(0, 0, 0, 333)]];
    var m2 := m1 + [[FileBlock(0, 0, 333, 333)]];
    var m3 := m2 + [[FileBlock(0, 0, 666, 333)]];
    var c1 := Cursor(m1, [], 333, 0);
    var c2 := Cursor(m2, [], 333, 0);
    var c3 := Cursor(m3, [], 333, 0);
    assert [] + [FileBlock(0, 0, 0, 333)] == [FileBlock(0, 0, 0, 333)];
    assert [] + [FileBlock(0, 0, 333, 333)] == [FileBlock(0, 0, 333, 333)];
    assert [] + [FileBlock(0, 0, 666, 333)] == [FileBlock(0, 0, 666, 333)];
    assert CloseStep(333, Start(333), 0, 0) == c1;
    assert CloseStep(333, c1, 0, 333) == c2;
    assert CloseStep(333, c2, 0, 666) == c3;
    assert SplitFile(333, c3, 0, 999, 1) == Cursor(m3, [FileBlock(0, 0, 999, 1)], 332, 1);
    assert SplitFile(333, c2, 0, 666, 334) == SplitFile(333, c3, 0, 999, 1);
    assert SplitFile(333, c1, 0, 333, 667) == SplitFile(333, c2, 0, 666, 334);
    assert SplitFile(333, Start(333), 0, 0, 1000) == SplitFile(333, c1, 0, 333, 667);
    assert Fold(333, [1000], 1) == SplitFile(333, Start(333), 0, 0, 1000);
  }

  lemma ThreeFilesAcrossPieces()
    ensures Layout(500, [300, 400, 500])
         == [[FileBlock(0, 0, 0, 300), FileBlock(300, 1, 0, 200)],
             [FileBlock(0, 1, 200, 200), FileBlock(200, 2, 0, 300)],
             [FileBlock(0, 2, 300, 200)]]
  {
    ThirdFileAcrossPieces();
  }

  /** The loop state of the example above after its third file. */
  lemma ThirdFileAcrossPieces()
    ensures Fold(500, [300, 400, 500], 3)
         == Cursor([[FileBlock(0, 0, 0, 300), FileBlock(300, 1, 0, 200)],
                    [FileBlock(0, 1, 200, 200), FileBlock(200, 2, 0, 300)]],
                   [FileBlock(0, 2, 300, 200)], 300, 200)
  {
    var m1 := [[FileBlock(0, 0, 0, 300), FileBlock(300, 1, 0, 200)]];
    var m2 := m1 + [[FileBlock(0, 1, 200, 200), FileBlock(200, 2, 0, 300)]];
    var f2 := Cursor(m1, [FileBlock(0, 1, 200, 200)], 300, 200);
    TwoFilesAcrossPieces();
    assert f2.current + [FileBlock(200, 2, 0, 300)] == m2[1];
    assert CloseStep(500, f2, 2, 0) == Cursor(m2, [], 500, 0);
    assert SplitFile(500, Cursor(m2, [], 500, 0), 2, 300, 200) == Cursor(m2, [FileBlock(0, 2, 300, 200)], 300, 200);
  }

  /** The loop state of the example above after its first two files. */
  lemma TwoFilesAcrossPieces()
    ensures Fold(500, [300, 400, 500], 2)
         == Cursor([[FileBlock(0, 0, 0, 300), FileBlock(300, 1, 0, 200)]], [FileBlock(0, 1, 200, 200)], 300, 200)
  {
    var lengths := [300, 400, 500];
    var f1 := Cursor([], [FileBlock(0, 0, 0, 300)], 200, 300);
    var m1 := [[FileBlock(0, 0, 0, 300), FileBlock(300, 1, 0, 200)]];
    assert Fold(500, lengths, 1) == SplitFile(500, Start(500), 0, 0, 300) == f1;
    assert f1.current + [FileBlock(300, 1, 0, 200)] == m1[0];
    assert CloseStep(500, f1, 1, 0) == Cursor(m1, [], 500, 0);
    assert Fold(500, lengths, 2) == SplitFile(500, f1, 1, 0, 400);
  }

  /**
   * A file that ends on a piece boundary, followed by a non-empty file: the
   * full piece gets a size-0 block of the next file before it is closed.
   */
  lemma ZeroBlockAtBoundary()
    ensures Layout(10, [10, 5])
         == [[FileBlock(0, 0, 0, 10), FileBlock(10, 1, 0, 0)], [FileBlock(0, 1, 0, 5)]]
  {
    var lengths := [10, 5];
    var b0, z, b1 := FileBlock(0, 0, 0, 10), FileBlock(10, 1, 0, 0), FileBlock(0, 1, 0, 5);
    var f1 := SplitFile(10, Start(10), 0, 0, 10);
    assert f1 == Cursor([], [] + [b0], 0, 10);
    var c1 := CloseStep(10, f1, 1, 0);
    var f2 := SplitFile(10, c1, 1, 0, 5);
    assert f2 == Cursor([f1.current + [z]], [] + [b1], 5, 5);
    assert Fold(10, lengths, |lengths|) == f2;
    assert f1.current + [z] == [b0, z];
    assert f2.mapping == [[b0, z]] && f2.current == [b1];
    assert Layout(10, lengths) == f2.mapping + [f2.current];
  }

  /** An empty file yields a size-0 block in the open piece. */
  lemma ZeroBlockForEmptyFile()
    ensures Layout(10, [3, 0, 4]) == [[FileBlock(0, 0, 0, 3), FileBlock(3, 1, 0, 0), FileBlock(3, 2, 0, 4)]]
  {
    var lengths := [3, 0, 4];
    var f1 := Cursor([], [FileBlock(0, 0, 0, 3)], 7, 3);
    var f2 := Cursor([], f1.current + [FileBlock(3, 1, 0, 0)], 7, 3);
    var f3 := Cursor([], f2.current + [FileBlock(3, 2, 0, 4)], 3, 7);
    assert Fold(10, lengths, 1) == SplitFile(10, Start(10), 0, 0, 3) == f1;
    assert Fold(10, lengths, 2) == SplitFile(10, f1, 1, 0, 0) == f2;
    assert Fold(10, lengths, 3) == SplitFile(10, f2, 2, 0, 4) == f3;
    assert f3.current == [FileBlock(0, 0, 0, 3), FileBlock(3, 1, 0, 0), FileBlock(3, 2, 0, 4)];
  }

  /** With no files there are no pieces; with only empty files, one piece of size-0 blocks. */
  lemma EmptyPayloads()
    ensures Layout(10, []) == []
    ensures Layout(10, [0, 0]) == [[FileBlock(0, 0, 0, 0), FileBlock(0, 1, 0, 0)]]
    ensures Layout(0, [0]) == [[FileBlock(0, 0, 0, 0)]]
  {
    assert Fold(10, [], 0) == Start(10);
    var f1 := Cursor([], [FileBlock(0, 0, 0, 0)], 10, 0);
    assert Fold(10, [0, 0], 1) == SplitFile(10, Start(10), 0, 0, 0) == f1;
    assert Fold(10, [0, 0], 2) == SplitFile(10, f1, 1, 0, 0)
        == Cursor([], [FileBlock(0, 0, 0, 0), FileBlock(0, 1, 0, 0)], 10, 0);
    assert Fold(0, [0], 1) == SplitFile(0, Start(0), 0, 0, 0) == Cursor([], [FileBlock(0, 0, 0, 0)], 0, 0);
    assert [] + [FileBlock(0, 0, 0, 0)] + [FileBlock(0, 1, 0, 0)] == [FileBlock(0, 0, 0, 0), FileBlock(0, 1, 0, 0)];
  }

  /**
   * With `pieceLength == 0` and bytes still to place, a turn of the `while`
   * loop leaves the open piece without room and the bytes still to place
   * unchanged, so the loop condition holds again: the loop never ends.
   */
  lemma NoProgressWithoutRoom(c: Cursor, f: nat, fileOffset: nat, remaining: nat)
    requires c.left == 0 && 0 < remaining
    ensures CloseStep(0, c, f, fileOffset).left == 0
    ensures var rest := remaining - c.left; rest == remaining && CloseStep(0, c, f, fileOffset).left < rest
  {
  }
}
