/** The progress puzzle: one 100 x 100 piece per stage on a near-square
    grid, numbered from 1, and the canvas that holds the grid. */
module PuzzleCanvas {

  const PIECE_SIZE: int := 100

  /** `Math.ceil(Math.sqrt(n))`: the least c with c * c >= n. */
  function Cols(n: nat): (c: nat)
    ensures c * c >= n
    ensures c == 0 || (c - 1) * (c - 1) < n
  {
    ColsFrom(n, 0)
  }

  function ColsFrom(n: nat, c: nat): (r: nat)
    requires c == 0 || (c - 1) * (c - 1) < n
    ensures r * r >= n && c <= r
    ensures r == 0 || (r - 1) * (r - 1) < n
    decreases n - c
  {
    if c * c >= n then c
    else ColsFrom(n, c + 1)
  }

  /** `Math.ceil(n / cols)`: the least number of rows of `cols` cells that
      holds n cells. */
  function Rows(n: nat, cols: nat): (r: nat)
    requires cols > 0
    ensures cols * r >= n
    ensures r == 0 || cols * (r - 1) < n
  {
    (n + cols - 1) / cols
  }

  /** How the piece outline was obtained: from the puzzle library, or the
      plain rectangle of the fallback branch. */
  datatype Outline = Generated | Rectangle

  datatype Piece = Piece(stageId: string, outline: Outline, x: int, y: int, width: int, height: int, index: int)

  /** Stage `i` goes to column `i % cols` and row `i / cols`, labelled i + 1;
      the normal and the fallback branch differ only in the outline. */
  function PieceAt(ids: seq<string>, i: nat, cols: nat, outline: Outline): (p: Piece)
    requires i < |ids| && cols > 0
  {
    Piece(ids[i], outline, (i % cols) * PIECE_SIZE, (i / cols) * PIECE_SIZE, PIECE_SIZE, PIECE_SIZE, i + 1)
  }

  /** pieces: none for no stages, otherwise one per stage in stage order. */
  function Pieces(ids: seq<string>, outline: Outline): (ps: seq<Piece>)
    ensures |ps| == |ids|
    ensures |ids| > 0 ==> forall i :: 0 <= i < |ps| ==> ps[i] == PieceAt(ids, i, Cols(|ids|), outline)
  {
    if |ids| == 0 then []
    else
      var cols := Cols(|ids|);
      seq(|ids|, i requires 0 <= i < |ids| => PieceAt(ids, i, cols, outline))
  }

  /** canvasSize: 800 x 600 without stages, otherwise the grid's extent. */
  function CanvasSize(n: nat): (wh: (int, int))
    ensures n == 0 ==> wh == (800, 600)
    ensures n > 0 ==> wh == (Cols(n) * PIECE_SIZE, Rows(n, Cols(n)) * PIECE_SIZE)
  {
    if n == 0 then (800, 600) else (Cols(n) * PIECE_SIZE, Rows(n, Cols(n)) * PIECE_SIZE)
  }

  /** Every piece is labelled by its position in the stage list. */
  lemma PiecesLabelled(ids: seq<string>, outline: Outline)
    requires |ids| > 0
    ensures forall i :: 0 <= i < |ids| ==> Pieces(ids, outline)[i].index == i + 1 && Pieces(ids, outline)[i].stageId == ids[i]
  {
  }

  /** Every piece lies inside the canvas. */
  lemma PiecesInsideCanvas(ids: seq<string>, outline: Outline)
    requires |ids| > 0
    ensures forall i :: 0 <= i < |ids| ==> InCanvas(Pieces(ids, outline)[i], CanvasSize(|ids|))
  {
    var cols := Cols(|ids|);
    GridInside(ids, outline, cols, Rows(|ids|, cols), Pieces(ids, outline));
  }

  lemma GridInside(ids: seq<string>, outline: Outline, cols: nat, rows: nat, ps: seq<Piece>)
    requires cols > 0 && cols * rows >= |ids| && |ps| == |ids|
    requires forall i :: 0 <= i < |ids| ==> ps[i] == PieceAt(ids, i, cols, outline)
    ensures forall i :: 0 <= i < |ids| ==> InCanvas(ps[i], (cols * PIECE_SIZE, rows * PIECE_SIZE))
  {
    forall i | 0 <= i < |ids|
      ensures InCanvas(ps[i], (cols * PIECE_SIZE, rows * PIECE_SIZE))
    {
      CellInGrid(i, |ids|, cols, rows);
      PieceInside(ps[i], i, cols, cols * PIECE_SIZE, rows * PIECE_SIZE);
    }
  }

  lemma PieceInside(p: Piece, i: nat, cols: nat, w: int, h: int)
    requires cols > 0
    requires p.x == (i % cols) * PIECE_SIZE && p.y == (i / cols) * PIECE_SIZE
    requires p.width == PIECE_SIZE && p.height == PIECE_SIZE
    requires (i % cols) * PIECE_SIZE + PIECE_SIZE <= w && (i / cols) * PIECE_SIZE + PIECE_SIZE <= h
    ensures InCanvas(p, (w, h))
  {
  }

  predicate InCanvas(p: Piece, size: (int, int)) {
    0 <= p.x && p.x + p.width <= size.0 && 0 <= p.y && p.y + p.height <= size.1
  }

  /** No two pieces share a cell. */
  lemma PiecesDistinct(ids: seq<string>, outline: Outline)
    requires |ids| > 0
    ensures forall i, j :: 0 <= i < j < |ids| ==> Cell(Pieces(ids, outline)[i]) != Cell(Pieces(ids, outline)[j])
  {
    var cols := Cols(|ids|);
    var ps := Pieces(ids, outline);
    forall i, j | 0 <= i < j < |ids|
      ensures Cell(ps[i]) != Cell(ps[j])
    {
      CellsDistinct(i, j, cols);
      assert Cell(ps[i]) == ((i % cols) * PIECE_SIZE, (i / cols) * PIECE_SIZE);
      assert Cell(ps[j]) == ((j % cols) * PIECE_SIZE, (j / cols) * PIECE_SIZE);
    }
  }

  function Cell(p: Piece): (int, int) {
    (p.x, p.y)
  }

  /** The fallback branch places every piece exactly where the normal one does. */
  lemma FallbackSameCells(ids: seq<string>)
    ensures forall i :: 0 <= i < |ids| ==> Cell(Pieces(ids, Generated)[i]) == Cell(Pieces(ids, Rectangle)[i])
  {
  }

  lemma CellInGrid(i: nat, n: nat, cols: nat, rows: nat)
    requires i < n && cols > 0 && cols * rows >= n
    ensures (i % cols) * PIECE_SIZE + PIECE_SIZE <= cols * PIECE_SIZE
    ensures (i / cols) * PIECE_SIZE + PIECE_SIZE <= rows * PIECE_SIZE
  {
    assert cols * (i / cols) <= i;
    if i / cols >= rows {
      MulMonotonic(cols, rows, i / cols);
    }
  }

  lemma MulMonotonic(c: nat, a: nat, b: nat)
    requires a <= b
    ensures c * a <= c * b
  {
  }

  lemma CellsDistinct(i: nat, j: nat, cols: nat)
    requires i != j && cols > 0
    ensures (i % cols * PIECE_SIZE, i / cols * PIECE_SIZE) != (j % cols * PIECE_SIZE, j / cols * PIECE_SIZE)
  {
    assert i == cols * (i / cols) + i % cols;
    assert j == cols * (j / cols) + j % cols;
  }
}
