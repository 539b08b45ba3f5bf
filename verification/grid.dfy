/**
  Grid geometry of the snake board: cells in grid units, the pixel size of a
  cell, the columns and rows a board of a given pixel size holds, and how a
  draw of `java.util.Random.nextInt` picks a cell.
*/
module Grid {

  /** Side of one cell in pixels (`tileSize`). */
  const TileSize: int := 25

  /** A board position in grid units (the source's `Tile`). */
  datatype Cell = Cell(x: int, y: int)

  /** A pair of raw random draws, one per axis, before reduction into the grid. */
  datatype RawCell = RawCell(rx: nat, ry: nat)

  /** Two tiles collide when both coordinates agree, i.e. they are the same cell. */
  function Collision(a: Cell, b: Cell): (r: bool)
    ensures r <==> a == b
  {
    a.x == b.x && a.y == b.y
  }

  /** A board of `width` pixels has `width / TileSize` whole columns; rows likewise. */
  function Columns(width: int): int
  {
    width / TileSize
  }

  function Rows(height: int): int
  {
    height / TileSize
  }

  /** A board on which `nextInt(width / TileSize)` and `nextInt(height / TileSize)` do not throw. */
  predicate ValidBoardSize(width: int, height: int)
  {
    width >= TileSize && height >= TileSize
  }

  /** The cells food and power-ups can be drawn on. */
  predicate InGrid(c: Cell, width: int, height: int)
  {
    0 <= c.x < Columns(width) && 0 <= c.y < Rows(height)
  }

  /**
    `random.nextInt(bound)`: the outcome of a raw draw. Every value in
    `[0, bound)` is the outcome of some raw draw: a raw value below the bound
    is drawn as itself.
  */
  function NextInt(raw: nat, bound: int): (r: int)
    requires bound > 0
    ensures 0 <= r < bound
    ensures raw < bound ==> r == raw
  {
    raw % bound
  }

  /** A cell drawn as in `placeFood`: one `nextInt` per axis over the grid's extent. */
  function DrawCell(raw: RawCell, width: int, height: int): (c: Cell)
    requires ValidBoardSize(width, height)
    ensures InGrid(c, width, height)
  {
    Cell(NextInt(raw.rx, Columns(width)), NextInt(raw.ry, Rows(height)))
  }

  /** Every grid cell can be drawn, so supplying raw draws loses no behaviour of `Random`. */
  lemma DrawCellCovers(c: Cell, width: int, height: int)
    requires ValidBoardSize(width, height)
    requires InGrid(c, width, height)
    ensures DrawCell(RawCell(c.x, c.y), width, height) == c
  {
  }

  /** A cell is on the snake when it is the head or one of the body segments. */
  predicate OnSnake(c: Cell, head: Cell, body: seq<Cell>)
  {
    c == head || c in body
  }

  /** `collisionWithSnake`: test the head, then scan the body front to back, stopping at the first hit. */
  method CollisionWithSnake(tile: Cell, head: Cell, body: seq<Cell>) returns (r: bool)
    ensures r <==> OnSnake(tile, head, body)
  {
    if Collision(tile, head) {
      return true;
    }
    var i := 0;
    while i < |body|
      invariant 0 <= i <= |body|
      invariant tile != head
      invariant forall k :: 0 <= k < i ==> body[k] != tile
    {
      if Collision(tile, body[i]) {
        return true;
      }
      i := i + 1;
    }
    return false;
  }

}
