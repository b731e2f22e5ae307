/**
 * The tile window of `renderMap`: from the camera position, the loop bounds
 * are clamped to the map, and every cell in the window whose tile index
 * (stored 1-based) names an atlas slot is drawn. The camera position itself
 * comes from floating-point player coordinates and is an input here.
 */
module MapWindow {
  import opened Configs

  const BORDER_SIZE: int := 32
  const TILE_BUFFER: int := 2

  /** C++ `/` on `int`: the quotient truncated toward zero. */
  function TruncDiv(a: int, b: int): (q: int)
    requires b > 0
    ensures 0 <= a ==> 0 <= q && q * b <= a < q * b + b
    ensures a < 0 ==> q <= 0 && q * b - b < a <= q * b
  {
    if a >= 0 then a / b else -((-a) / b)
  }

  /** The width of the map in tiles, taken from its first row. */
  function MapWidth(mapData: seq<seq<int>>): nat {
    if |mapData| > 0 then |mapData[0]| else 0
  }

  /** What the renderer relies on: no row is narrower than the first. */
  predicate NoRowNarrowerThanFirst(mapData: seq<seq<int>>) {
    forall y :: 0 <= y < |mapData| ==> |mapData[y]| >= MapWidth(mapData)
  }

  /** The half-open cell ranges `[startX, endX) x [startY, endY)` the render loops walk. */
  datatype Window = Window(startX: int, startY: int, endX: int, endY: int)

  function Max(a: int, b: int): int { if a >= b then a else b }
  function Min(a: int, b: int): int { if a <= b then a else b }

  /** The clamped loop bounds of `renderMap` for camera (camX, camY). */
  function VisibleWindow(camX: int, camY: int, mapData: seq<seq<int>>): (w: Window)
    ensures 0 <= w.startX && w.endX <= MapWidth(mapData)
    ensures 0 <= w.startY && w.endY <= |mapData|
  {
    Window(
      Max(0, TruncDiv(camX - BORDER_SIZE, TILE_SIZE) - TILE_BUFFER),
      Max(0, TruncDiv(camY - BORDER_SIZE, TILE_SIZE) - TILE_BUFFER),
      Min(MapWidth(mapData), TruncDiv(camX + WIDTH, TILE_SIZE) + TILE_BUFFER),
      Min(|mapData|, TruncDiv(camY + HEIGHT, TILE_SIZE) + TILE_BUFFER))
  }

  /**
   * No visible tile is skipped: every map column whose pixels meet the
   * clipped view `[camX, camX + WIDTH - 2 * BORDER_SIZE)` is inside the
   * window, and likewise every row.
   */
  lemma WindowCoversView(camX: int, camY: int, mapData: seq<seq<int>>, x: int, y: int)
    ensures var w := VisibleWindow(camX, camY, mapData);
      && ((0 <= x < MapWidth(mapData) && camX < x * TILE_SIZE + TILE_SIZE
           && x * TILE_SIZE < camX + WIDTH - 2 * BORDER_SIZE) ==> w.startX <= x < w.endX)
      && ((0 <= y < |mapData| && camY < y * TILE_SIZE + TILE_SIZE
           && y * TILE_SIZE < camY + HEIGHT - 2 * BORDER_SIZE) ==> w.startY <= y < w.endY)
  {
  }

  /** Whether a stored tile value names an atlas slot: `0 <= value - 1 < tiles.size()`. */
  predicate Drawable(value: int, tileCount: nat) {
    0 <= value - 1 < tileCount
  }

  /** One `SDL_RenderCopy` of the loop: cell (x, y) drawn with atlas slot `tileIndex`. */
  datatype Draw = Draw(x: int, y: int, tileIndex: int)

  /** The draws of row `y` for columns `[x0, x1)`, left to right. */
  function RowDraws(row: seq<int>, y: int, x0: int, x1: int, tileCount: nat): seq<Draw>
    requires 0 <= x0 && (x1 <= x0 || x1 <= |row|)
    decreases x1 - x0
  {
    if x1 <= x0 then []
    else
      RowDraws(row, y, x0, x1 - 1, tileCount)
      + (if Drawable(row[x1 - 1], tileCount) then [Draw(x1 - 1, y, row[x1 - 1] - 1)] else [])
  }

  /** The draws of rows `[w.startY, yEnd)` of the window, row by row. */
  function WindowDraws(mapData: seq<seq<int>>, w: Window, yEnd: int, tileCount: nat): seq<Draw>
    requires NoRowNarrowerThanFirst(mapData)
    requires 0 <= w.startX && w.endX <= MapWidth(mapData)
    requires 0 <= w.startY && (yEnd <= w.startY || yEnd <= |mapData|)
    decreases yEnd - w.startY
  {
    if yEnd <= w.startY then []
    else
      WindowDraws(mapData, w, yEnd - 1, tileCount)
      + RowDraws(mapData[yEnd - 1], yEnd - 1, w.startX, w.endX, tileCount)
  }

  /** A row's draws are exactly its drawable cells in range. */
  lemma {:induction false} RowDrawsExactly(row: seq<int>, y: int, x0: int, x1: int, tileCount: nat, d: Draw)
    requires 0 <= x0 && (x1 <= x0 || x1 <= |row|)
    ensures d in RowDraws(row, y, x0, x1, tileCount)
        <==> x0 <= d.x < x1 && d.y == y && d.tileIndex == row[d.x] - 1 && Drawable(row[d.x], tileCount)
    decreases x1 - x0
  {
    if x0 < x1 {
      RowDrawsExactly(row, y, x0, x1 - 1, tileCount, d);
    }
  }

  /** The window's draws are exactly the drawable cells inside the window. */
  lemma {:induction false} WindowDrawsExactly(mapData: seq<seq<int>>, w: Window, yEnd: int, tileCount: nat, d: Draw)
    requires NoRowNarrowerThanFirst(mapData)
    requires 0 <= w.startX && w.endX <= MapWidth(mapData)
    requires 0 <= w.startY && (yEnd <= w.startY || yEnd <= |mapData|)
    ensures d in WindowDraws(mapData, w, yEnd, tileCount)
        <==> && w.startY <= d.y < yEnd && w.startX <= d.x < w.endX
             && d.tileIndex == mapData[d.y][d.x] - 1 && Drawable(mapData[d.y][d.x], tileCount)
    decreases yEnd - w.startY
  {
    if w.startY < yEnd {
      WindowDrawsExactly(mapData, w, yEnd - 1, tileCount, d);
      RowDrawsExactly(mapData[yEnd - 1], yEnd - 1, w.startX, w.endX, tileCount, d);
    }
  }

  /**
   * The tile loops of `renderMap`: every `mapData[y][x]` they read is in
   * range, and they draw exactly the drawable cells of the visible window,
   * row by row, left to right.
   */
  method RenderTiles(camX: int, camY: int, mapData: seq<seq<int>>, tileCount: nat) returns (draws: seq<Draw>)
    requires NoRowNarrowerThanFirst(mapData)
    ensures var w := VisibleWindow(camX, camY, mapData);
      draws == WindowDraws(mapData, w, w.endY, tileCount)
    ensures forall i :: 0 <= i < |draws| ==> 0 <= draws[i].tileIndex < tileCount
  {
    var w := VisibleWindow(camX, camY, mapData);
    draws := [];
    var y := w.startY;
    while y < w.endY
      invariant w.startY <= y && (y == w.startY || y <= w.endY)
      invariant draws == WindowDraws(mapData, w, y, tileCount)
    {
      var x := w.startX;
      var row: seq<Draw> := [];
      while x < w.endX
        invariant w.startX <= x && (x == w.startX || x <= w.endX)
        invariant row == RowDraws(mapData[y], y, w.startX, x, tileCount)
      {
        var tileIndex := mapData[y][x] - 1;
        if tileIndex >= 0 && tileIndex < tileCount {
          row := row + [Draw(x, y, tileIndex)];
        }
        x := x + 1;
      }
      draws := draws + row;
      y := y + 1;
    }
    forall i | 0 <= i < |draws| ensures 0 <= draws[i].tileIndex < tileCount {
      WindowDrawsExactly(mapData, w, w.endY, tileCount, draws[i]);
    }
  }
}
