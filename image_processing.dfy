/**
 * Tile enumeration of `ImageProcessingService.TileImage`
 * (SS14.MapServer/MapProcessing/Services/ImageProcessingService.cs).
 *
 * The image's size comes from loading the file and the Guid in each tile's
 * file name from `Guid.NewGuid`; both are parameters (`guid(x, y)` names the
 * file of the tile in column x, row y). Cropping and saving the pixels are not
 * modelled.
 */
module ImageProcessing {
  import opened Wrappers
  import opened Entities
  import Paths

  const MinTileSize: int := 256

  datatype TilingError =
    | TileSizeOutOfRange(tileSize: int)  // ArgumentOutOfRangeException
    | InvalidImagePath(sourcePath: string)

  /** What every tile of one `TileImage` call shares. */
  datatype TilingJob = TilingJob(mapId: string, gridId: int, targetPath: string, extension: string,
                                 tileSize: int, guid: (nat, nat) -> string)

  /** The file a tile is saved to: `targetPath/tile_<guid><extension>`. */
  function TileFilePath(targetPath: string, guid: string, extension: string): string {
    Paths.Combine(targetPath, "tile_" + guid + extension)
  }

  function TileOf(job: TilingJob, x: nat, y: nat): Tile {
    Tile(job.mapId, job.gridId, x, y, job.tileSize, TileFilePath(job.targetPath, job.guid(x, y), job.extension))
  }

  /** Row y: the tiles of columns 0 .. columns - 1, left to right. */
  function TileRow(job: TilingJob, y: nat, columns: nat): (row: seq<Tile>)
    ensures |row| == columns
    ensures forall x :: 0 <= x < columns ==> row[x] == TileOf(job, x, y)
  {
    seq(columns, x requires 0 <= x < columns => TileOf(job, x, y))
  }

  /** Rows 0 .. rows - 1, top to bottom: the row-major order of the nested loops. */
  function TileRows(job: TilingJob, rows: nat, columns: nat): seq<Tile>
    decreases rows
  {
    if rows == 0 then [] else TileRows(job, rows - 1, columns) + TileRow(job, rows - 1, columns)
  }

  /** The tiles of a `width` x `height` image: (height / tileSize) rows of (width / tileSize) tiles. */
  function TileGrid(job: TilingJob, width: nat, height: nat): seq<Tile>
    requires job.tileSize > 0
  {
    TileRows(job, height / job.tileSize, width / job.tileSize)
  }

  /**
   * `TileImage`: rejects a tile size below 256 and a source path without
   * extension; otherwise walks rows y (outer loop) and columns x (inner loop)
   * and emits one tile per full tileSize x tileSize square, so partial strips at
   * the right and bottom edges yield none.
   */
  method TileImage(mapId: string, gridId: int, sourcePath: string, targetPath: string, tileSize: int,
                   width: nat, height: nat, guid: (nat, nat) -> string)
    returns (r: Result<seq<Tile>, TilingError>)
    ensures tileSize < MinTileSize ==> r == Err(TileSizeOutOfRange(tileSize))
    ensures tileSize >= MinTileSize && !Paths.HasExtension(sourcePath) ==> r == Err(InvalidImagePath(sourcePath))
    ensures tileSize >= MinTileSize && Paths.HasExtension(sourcePath) ==>
      r == Ok(TileGrid(TilingJob(mapId, gridId, targetPath, Paths.GetExtension(sourcePath), tileSize, guid), width, height))
    ensures r == TileImageResult(mapId, gridId, sourcePath, targetPath, tileSize, width, height, guid)
  {
    if tileSize < MinTileSize {
      return Err(TileSizeOutOfRange(tileSize));
    }
    if !Paths.HasExtension(sourcePath) {
      return Err(InvalidImagePath(sourcePath));
    }
    var job := TilingJob(mapId, gridId, targetPath, Paths.GetExtension(sourcePath), tileSize, guid);
    var tiles := EnumerateTiles(job, width, height);
    r := Ok(tiles);
  }

  /** The nested loops of `TileImage`: rows y outside, columns x inside. */
  method EnumerateTiles(job: TilingJob, width: nat, height: nat) returns (tiles: seq<Tile>)
    requires job.tileSize > 0
    ensures tiles == TileGrid(job, width, height)
  {
    var heightSteps := height / job.tileSize;
    var widthSteps := width / job.tileSize;
    tiles := [];
    var y := 0;
    while y < heightSteps
      invariant 0 <= y <= heightSteps
      invariant tiles == TileRows(job, y, widthSteps)
    {
      var x := 0;
      while x < widthSteps
        invariant 0 <= x <= widthSteps
        invariant tiles == TileRows(job, y, widthSteps) + TileRow(job, y, widthSteps)[..x]
      {
        ghost var row := TileRow(job, y, widthSteps);
        assert row[..x + 1] == row[..x] + [TileOf(job, x, y)];
        tiles := tiles + [TileOf(job, x, y)];
        x := x + 1;
      }
      assert TileRow(job, y, widthSteps)[..widthSteps] == TileRow(job, y, widthSteps);
      y := y + 1;
    }
  }

  /**
   * What `TileImage` returns: an error for a small tile size or a path without
   * extension, otherwise tiles that all carry the map, grid and tile size
   * given and whose primary keys are pairwise distinct.
   */
  function TileImageResult(mapId: string, gridId: int, sourcePath: string, targetPath: string, tileSize: int,
                           width: nat, height: nat, guid: (nat, nat) -> string): (r: Result<seq<Tile>, TilingError>)
    ensures r.Ok? <==> tileSize >= MinTileSize && Paths.HasExtension(sourcePath)
    ensures r.Ok? ==> forall t :: t in r.value ==> t.mapGuid == mapId && t.gridId == gridId && t.size == tileSize
    ensures r.Ok? ==> forall i, j :: 0 <= i < j < |r.value| ==> KeyOf(r.value[i]) != KeyOf(r.value[j])
  {
    if tileSize < MinTileSize then Err(TileSizeOutOfRange(tileSize))
    else if !Paths.HasExtension(sourcePath) then Err(InvalidImagePath(sourcePath))
    else
      var job := TilingJob(mapId, gridId, targetPath, Paths.GetExtension(sourcePath), tileSize, guid);
      TilesWithinBounds(job, width, height);
      TileKeysDistinct(job, width, height);
      Ok(TileGrid(job, width, height))
  }

  /** Multiplication is monotonic in its left factor. */
  lemma MulMonotonic(a: int, b: int, c: nat)
    requires a <= b
    ensures a * c <= b * c
  {
  }

  /** `rows` rows of `columns` tiles make rows * columns tiles. */
  lemma {:induction false} TileRowsLength(job: TilingJob, rows: nat, columns: nat)
    ensures |TileRows(job, rows, columns)| == rows * columns
    decreases rows
  {
    if rows > 0 {
      TileRowsLength(job, rows - 1, columns);
      assert (rows - 1) * columns + columns == rows * columns;
    }
  }

  /** Row-major order: the tile of column x, row y sits at index y * columns + x. */
  lemma {:induction false} TileRowsAt(job: TilingJob, rows: nat, columns: nat, x: nat, y: nat)
    requires x < columns && y < rows
    ensures y * columns + x < |TileRows(job, rows, columns)|
    ensures TileRows(job, rows, columns)[y * columns + x] == TileOf(job, x, y)
    decreases rows
  {
    TileRowsLength(job, rows, columns);
    TileRowsLength(job, rows - 1, columns);
    MulMonotonic(y + 1, rows, columns);
    if y < rows - 1 {
      TileRowsAt(job, rows - 1, columns, x, y);
    } else {
      assert y * columns + x - (rows - 1) * columns == x;
    }
  }

  /** Every tile lies in a column below `columns` and a row below `rows`. */
  lemma {:induction false} TileRowsRange(job: TilingJob, rows: nat, columns: nat)
    ensures forall t :: t in TileRows(job, rows, columns) ==>
      0 <= t.x < columns && 0 <= t.y < rows && t == TileOf(job, t.x, t.y)
    decreases rows
  {
    if rows > 0 {
      TileRowsRange(job, rows - 1, columns);
    }
  }

  /** No two tiles of the sequence share a column and a row. */
  predicate DistinctCells(tiles: seq<Tile>) {
    forall i, j :: 0 <= i < j < |tiles| ==> tiles[i].x != tiles[j].x || tiles[i].y != tiles[j].y
  }

  /** No two tiles share a column and a row. */
  lemma {:induction false} TileRowsDistinct(job: TilingJob, rows: nat, columns: nat)
    ensures DistinctCells(TileRows(job, rows, columns))
    decreases rows
  {
    if rows > 0 {
      var prefix := TileRows(job, rows - 1, columns);
      var row := TileRow(job, rows - 1, columns);
      var tiles := prefix + row;
      TileRowsDistinct(job, rows - 1, columns);
      TileRowsRange(job, rows - 1, columns);
      forall i, j | 0 <= i < j < |tiles|
        ensures tiles[i].x != tiles[j].x || tiles[i].y != tiles[j].y
      {
        if j < |prefix| {
          assert tiles[i] == prefix[i] && tiles[j] == prefix[j];
        } else {
          assert tiles[j] == row[j - |prefix|] == TileOf(job, j - |prefix|, rows - 1);
          if i < |prefix| {
            assert tiles[i] == prefix[i] && prefix[i] in prefix;
          } else {
            assert tiles[i] == row[i - |prefix|] == TileOf(job, i - |prefix|, rows - 1);
          }
        }
      }
    }
  }

  /** A column below width / tileSize ends inside an image `width` wide. */
  lemma ColumnWithin(tileSize: int, width: nat, x: int)
    requires tileSize > 0 && 0 <= x < width / tileSize
    ensures tileSize * x + tileSize <= width
  {
    MulMonotonic(x + 1, width / tileSize, tileSize);
    assert (width / tileSize) * tileSize <= width;
  }

  /** There are (height / tileSize) * (width / tileSize) tiles. */
  lemma TileCount(job: TilingJob, width: nat, height: nat)
    requires job.tileSize > 0
    ensures |TileGrid(job, width, height)| == (height / job.tileSize) * (width / job.tileSize)
  {
    TileRowsLength(job, height / job.tileSize, width / job.tileSize);
  }

  /**
   * Row-major order: the tile of column x and row y is at index
   * y * (width / tileSize) + x.
   */
  lemma TileAt(job: TilingJob, width: nat, height: nat, x: nat, y: nat)
    requires job.tileSize > 0 && x < width / job.tileSize && y < height / job.tileSize
    ensures var tiles := TileGrid(job, width, height);
      var k := y * (width / job.tileSize) + x;
      k < |tiles| && tiles[k].x == x && tiles[k].y == y
  {
    TileRowsAt(job, height / job.tileSize, width / job.tileSize, x, y);
  }

  /**
   * Every tile's crop rectangle (tileSize * x, tileSize * y, tileSize, tileSize)
   * lies inside the image, and every tile carries the map, grid and tile size given.
   */
  lemma TilesWithinBounds(job: TilingJob, width: nat, height: nat)
    requires job.tileSize > 0
    ensures forall t :: t in TileGrid(job, width, height) ==>
      && 0 <= t.x && job.tileSize * t.x + job.tileSize <= width
      && 0 <= t.y && job.tileSize * t.y + job.tileSize <= height
      && t.mapGuid == job.mapId && t.gridId == job.gridId && t.size == job.tileSize
  {
    var rows, columns := height / job.tileSize, width / job.tileSize;
    TileRowsRange(job, rows, columns);
    forall t | t in TileGrid(job, width, height)
      ensures job.tileSize * t.x + job.tileSize <= width && job.tileSize * t.y + job.tileSize <= height
    {
      ColumnWithin(job.tileSize, width, t.x);
      ColumnWithin(job.tileSize, height, t.y);
    }
  }

  /** No two tiles share a primary key (map, grid, x, y). */
  lemma TileKeysDistinct(job: TilingJob, width: nat, height: nat)
    requires job.tileSize > 0
    ensures var tiles := TileGrid(job, width, height);
      forall i, j :: 0 <= i < j < |tiles| ==> KeyOf(tiles[i]) != KeyOf(tiles[j])
  {
    var tiles := TileGrid(job, width, height);
    TileRowsDistinct(job, height / job.tileSize, width / job.tileSize);
    forall i, j | 0 <= i < j < |tiles| ensures KeyOf(tiles[i]) != KeyOf(tiles[j]) {
      assert tiles[i].x != tiles[j].x || tiles[i].y != tiles[j].y;
    }
  }

  /**
   * The floor division drops partial strips: a 4400 x 2600 image cut into
   * 256-pixel tiles gives 17 columns and 10 rows, 170 tiles, not 18 * 11.
   */
  lemma PartialStripsDropped(job: TilingJob)
    requires job.tileSize == 256
    ensures |TileGrid(job, 4400, 2600)| == 170
  {
    TileCount(job, 4400, 2600);
  }
}
