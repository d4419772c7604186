/**
 * The store the tiling job and map deletion change: the `Tile`, `Grid` and
 * `Map` tables and the files on disk.
 *
 * - `ProcessTiledImage.Execute` (SS14.MapServer/Jobs/ProcessTiledImage.cs):
 *   tile a grid's image, optionally remove the source image, then replace the
 *   grid's tile rows with the new ones.
 * - `MapService.DeleteMap` (SS14.MapServer/Services/MapService.cs): delete
 *   each grid's files and tile rows, then the grids and the map.
 *
 * The file system is the set of paths of the files that exist. Whether
 * deleting one path throws is a parameter (`deleteFails(path)`). A file
 * deletion that throws removes nothing. A recursive directory deletion removes
 * every entry it can and keeps the directory when anything in it, or the
 * directory itself, could not be removed. `DeleteMap` swallows both failures,
 * as the source does.
 */
module TileJobs {
  import opened Wrappers
  import opened Entities
  import opened ImageProcessing
  import Paths

  /** The tables and the file system as one mutable store. */
  class Store {
    var tiles: set<Tile>
    var grids: set<Grid>
    var maps: set<Map>
    var files: set<string>

    constructor (tiles: set<Tile>, grids: set<Grid>, maps: set<Map>, files: set<string>)
      ensures this.tiles == tiles && this.grids == grids && this.maps == maps && this.files == files
    {
      this.tiles, this.grids, this.maps, this.files := tiles, grids, maps, files;
    }

    /** The tile table's primary key holds: no two rows share a key. */
    predicate Valid()
      reads this
    {
      KeysUnique(tiles)
    }
  }

  predicate KeysUnique(tiles: set<Tile>) {
    forall a, b :: a in tiles && b in tiles && KeyOf(a) == KeyOf(b) ==> a == b
  }

  /** A row of the given map and grid. */
  predicate OfGrid(t: Tile, mapGuid: string, gridId: int) {
    t.mapGuid == mapGuid && t.gridId == gridId
  }

  // ---- The tiling job ----

  /** The rows that survive deleting the grid's rows. */
  function WithoutGridTiles(tiles: set<Tile>, mapGuid: string, gridId: int): (r: set<Tile>)
    ensures forall t :: t in r <==> t in tiles && !OfGrid(t, mapGuid, gridId)
  {
    set t | t in tiles && !OfGrid(t, mapGuid, gridId)
  }

  /**
   * Delete the grid's rows, then add the new ones: afterwards the grid's rows
   * are exactly the new tiles and every other row is as before.
   */
  function ReplaceGridTiles(tiles: set<Tile>, mapGuid: string, gridId: int, newTiles: seq<Tile>): (r: set<Tile>)
    requires forall t :: t in newTiles ==> OfGrid(t, mapGuid, gridId)
    ensures forall t :: OfGrid(t, mapGuid, gridId) ==> (t in r <==> t in newTiles)
    ensures forall t :: !OfGrid(t, mapGuid, gridId) ==> (t in r <==> t in tiles)
  {
    WithoutGridTiles(tiles, mapGuid, gridId) + set t | t in newTiles
  }

  /**
   * Replacing a grid's rows keeps the primary key unique, provided the new
   * tiles have distinct keys, as tiling guarantees.
   */
  lemma ReplaceKeepsKeysUnique(tiles: set<Tile>, mapGuid: string, gridId: int, newTiles: seq<Tile>)
    requires KeysUnique(tiles)
    requires forall t :: t in newTiles ==> OfGrid(t, mapGuid, gridId)
    requires forall i, j :: 0 <= i < j < |newTiles| ==> KeyOf(newTiles[i]) != KeyOf(newTiles[j])
    ensures KeysUnique(ReplaceGridTiles(tiles, mapGuid, gridId, newTiles))
  {
    var r := ReplaceGridTiles(tiles, mapGuid, gridId, newTiles);
    forall a, b | a in r && b in r && KeyOf(a) == KeyOf(b)
      ensures a == b
    {
      if OfGrid(a, mapGuid, gridId) {
        assert OfGrid(b, mapGuid, gridId);
        var i :| 0 <= i < |newTiles| && newTiles[i] == a;
        var j :| 0 <= j < |newTiles| && newTiles[j] == b;
        assert i == j;
      }
    }
  }

  /** The job data under the `Options` key: absent, of another type, or the processing options. */
  datatype JobData = Missing | OtherValue | Options(options: ProcessingOptions)

  datatype JobError =
    | JobDataMissing              // JobExecutionException
    | TilingFailed(error: TilingError)

  /** The tiling of the job's image, for an image of the given size. */
  function JobTiling(o: ProcessingOptions, width: nat, height: nat, guid: (nat, nat) -> string): Result<seq<Tile>, TilingError> {
    TileImageResult(o.mapGuid, o.gridId, o.sourcePath, o.targetPath, o.tileSize, width, height, guid)
  }

  /** The paths of the tile images written. */
  function TileFiles(tiles: seq<Tile>): (r: set<string>)
    ensures forall p :: p in r <==> exists t :: t in tiles && t.path == p
  {
    set t | t in tiles :: t.path
  }

  /** Delete a file unless the deletion throws; deleting a missing file does nothing. */
  function DeleteFile(files: set<string>, path: string, deleteFails: string -> bool): (r: set<string>)
    ensures r <= files
    ensures deleteFails(path) ==> r == files
    ensures !deleteFails(path) ==> r == files - {path}
  {
    if deleteFails(path) then files else files - {path}
  }

  /**
   * The files after a successful tiling job: the tile images are written,
   * then the source image is deleted when the options ask for it.
   */
  function FilesAfterTiling(files: set<string>, o: ProcessingOptions, tiles: seq<Tile>, deleteFails: string -> bool): (r: set<string>)
    ensures forall p :: p in r ==> p in files || p in TileFiles(tiles)
    ensures forall p :: p != o.sourcePath ==> (p in r <==> p in files || p in TileFiles(tiles))
    ensures o.sourcePath in r <==>
      (o.sourcePath in files || o.sourcePath in TileFiles(tiles)) && (!o.removeSource || deleteFails(o.sourcePath))
  {
    var written := files + TileFiles(tiles);
    if o.removeSource then DeleteFile(written, o.sourcePath, deleteFails) else written
  }

  /**
   * `ProcessTiledImage.Execute`: without processing options the job throws
   * and nothing changes; a tiling that throws changes nothing either;
   * otherwise the tiles are written, the source image removed if asked for,
   * and the grid's tile rows replaced by the new tiles. The primary key of
   * the tile table stays unique.
   */
  method Execute(store: Store, data: JobData, width: nat, height: nat, guid: (nat, nat) -> string,
                 deleteFails: string -> bool) returns (error: Option<JobError>)
    requires store.Valid()
    modifies store
    ensures store.Valid()
    ensures store.grids == old(store.grids) && store.maps == old(store.maps)
    ensures !data.Options? ==>
      error == Some(JobDataMissing) && store.tiles == old(store.tiles) && store.files == old(store.files)
    ensures data.Options? && JobTiling(data.options, width, height, guid).Err? ==>
      && error == Some(TilingFailed(JobTiling(data.options, width, height, guid).error))
      && store.tiles == old(store.tiles) && store.files == old(store.files)
    ensures data.Options? && JobTiling(data.options, width, height, guid).Ok? ==>
      var o := data.options;
      var tiles := JobTiling(o, width, height, guid).value;
      && error == None
      && store.files == FilesAfterTiling(old(store.files), o, tiles, deleteFails)
      && store.tiles == ReplaceGridTiles(old(store.tiles), o.mapGuid, o.gridId, tiles)
  {
    if !data.Options? {
      return Some(JobDataMissing);
    }
    var o := data.options;
    var r := TileImage(o.mapGuid, o.gridId, o.sourcePath, o.targetPath, o.tileSize, width, height, guid);
    if r.Err? {
      return Some(TilingFailed(r.error));
    }
    StoreTiles(store, o, r.value, deleteFails);
    error := None;
  }

  /** The part of `Execute` after tiling: write the tiles, remove the source if asked, replace the rows. */
  method StoreTiles(store: Store, o: ProcessingOptions, tiles: seq<Tile>, deleteFails: string -> bool)
    requires store.Valid()
    requires forall t :: t in tiles ==> OfGrid(t, o.mapGuid, o.gridId)
    requires forall i, j :: 0 <= i < j < |tiles| ==> KeyOf(tiles[i]) != KeyOf(tiles[j])
    modifies store
    ensures store.Valid()
    ensures store.grids == old(store.grids) && store.maps == old(store.maps)
    ensures store.files == FilesAfterTiling(old(store.files), o, tiles, deleteFails)
    ensures store.tiles == ReplaceGridTiles(old(store.tiles), o.mapGuid, o.gridId, tiles)
  {
    store.files := store.files + TileFiles(tiles);
    if o.removeSource {
      store.files := DeleteFile(store.files, o.sourcePath, deleteFails);
    }
    ReplaceKeepsKeysUnique(store.tiles, o.mapGuid, o.gridId, tiles);
    store.tiles := WithoutGridTiles(store.tiles, o.mapGuid, o.gridId);
    store.tiles := store.tiles + set t | t in tiles;
  }

  /**
   * A job over an image of 3072 by 5120 pixels with 512-pixel tiles leaves
   * the grid with 60 tile rows (6 columns, 10 rows).
   */
  lemma SixtyTiles(o: ProcessingOptions, guid: (nat, nat) -> string)
    requires o.tileSize == 512 && Paths.HasExtension(o.sourcePath)
    ensures JobTiling(o, 3072, 5120, guid).Ok?
    ensures |JobTiling(o, 3072, 5120, guid).value| == 60
  {
    var job := TilingJob(o.mapGuid, o.gridId, o.targetPath, Paths.GetExtension(o.sourcePath), o.tileSize, guid);
    assert JobTiling(o, 3072, 5120, guid) == Ok(TileGrid(job, 3072, 5120));
    TileCount(job, 3072, 5120);
    assert 5120 / 512 == 10 && 3072 / 512 == 6;
  }

  // ---- Deleting a map ----

  /** What deleting needs to know of a grid. */
  datatype GridEntry = GridEntry(gridId: int, tiled: bool, path: string)

  function Entries(grids: seq<Grid>): (r: seq<GridEntry>)
    reads set g | g in grids
    ensures |r| == |grids|
    ensures forall i :: 0 <= i < |grids| ==> r[i] == GridEntry(grids[i].gridId, grids[i].tiled, grids[i].path)
  {
    seq(|grids|, i reads set g | g in grids requires 0 <= i < |grids| => GridEntry(grids[i].gridId, grids[i].tiled, grids[i].path))
  }

  /** A path strictly inside the directory. */
  predicate Beneath(dir: string, path: string) {
    |path| > |dir| && path[..|dir|] == dir && path[|dir|] == Paths.Separator
  }

  /** The directory itself goes: it can be removed and nothing beneath it failed. */
  predicate DirectoryRemoved(files: set<string>, dir: string, deleteFails: string -> bool) {
    !deleteFails(dir) && forall p :: p in files && Beneath(dir, p) ==> !deleteFails(p)
  }

  /**
   * `Directory.Delete(path, true)`: every entry beneath the directory that can
   * be removed goes, even after another one failed; the directory itself goes
   * only when all of them did and it can be removed; everything else stays.
   */
  function DeleteDirectory(files: set<string>, dir: string, deleteFails: string -> bool): (r: set<string>)
    ensures r <= files
    ensures forall p :: Beneath(dir, p) ==> (p in r <==> p in files && deleteFails(p))
    ensures dir in r <==> dir in files && !DirectoryRemoved(files, dir, deleteFails)
    ensures forall p :: p != dir && !Beneath(dir, p) ==> (p in r <==> p in files)
  {
    set p | p in files && !(Beneath(dir, p) && !deleteFails(p)) && !(p == dir && DirectoryRemoved(files, dir, deleteFails))
  }

  /** A directory whose one file cannot be deleted loses its other file and is itself kept. */
  lemma PartialDirectoryDeletion(deleteFails: string -> bool)
    requires forall p :: deleteFails(p) <==> p == "t/b"
    ensures DeleteDirectory({"t/a", "t/b"}, "t", deleteFails) == {"t/b"}
  {
    assert Beneath("t", "t/a") && Beneath("t", "t/b");
    assert !DirectoryRemoved({"t/a", "t/b"}, "t", deleteFails);
  }

  /** The files after deleting one grid's: its tile directory when tiled, its image otherwise. */
  function DeleteGridFiles(files: set<string>, e: GridEntry, deleteFails: string -> bool): set<string> {
    if e.tiled then DeleteDirectory(files, e.path, deleteFails) else DeleteFile(files, e.path, deleteFails)
  }

  /** The files after deleting the grids' files in order. */
  function DeleteAllGridFiles(files: set<string>, entries: seq<GridEntry>, deleteFails: string -> bool): (r: set<string>)
    ensures r <= files
    decreases |entries|
  {
    if |entries| == 0 then files
    else DeleteAllGridFiles(DeleteGridFiles(files, entries[0], deleteFails), entries[1..], deleteFails)
  }

  /** The tile rows after removing those of every tiled grid in order. */
  function RemoveTiledRows(tiles: set<Tile>, mapGuid: string, entries: seq<GridEntry>): (r: set<Tile>)
    ensures r <= tiles
    decreases |entries|
  {
    if |entries| == 0 then tiles
    else
      var next := if entries[0].tiled then WithoutGridTiles(tiles, mapGuid, entries[0].gridId) else tiles;
      RemoveTiledRows(next, mapGuid, entries[1..])
  }

  /** A grid of the list is tiled and has this id. */
  predicate TiledId(entries: seq<GridEntry>, gridId: int) {
    exists i :: 0 <= i < |entries| && entries[i].tiled && entries[i].gridId == gridId
  }

  /**
   * Exactly the rows of the map's tiled grids are removed: rows of other
   * maps, and rows of the map's grids that are not tiled, are kept.
   */
  lemma {:induction false} RemoveTiledRowsExactly(tiles: set<Tile>, mapGuid: string, entries: seq<GridEntry>)
    ensures forall t :: t in RemoveTiledRows(tiles, mapGuid, entries) <==>
      t in tiles && !(t.mapGuid == mapGuid && TiledId(entries, t.gridId))
    decreases |entries|
  {
    if |entries| > 0 {
      var next := if entries[0].tiled then WithoutGridTiles(tiles, mapGuid, entries[0].gridId) else tiles;
      RemoveTiledRowsExactly(next, mapGuid, entries[1..]);
      forall id: int ensures TiledId(entries, id) <==> (entries[0].tiled && entries[0].gridId == id) || TiledId(entries[1..], id) {
        if TiledId(entries, id) {
          var i :| 0 <= i < |entries| && entries[i].tiled && entries[i].gridId == id;
          if i > 0 {
            assert entries[1..][i - 1] == entries[i];
          }
        }
        if TiledId(entries[1..], id) {
          var i :| 0 <= i < |entries[1..]| && entries[1..][i].tiled && entries[1..][i].gridId == id;
          assert entries[i + 1] == entries[1..][i];
        }
      }
    }
  }

  /** No file is created; without failing deletions none of a grid's own files survives. */
  lemma {:induction false} DeleteAllGridFilesRemoves(files: set<string>, entries: seq<GridEntry>, deleteFails: string -> bool)
    requires forall p :: !deleteFails(p)
    ensures forall i :: 0 <= i < |entries| ==> entries[i].path !in DeleteAllGridFiles(files, entries, deleteFails)
    ensures forall i, p :: 0 <= i < |entries| && entries[i].tiled && Beneath(entries[i].path, p) ==>
      p !in DeleteAllGridFiles(files, entries, deleteFails)
    decreases |entries|
  {
    if |entries| > 0 {
      var next := DeleteGridFiles(files, entries[0], deleteFails);
      DeleteAllGridFilesRemoves(next, entries[1..], deleteFails);
      var r := DeleteAllGridFiles(files, entries, deleteFails);
      assert r == DeleteAllGridFiles(next, entries[1..], deleteFails);
      forall i | 0 <= i < |entries| ensures entries[i].path !in r {
        if i > 0 {
          assert entries[1..][i - 1] == entries[i];
        } else {
          assert entries[0].path !in next;
        }
      }
      forall i, p | 0 <= i < |entries| && entries[i].tiled && Beneath(entries[i].path, p) ensures p !in r {
        if i > 0 {
          assert entries[1..][i - 1] == entries[i];
        } else {
          assert p !in next;
        }
      }
    }
  }

  /** A file that is none of the grids' images and lies in none of their directories is kept. */
  lemma {:induction false} DeleteAllGridFilesKeeps(files: set<string>, entries: seq<GridEntry>, deleteFails: string -> bool, p: string)
    requires p in files
    requires forall i :: 0 <= i < |entries| ==> p != entries[i].path && !(entries[i].tiled && Beneath(entries[i].path, p))
    ensures p in DeleteAllGridFiles(files, entries, deleteFails)
    decreases |entries|
  {
    if |entries| > 0 {
      var next := DeleteGridFiles(files, entries[0], deleteFails);
      assert p in next;
      forall i | 0 <= i < |entries[1..]|
        ensures p != entries[1..][i].path && !(entries[1..][i].tiled && Beneath(entries[1..][i].path, p))
      {
        assert entries[1..][i] == entries[i + 1];
      }
      DeleteAllGridFilesKeeps(next, entries[1..], deleteFails, p);
    }
  }

  /**
   * `MapService.DeleteMap`: for each grid in order, a tiled grid's tile
   * directory is deleted recursively and its tile rows removed; any other
   * grid's image file is deleted; deletion errors are ignored. Then the
   * grids and the map are removed.
   */
  method DeleteMap(store: Store, m: Map, deleteFails: string -> bool)
    requires store.Valid()
    modifies store
    ensures store.Valid()
    ensures store.tiles == RemoveTiledRows(old(store.tiles), m.mapGuid, Entries(m.grids))
    ensures store.files == DeleteAllGridFiles(old(store.files), Entries(m.grids), deleteFails)
    ensures store.grids == old(store.grids) - set g | g in m.grids
    ensures store.maps == old(store.maps) - {m}
  {
    ghost var entries := Entries(m.grids);
    var i := 0;
    while i < |m.grids|
      invariant 0 <= i <= |m.grids|
      invariant store.Valid()
      invariant RemoveTiledRows(old(store.tiles), m.mapGuid, entries) == RemoveTiledRows(store.tiles, m.mapGuid, entries[i..])
      invariant DeleteAllGridFiles(old(store.files), entries, deleteFails) == DeleteAllGridFiles(store.files, entries[i..], deleteFails)
      invariant store.grids == old(store.grids) - set g | g in m.grids[..i]
      invariant store.maps == old(store.maps)
    {
      assert entries[i..][0] == entries[i];
      assert entries[i..][1..] == entries[i + 1..];
      var grid := m.grids[i];
      if grid.tiled {
        store.files := DeleteDirectory(store.files, grid.path, deleteFails);
        store.tiles := WithoutGridTiles(store.tiles, m.mapGuid, grid.gridId);
      } else {
        store.files := DeleteFile(store.files, grid.path, deleteFails);
      }
      assert m.grids[..i + 1] == m.grids[..i] + [grid];
      store.grids := store.grids - {grid};
      i := i + 1;
    }
    assert entries[i..] == [];
    assert m.grids[..i] == m.grids;
    store.maps := store.maps - {m};
  }

  /** Deleting a map leaves every other map's tile rows in place. */
  lemma OtherMapsKeepTiles(tiles: set<Tile>, mapGuid: string, entries: seq<GridEntry>, t: Tile)
    requires t in tiles && t.mapGuid != mapGuid
    ensures t in RemoveTiledRows(tiles, mapGuid, entries)
  {
    RemoveTiledRowsExactly(tiles, mapGuid, entries);
  }
}
