/**
 * The records and entities the modelled operations share
 * (SS14.MapServer/Models/Entities and SS14.MapServer/MapProcessing/ProcessItem.cs).
 * Guids are kept as their text.
 */
module Entities {
  import opened Wrappers

  /** A tile row; its primary key is (mapGuid, gridId, x, y). */
  datatype Tile = Tile(mapGuid: string, gridId: int, x: int, y: int, size: int, path: string)

  datatype TileKey = TileKey(mapGuid: string, gridId: int, x: int, y: int)

  function KeyOf(t: Tile): TileKey {
    TileKey(t.mapGuid, t.gridId, t.x, t.y)
  }

  /** A build request waiting in the process queue (its completion callback is not modelled). */
  datatype ProcessItem = ProcessItem(gitRef: string, maps: seq<string>, repositoryUrl: Option<string>)

  /** `ProcessTiledImage.ProcessingOptions`: the job data for tiling one grid's image. */
  datatype ProcessingOptions = ProcessingOptions(mapGuid: string, gridId: int, sourcePath: string, targetPath: string,
                                                 tileSize: int, removeSource: bool)

  /** A grid of a map; the controller and the upload service update its fields in place. */
  class Grid {
    var gridId: int
    var tiled: bool
    var tileSize: int
    var path: string
    var url: Option<string>

    constructor (gridId: int, tiled: bool, tileSize: int, path: string)
      ensures this.gridId == gridId && this.tiled == tiled && this.tileSize == tileSize
      ensures this.path == path && url == None
    {
      this.gridId, this.tiled, this.tileSize, this.path := gridId, tiled, tileSize, path;
      url := None;
    }
  }

  /** A map with its grids. */
  class Map {
    var mapGuid: string
    var gitRef: string
    var mapId: string
    var grids: seq<Grid>

    constructor (mapGuid: string, gitRef: string, mapId: string, grids: seq<Grid>)
      ensures this.mapGuid == mapGuid && this.gitRef == gitRef && this.mapId == mapId && this.grids == grids
    {
      this.mapGuid, this.gitRef, this.mapId, this.grids := mapGuid, gitRef, mapId, grids;
    }
  }

  /** An uploaded image; `internalPath` is where its bytes were stored. */
  class ImageFile {
    var path: string
    var internalPath: string

    constructor (path: string)
      ensures this.path == path && internalPath == ""
    {
      this.path, internalPath := path, "";
    }
  }

  /** The ids of a sequence of grids, in order. */
  function GridIds(grids: seq<Grid>): (ids: seq<int>)
    reads set g | g in grids
    ensures |ids| == |grids|
    ensures forall i :: 0 <= i < |grids| ==> ids[i] == grids[i].gridId
  {
    seq(|grids|, i reads set g | g in grids requires 0 <= i < |grids| => grids[i].gridId)
  }
}
