/**
 * The request checks and URL rewrite of `MapController`
 * (SS14.MapServer/Controllers/MapController.cs): `ValidateMapRequest`, the id
 * check at the head of `PutMap`, and the grid URLs `SetMapGridUrls` assigns.
 *
 * Uploaded images are represented by their file names. `Url.Action` is a
 * parameter: the link it generates for a map's grid, or None when it cannot
 * generate one.
 */
module MapController {
  import opened Wrappers
  import opened Strings
  import opened Entities
  import Paths

  datatype MapRequestError =
    | ImageCountMismatch         // "Amount of uploaded images doesn't match the amount of grids"
    | UnknownGridName(name: string)  // "At least one filename doesn't match any grid id"

  /** An image names a grid: its file name without extension parses as the id of one of the grids. */
  predicate NamesGrid(gridIds: seq<int>, fileName: string) {
    var parsed := TryParseInt32(Paths.GetFileNameWithoutExtension(fileName));
    parsed.Some? && parsed.value in gridIds
  }

  /** The position of the first file name at or after `from` that fails `ok`, if any. */
  function FirstFailing(ok: string -> bool, fileNames: seq<string>, from: nat): (r: Option<nat>)
    requires from <= |fileNames|
    ensures r.None? <==> forall i :: from <= i < |fileNames| ==> ok(fileNames[i])
    ensures r.Some? ==> from <= r.value < |fileNames| && !ok(fileNames[r.value])
    ensures r.Some? ==> forall j :: from <= j < r.value ==> ok(fileNames[j])
    decreases |fileNames| - from
  {
    if from == |fileNames| then None
    else if !ok(fileNames[from]) then Some(from)
    else FirstFailing(ok, fileNames, from + 1)
  }

  /** The position of the first image at or after `from` that names no grid, if any. */
  function FirstUnknownImage(gridIds: seq<int>, fileNames: seq<string>, from: nat): (r: Option<nat>)
    requires from <= |fileNames|
    ensures r.None? <==> forall i :: from <= i < |fileNames| ==> NamesGrid(gridIds, fileNames[i])
    ensures r.Some? ==> from <= r.value < |fileNames| && !NamesGrid(gridIds, fileNames[r.value])
    ensures r.Some? ==> forall j :: from <= j < r.value ==> NamesGrid(gridIds, fileNames[j])
  {
    FirstFailing(f => NamesGrid(gridIds, f), fileNames, from)
  }

  /**
   * The answer `ValidateMapRequest` gives: the image count must equal the grid
   * count, and then every image must name a grid; the first one that does
   * not is reported.
   */
  function ValidationError(gridIds: seq<int>, fileNames: seq<string>): (r: Option<MapRequestError>)
    ensures r.None? <==> |gridIds| == |fileNames| && forall i :: 0 <= i < |fileNames| ==> NamesGrid(gridIds, fileNames[i])
    ensures r == Some(ImageCountMismatch) <==> |gridIds| != |fileNames|
    ensures r.Some? && r != Some(ImageCountMismatch) ==>
      var first := FirstUnknownImage(gridIds, fileNames, 0);
      first.Some? && r.value == UnknownGridName(Paths.GetFileNameWithoutExtension(fileNames[first.value]))
  {
    if |gridIds| != |fileNames| then Some(ImageCountMismatch)
    else
      match FirstUnknownImage(gridIds, fileNames, 0)
      case None => None
      case Some(i) => Some(UnknownGridName(Paths.GetFileNameWithoutExtension(fileNames[i])))
  }

  /**
   * `ValidateMapRequest`: lower-cases the map id in place, then checks the
   * images against the grids, stopping at the first image that names no grid.
   * Returns true (reject) together with the error, or false and no error.
   */
  method ValidateMapRequest(m: Map, fileNames: seq<string>) returns (rejected: bool, error: Option<MapRequestError>)
    modifies m
    ensures m.mapId == ToLower(old(m.mapId))
    ensures m.grids == old(m.grids) && m.mapGuid == old(m.mapGuid) && m.gitRef == old(m.gitRef)
    ensures rejected <==> error.Some?
    ensures error == ValidationError(GridIds(m.grids), fileNames)
  {
    m.mapId := ToLower(m.mapId);
    if |m.grids| != |fileNames| {
      return true, Some(ImageCountMismatch);
    }
    var gridIds := GridIds(m.grids);
    var i := 0;
    while i < |fileNames|
      invariant 0 <= i <= |fileNames|
      invariant FirstUnknownImage(gridIds, fileNames, 0) == FirstUnknownImage(gridIds, fileNames, i)
    {
      var name := Paths.GetFileNameWithoutExtension(fileNames[i]);
      var parsed := TryParseInt32(name);
      if parsed.None? || parsed.value !in gridIds {
        return true, Some(UnknownGridName(name));
      }
      i := i + 1;
    }
    rejected, error := false, None;
  }

  datatype PutMapRejection =
    | IdMismatch  // "The id provided in the path and the map id don't match"
    | InvalidRequest(error: MapRequestError)

  /**
   * The checks `PutMap` makes before uploading: the path id must equal the
   * body's map id exactly (before the id is lower-cased), then the request
   * must validate.
   */
  function PutMapCheck(id: string, mapId: string, gridIds: seq<int>, fileNames: seq<string>): (r: Option<PutMapRejection>)
    ensures r == Some(IdMismatch) <==> id != mapId
    ensures r.None? <==> id == mapId && ValidationError(gridIds, fileNames).None?
    ensures r.Some? && r != Some(IdMismatch) ==> r == Some(InvalidRequest(ValidationError(gridIds, fileNames).value))
  {
    if id != mapId then Some(IdMismatch)
    else
      match ValidationError(gridIds, fileNames)
      case None => None
      case Some(e) => Some(InvalidRequest(e))
  }

  /**
   * The head of `PutMap`: the id check, then `ValidateMapRequest`. The map id
   * is lower-cased only when the ids match.
   */
  method PutMapChecks(id: string, m: Map, fileNames: seq<string>) returns (r: Option<PutMapRejection>)
    modifies m
    ensures r == PutMapCheck(id, old(m.mapId), GridIds(m.grids), fileNames)
    ensures m.mapId == if id == old(m.mapId) then ToLower(old(m.mapId)) else old(m.mapId)
    ensures m.grids == old(m.grids)
  {
    if id != m.mapId {
      return Some(IdMismatch);
    }
    var rejected, error := ValidateMapRequest(m, fileNames);
    if rejected {
      return Some(InvalidRequest(error.value));
    }
    r := None;
  }

  /** The id comparison is case-sensitive: a path id that differs from the body's only in case is refused. */
  lemma PutMapIdCaseSensitive(gridIds: seq<int>, fileNames: seq<string>)
    ensures PutMapCheck("box", "Box", gridIds, fileNames) == Some(IdMismatch)
  {
    assert "box"[0] != "Box"[0];
  }

  /** `Url?.Replace("Image/grid", "Tile")` on a tiled grid; any other URL, and a missing one, is kept. */
  function GridUrl(tiled: bool, actionUrl: Option<string>): (r: Option<string>)
    ensures r.None? <==> actionUrl.None?
    ensures !tiled ==> r == actionUrl
  {
    if tiled && actionUrl.Some? then Some(ReplaceAll(actionUrl.value, "Image/grid", "Tile")) else actionUrl
  }

  /**
   * `SetMapGridUrls`: every grid gets the link to its image, rewritten to the
   * tile route when the grid is tiled. Only the grids' URLs change.
   */
  method SetMapGridUrls(m: Map, actionUrl: (string, int) -> Option<string>)
    modifies set g | g in m.grids
    ensures forall g :: g in m.grids ==> g.url == GridUrl(g.tiled, actionUrl(m.mapGuid, g.gridId))
    ensures forall g :: g in m.grids ==>
      g.gridId == old(g.gridId) && g.tiled == old(g.tiled) && g.tileSize == old(g.tileSize) && g.path == old(g.path)
  {
    var i := 0;
    while i < |m.grids|
      invariant 0 <= i <= |m.grids|
      invariant forall j :: 0 <= j < i ==> m.grids[j].url == GridUrl(m.grids[j].tiled, actionUrl(m.mapGuid, m.grids[j].gridId))
      invariant forall g :: g in m.grids ==>
        g.gridId == old(g.gridId) && g.tiled == old(g.tiled) && g.tileSize == old(g.tileSize) && g.path == old(g.path)
    {
      var grid := m.grids[i];
      grid.url := actionUrl(m.mapGuid, grid.gridId);
      if grid.tiled && grid.url.Some? {
        grid.url := Some(ReplaceAll(grid.url.value, "Image/grid", "Tile"));
      }
      i := i + 1;
    }
  }

  /** The link `Url.Action("GetGridImage", "Image", ...)` produces: `<base>/api/Image/grid/<guid>/<gridId>`. */
  function GridImageUrl(baseUrl: string, mapGuid: string, gridId: int): string {
    baseUrl + "/api/" + "Image/grid" + ("/" + mapGuid + "/" + IntToString(gridId))
  }

  /**
   * On that link, the tiled rewrite yields the tile route
   * `<base>/api/Tile/<guid>/<gridId>`, provided the base does not itself
   * contain "Image/grid" and the Guid text holds no 'I' (Guids are
   * written in lower-case hex).
   */
  lemma TiledGridUrl(baseUrl: string, mapGuid: string, gridId: int)
    requires forall k :: 0 <= k < |baseUrl + "/api/"| ==> !OccursAt(baseUrl + "/api/" + "Image/grid", "Image/grid", k)
    requires forall i :: 0 <= i < |mapGuid| ==> mapGuid[i] != 'I'
    ensures GridUrl(true, Some(GridImageUrl(baseUrl, mapGuid, gridId))) == Some(baseUrl + "/api/" + "Tile" + ("/" + mapGuid + "/" + IntToString(gridId)))
  {
    var tail := "/" + mapGuid + "/" + IntToString(gridId);
    ReplaceAllFirstOccurrence(baseUrl + "/api/", "Image/grid", "Tile", tail);
    IntToStringChars(gridId);
    assert forall i :: 0 <= i < |tail| ==> tail[i] != 'I' by {
      var digits := IntToString(gridId);
      forall i | 0 <= i < |tail| ensures tail[i] != 'I' {
        if i == 0 || i == |mapGuid| + 1 {
          assert tail[i] == '/';
        } else if i <= |mapGuid| {
          assert tail[i] == mapGuid[i - 1];
        } else {
          assert tail[i] == digits[i - |mapGuid| - 2];
        }
      }
    }
    AbsentWithoutFirstChar(tail, "Image/grid");
    ReplaceAllAbsent(tail, "Image/grid", "Tile");
  }
}
