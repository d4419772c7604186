/**
 * `FileUploadService` (SS14.MapServer/Services/FileUploadService.cs): which
 * image files are accepted, where uploaded images and grid images are
 * stored, and how `UploadGridImages` matches images to grids.
 *
 * The bytes of the files are not modelled, nor is creating and clearing the
 * map's folder. The extension-to-mime-type table of the MimeTypes package is
 * the parameter `mimeOf`; the Guids that name stored files are parameters.
 */
module FileUpload {
  import opened Wrappers
  import opened Strings
  import opened Entities
  import Paths

  /** The `FilePaths` configuration section, as far as uploads read it. */
  datatype FilePathsConfig = FilePathsConfig(gridImagesPath: string, imagesPath: string, allowedMimeTypes: seq<string>)

  datatype UploadError =
    | MimeTypeNotFound(extension: string)  // "Mime type not found for file extension ..."
    | MimeTypeNotAllowed(mimeType: string)
    | GridIdNotParsed(name: string)        // "One of the provided file names couldn't be parsed into a grid id"
    | GridNotInMap(gridId: int)            // "Grid id ... not present in map ..."
    | DuplicateGridId                      // `ToDictionary` on two grids with the same id

  /**
   * `ValidateImageFile`: the file's extension must have a mime type, and the
   * mime type must be one of the allowed ones. None means valid.
   */
  function ValidateImageFile(config: FilePathsConfig, mimeOf: string -> Option<string>, fileName: string): (r: Option<UploadError>)
    ensures r.None? <==> mimeOf(Paths.GetExtension(fileName)).Some? && mimeOf(Paths.GetExtension(fileName)).value in config.allowedMimeTypes
    ensures mimeOf(Paths.GetExtension(fileName)).None? ==> r == Some(MimeTypeNotFound(Paths.GetExtension(fileName)))
    ensures r.Some? && mimeOf(Paths.GetExtension(fileName)).Some? ==> r == Some(MimeTypeNotAllowed(mimeOf(Paths.GetExtension(fileName)).value))
  {
    var extension := Paths.GetExtension(fileName);
    match mimeOf(extension)
    case None => Some(MimeTypeNotFound(extension))
    case Some(mimeType) => if mimeType !in config.allowedMimeTypes then Some(MimeTypeNotAllowed(mimeType)) else None
  }

  /** Where `UploadImage` stores a file: the given path, or `ImagesPath/upload_<guid><extension>`. */
  function UploadTarget(config: FilePathsConfig, path: Option<string>, guid: string, fileName: string): string {
    if path.Some? then path.value else Paths.Combine(config.imagesPath, "upload_" + guid + Paths.GetExtension(fileName))
  }

  /** Without a given path, the stored file is named `upload_<guid><extension>`. */
  lemma UploadTargetName(config: FilePathsConfig, guid: string, fileName: string)
    requires Paths.NoSeparator(guid)
    ensures Paths.GetFileName(UploadTarget(config, None, guid, fileName)) == "upload_" + guid + Paths.GetExtension(fileName)
  {
    Paths.NoSeparatorConcat("upload_", guid);
    Paths.CombineConcatFileName(config.imagesPath, "upload_" + guid, Paths.GetExtension(fileName));
  }

  /**
   * `UploadImage`: refuses an invalid file; otherwise stores it at its
   * target and records that in `InternalPath`.
   */
  method UploadImage(config: FilePathsConfig, mimeOf: string -> Option<string>, image: ImageFile, fileName: string,
                     path: Option<string>, guid: string) returns (r: Result<string, UploadError>)
    modifies image
    ensures r.Err? <==> ValidateImageFile(config, mimeOf, fileName).Some?
    ensures r.Err? ==> r.error == ValidateImageFile(config, mimeOf, fileName).value && image.internalPath == old(image.internalPath)
    ensures r.Ok? ==> r.value == UploadTarget(config, path, guid, fileName) && image.internalPath == r.value
    ensures image.path == old(image.path)
  {
    var message := ValidateImageFile(config, mimeOf, fileName);
    if message.Some? {
      return Err(message.value);
    }
    var target := if path.Some? then path.value else Paths.Combine(config.imagesPath, "upload_" + guid + Paths.GetExtension(fileName));
    image.internalPath := target;
    r := Ok(target);
  }

  /** The folder of a map's grid images: `GridImagesPath/<gitRef>/<mapId>`. */
  function MapFolder(config: FilePathsConfig, gitRef: string, mapId: string): string {
    Paths.Combine(Paths.Combine(config.gridImagesPath, gitRef), mapId)
  }

  /** A non-tiled grid's image: `<map folder>/<gridId><extension>`. */
  function GridImagePath(mapPath: string, gridId: int, fileName: string): string {
    Paths.Combine(mapPath, IntToString(gridId) + Paths.GetExtension(fileName))
  }

  /** A tiled grid's tile folder: `<map folder>/tiles/<gridId>`. */
  function TilesFolder(mapPath: string, gridId: int): string {
    Paths.Combine(Paths.Combine(mapPath, "tiles"), IntToString(gridId))
  }

  /**
   * For plain names the map folder is `<GridImagesPath>/<gitRef>/<mapId>`:
   * one folder per ref and map id.
   */
  lemma MapFolderLayout(config: FilePathsConfig, gitRef: string, mapId: string)
    requires |config.gridImagesPath| > 0 && config.gridImagesPath[|config.gridImagesPath| - 1] != Paths.Separator
    requires |gitRef| > 0 && Paths.NoSeparator(gitRef) && |mapId| > 0 && Paths.NoSeparator(mapId)
    ensures MapFolder(config, gitRef, mapId) == config.gridImagesPath + "/" + gitRef + "/" + mapId
    ensures Paths.GetFileName(MapFolder(config, gitRef, mapId)) == mapId
  {
    Paths.CombineFileName(Paths.Combine(config.gridImagesPath, gitRef), mapId);
  }

  /**
   * A tiled grid's tiles go to `<map folder>/tiles/<gridId>`, a folder whose
   * name reads back as the grid id.
   */
  lemma TilesFolderLayout(mapPath: string, gridId: int)
    requires Int32Min <= gridId <= Int32Max
    requires |mapPath| > 0 && mapPath[|mapPath| - 1] != Paths.Separator
    ensures TilesFolder(mapPath, gridId) == mapPath + "/tiles/" + IntToString(gridId)
    ensures TryParseInt32(Paths.GetFileName(TilesFolder(mapPath, gridId))) == Some(gridId)
  {
    var tiles := Paths.Combine(mapPath, "tiles");
    assert tiles == mapPath + "/tiles";
    IdFolderName(tiles, gridId);
    ParseIntToString(gridId);
  }

  /** A folder named after a grid id, inside a folder whose name ends in a letter. */
  lemma IdFolderName(dir: string, gridId: int)
    requires |dir| > 0 && dir[|dir| - 1] == 's'
    ensures Paths.Combine(dir, IntToString(gridId)) == dir + "/" + IntToString(gridId)
    ensures Paths.GetFileName(Paths.Combine(dir, IntToString(gridId))) == IntToString(gridId)
  {
    var id := IntToString(gridId);
    IntToStringChars(gridId);
    assert id[0] != Paths.Separator;
    assert Paths.NoSeparator(id);
    Paths.CombineFileName(dir, id);
  }

  /**
   * A stored grid image is named after its grid: reading its name back the
   * way the upload does yields the grid id again.
   */
  lemma GridImageNameRoundTrip(mapPath: string, gridId: int, fileName: string)
    requires Int32Min <= gridId <= Int32Max
    ensures TryParseInt32(Paths.GetFileNameWithoutExtension(GridImagePath(mapPath, gridId, fileName))) == Some(gridId)
    ensures Paths.GetExtension(GridImagePath(mapPath, gridId, fileName)) == Paths.GetExtension(fileName)
  {
    var stem, ext := IntToString(gridId), Paths.GetExtension(fileName);
    IntToStringChars(gridId);
    assert Paths.NoSeparator(stem);
    assert forall i :: 0 <= i < |stem| ==> stem[i] != '.';
    Paths.CombinedNameParts(mapPath, stem, ext);
    ParseIntToString(gridId);
  }


  /**
   * What `UploadGridImages` reads from a grid (its id, whether it is tiled,
   * its tile size) and what it leaves alone (its link): everything but the path.
   */
  datatype GridInfo = GridInfo(gridId: int, tiled: bool, tileSize: int, url: Option<string>)

  function Infos(grids: seq<Grid>): (r: seq<GridInfo>)
    reads set g | g in grids
    ensures |r| == |grids|
    ensures forall i :: 0 <= i < |grids| ==> r[i] == GridInfo(grids[i].gridId, grids[i].tiled, grids[i].tileSize, grids[i].url)
  {
    seq(|grids|, i reads set g | g in grids requires 0 <= i < |grids| => GridInfo(grids[i].gridId, grids[i].tiled, grids[i].tileSize, grids[i].url))
  }

  function PathsOf(grids: seq<Grid>): (r: seq<string>)
    reads set g | g in grids
    ensures |r| == |grids|
    ensures forall i :: 0 <= i < |grids| ==> r[i] == grids[i].path
  {
    seq(|grids|, i reads set g | g in grids requires 0 <= i < |grids| => grids[i].path)
  }

  /** `ToDictionary` succeeds: no two grids share an id. */
  predicate DistinctIds(infos: seq<GridInfo>) {
    forall i, j :: 0 <= i < j < |infos| ==> infos[i].gridId != infos[j].gridId
  }

  /** The dictionary lookup: the position of the grid with this id. */
  function IndexOfGrid(infos: seq<GridInfo>, gridId: int): (r: Option<nat>)
    ensures r.Some? ==> r.value < |infos| && infos[r.value].gridId == gridId
    ensures r.None? <==> forall i :: 0 <= i < |infos| ==> infos[i].gridId != gridId
    decreases |infos|
  {
    if |infos| == 0 then None
    else if infos[|infos| - 1].gridId == gridId then Some(|infos| - 1)
    else IndexOfGrid(infos[..|infos| - 1], gridId)
  }

  /** An uploaded grid image: its file name, and the Guid its temporary copy is named with when the grid is tiled. */
  datatype UploadedImage = UploadedImage(fileName: string, tempGuid: string)

  /** What one `UploadGridImages` call shares: configuration, mime table, map and folders. */
  datatype UploadEnv = UploadEnv(config: FilePathsConfig, mimeOf: string -> Option<string>, mapGuid: string,
                                 mapPath: string, tempPath: string)

  /** One image handled: the grid it belongs to, that grid's new path, and the tiling job scheduled, if any. */
  datatype ImageStepResult = ImageStepResult(index: nat, path: string, job: Option<ProcessingOptions>)

  /** The grid id an image's file name gives, if it parses. */
  function NamedGridId(image: UploadedImage): Option<int> {
    TryParseInt32(Paths.GetFileNameWithoutExtension(image.fileName))
  }

  /**
   * One turn of the loop: parse the grid id, find the grid, validate the
   * file, then store it (non-tiled) or schedule it for tiling (tiled).
   */
  function ImageStep(env: UploadEnv, infos: seq<GridInfo>, image: UploadedImage): (r: Result<ImageStepResult, UploadError>)
    ensures NamedGridId(image).None? ==> r == Err(GridIdNotParsed(Paths.GetFileNameWithoutExtension(image.fileName)))
    ensures NamedGridId(image).Some? && IndexOfGrid(infos, NamedGridId(image).value).None? ==>
      r == Err(GridNotInMap(NamedGridId(image).value))
    ensures NamedGridId(image).Some? && IndexOfGrid(infos, NamedGridId(image).value).Some? ==>
      && (r.Ok? <==> ValidateImageFile(env.config, env.mimeOf, image.fileName).None?)
      && (ValidateImageFile(env.config, env.mimeOf, image.fileName).Some? ==>
            r == Err(ValidateImageFile(env.config, env.mimeOf, image.fileName).value))
    ensures r.Ok? ==> && NamedGridId(image).Some?
                      && r.value.index < |infos|
                      && infos[r.value.index].gridId == NamedGridId(image).value
                      && ValidateImageFile(env.config, env.mimeOf, image.fileName).None?
    ensures r.Ok? && !infos[r.value.index].tiled ==>
      r.value.path == GridImagePath(env.mapPath, infos[r.value.index].gridId, image.fileName) && r.value.job.None?
    ensures r.Ok? && infos[r.value.index].tiled ==>
      && r.value.path == TilesFolder(env.mapPath, infos[r.value.index].gridId)
      && r.value.job == Some(ProcessingOptions(env.mapGuid, infos[r.value.index].gridId,
                                               Paths.Combine(env.tempPath, image.tempGuid + Paths.GetExtension(image.fileName)),
                                               r.value.path, infos[r.value.index].tileSize, true))
  {
    match NamedGridId(image)
    case None => Err(GridIdNotParsed(Paths.GetFileNameWithoutExtension(image.fileName)))
    case Some(gridId) =>
      match IndexOfGrid(infos, gridId)
      case None => Err(GridNotInMap(gridId))
      case Some(index) =>
        match ValidateImageFile(env.config, env.mimeOf, image.fileName)
        case Some(e) => Err(e)
        case None =>
          if infos[index].tiled then
            var targetPath := TilesFolder(env.mapPath, gridId);
            var sourcePath := Paths.Combine(env.tempPath, image.tempGuid + Paths.GetExtension(image.fileName));
            Ok(ImageStepResult(index, targetPath, Some(ProcessingOptions(env.mapGuid, gridId, sourcePath, targetPath, infos[index].tileSize, true))))
          else
            Ok(ImageStepResult(index, GridImagePath(env.mapPath, gridId, image.fileName), None))
  }

  /** The grids' paths and the jobs scheduled after the images, and the error that ended the loop, if any. */
  datatype UploadOutcome = UploadOutcome(paths: seq<string>, jobs: seq<ProcessingOptions>, error: Option<UploadError>)

  /** The result of each image's turn, in order. */
  function Steps(env: UploadEnv, infos: seq<GridInfo>, images: seq<UploadedImage>): (r: seq<Result<ImageStepResult, UploadError>>)
    ensures |r| == |images|
    ensures forall k :: 0 <= k < |images| ==> r[k] == ImageStep(env, infos, images[k])
  {
    seq(|images|, k requires 0 <= k < |images| => ImageStep(env, infos, images[k]))
  }

  /** Every successful turn names one of `n` grids. */
  predicate StepsFit(steps: seq<Result<ImageStepResult, UploadError>>, n: nat) {
    forall k :: 0 <= k < |steps| && steps[k].Ok? ==> steps[k].value.index < n
  }

  lemma StepsFitInfos(env: UploadEnv, infos: seq<GridInfo>, images: seq<UploadedImage>)
    ensures StepsFit(Steps(env, infos, images), |infos|)
  {
    var steps := Steps(env, infos, images);
    forall k | 0 <= k < |steps| && steps[k].Ok? ensures steps[k].value.index < |infos| {
      assert steps[k] == ImageStep(env, infos, images[k]);
    }
  }

  /**
   * The loop from a given state: the turns' results are applied in order until
   * one fails; that failure ends the loop with the state reached so far.
   */
  function ApplySteps(steps: seq<Result<ImageStepResult, UploadError>>, paths: seq<string>,
                      jobs: seq<ProcessingOptions>): (r: UploadOutcome)
    requires StepsFit(steps, |paths|)
    ensures |r.paths| == |paths| && jobs <= r.jobs
    decreases |steps|
  {
    if |steps| == 0 then UploadOutcome(paths, jobs, None)
    else
      match steps[0]
      case Err(e) => UploadOutcome(paths, jobs, Some(e))
      case Ok(st) =>
        assert StepsFit(steps[1..], |paths|) by {
          forall k | 0 <= k < |steps[1..]| && steps[1..][k].Ok? ensures steps[1..][k].value.index < |paths| {
            assert steps[1..][k] == steps[k + 1];
          }
        }
        ApplySteps(steps[1..], paths[st.index := st.path], jobs + (if st.job.Some? then [st.job.value] else []))
  }

  /** The turn at position i, unfolded: a failure ends the loop, a success moves on to i + 1. */
  lemma ApplyStepAt(steps: seq<Result<ImageStepResult, UploadError>>, i: nat, paths: seq<string>, jobs: seq<ProcessingOptions>)
    requires i < |steps| && StepsFit(steps[i..], |paths|)
    ensures steps[i].Err? ==> ApplySteps(steps[i..], paths, jobs) == UploadOutcome(paths, jobs, Some(steps[i].error))
    ensures steps[i].Ok? ==> var st := steps[i].value;
      && st.index < |paths| && StepsFit(steps[i + 1..], |paths|)
      && ApplySteps(steps[i..], paths, jobs) ==
         ApplySteps(steps[i + 1..], paths[st.index := st.path], jobs + (if st.job.Some? then [st.job.value] else []))
  {
    assert steps[i..][0] == steps[i];
    if steps[i].Ok? {
      ApplyStepsOk(steps[i..], paths, jobs);
      assert steps[i..][1..] == steps[i + 1..];
    }
  }

  /** A successful first turn, unfolded. */
  lemma ApplyStepsOk(steps: seq<Result<ImageStepResult, UploadError>>, paths: seq<string>, jobs: seq<ProcessingOptions>)
    requires StepsFit(steps, |paths|) && |steps| > 0 && steps[0].Ok?
    ensures StepsFit(steps[1..], |paths|)
    ensures var st := steps[0].value;
      ApplySteps(steps, paths, jobs) == ApplySteps(steps[1..], paths[st.index := st.path], jobs + (if st.job.Some? then [st.job.value] else []))
  {
    forall k | 0 <= k < |steps[1..]| && steps[1..][k].Ok? ensures steps[1..][k].value.index < |paths| {
      assert steps[1..][k] == steps[k + 1];
    }
  }

  /** `UploadGridImages` as a function of the grids' old paths. */
  function GridImagesUpload(env: UploadEnv, infos: seq<GridInfo>, images: seq<UploadedImage>, paths: seq<string>): (r: UploadOutcome)
    requires |paths| == |infos|
    ensures !DistinctIds(infos) ==> r == UploadOutcome(paths, [], Some(DuplicateGridId))
  {
    if !DistinctIds(infos) then UploadOutcome(paths, [], Some(DuplicateGridId))
    else
      StepsFitInfos(env, infos, images);
      ApplySteps(Steps(env, infos, images), paths, [])
  }

  /** A grid that no turn updates keeps its path. */
  lemma {:induction false} UntouchedPathKept(steps: seq<Result<ImageStepResult, UploadError>>, paths: seq<string>,
                                             jobs: seq<ProcessingOptions>, j: nat)
    requires StepsFit(steps, |paths|) && j < |paths|
    requires forall k :: 0 <= k < |steps| && steps[k].Ok? ==> steps[k].value.index != j
    ensures ApplySteps(steps, paths, jobs).paths[j] == paths[j]
    decreases |steps|
  {
    if |steps| > 0 && steps[0].Ok? {
      var st := steps[0].value;
      assert forall k :: 0 <= k < |steps[1..]| ==> steps[1..][k] == steps[k + 1];
      UntouchedPathKept(steps[1..], paths[st.index := st.path], jobs + (if st.job.Some? then [st.job.value] else []), j);
    }
  }

  /** A grid that no image names keeps its path: only named grids can change. */
  lemma UnnamedGridKeepsPath(env: UploadEnv, infos: seq<GridInfo>, images: seq<UploadedImage>, paths: seq<string>, j: nat)
    requires |paths| == |infos| && j < |infos| && DistinctIds(infos)
    requires forall k :: 0 <= k < |images| ==> NamedGridId(images[k]) != Some(infos[j].gridId)
    ensures GridImagesUpload(env, infos, images, paths).paths[j] == paths[j]
  {
    var steps := Steps(env, infos, images);
    StepsFitInfos(env, infos, images);
    forall k | 0 <= k < |steps| && steps[k].Ok? ensures steps[k].value.index != j {
      assert steps[k] == ImageStep(env, infos, images[k]);
    }
    UntouchedPathKept(steps, paths, [], j);
  }

  /** Every job a turn schedules, up to the first failure, is among the jobs of the outcome, after those before it. */
  lemma {:induction false} JobsFromSteps(steps: seq<Result<ImageStepResult, UploadError>>, paths: seq<string>,
                                         jobs: seq<ProcessingOptions>, q: ProcessingOptions)
    requires StepsFit(steps, |paths|)
    requires q in ApplySteps(steps, paths, jobs).jobs && q !in jobs
    ensures exists k :: 0 <= k < |steps| && steps[k].Ok? && steps[k].value.job == Some(q)
    decreases |steps|
  {
    if |steps| > 0 && steps[0].Ok? {
      var st := steps[0].value;
      var jobs' := jobs + (if st.job.Some? then [st.job.value] else []);
      assert forall k :: 0 <= k < |steps[1..]| ==> steps[1..][k] == steps[k + 1];
      if q in jobs' {
        assert st.job == Some(q);
      } else {
        JobsFromSteps(steps[1..], paths[st.index := st.path], jobs', q);
        var k :| 0 <= k < |steps[1..]| && steps[1..][k].Ok? && steps[1..][k].value.job == Some(q);
        assert steps[k + 1] == steps[1..][k];
      }
    }
  }

  /**
   * Every scheduled job belongs to the map, tiles a tiled grid of the map
   * into that grid's tile folder, and removes its temporary source when done.
   */
  lemma JobsTargetGridPaths(env: UploadEnv, infos: seq<GridInfo>, images: seq<UploadedImage>, paths: seq<string>,
                            q: ProcessingOptions)
    requires |paths| == |infos| && DistinctIds(infos)
    requires q in GridImagesUpload(env, infos, images, paths).jobs
    ensures q.removeSource && q.mapGuid == env.mapGuid && q.targetPath == TilesFolder(env.mapPath, q.gridId)
    ensures exists i :: 0 <= i < |infos| && infos[i].tiled && infos[i].gridId == q.gridId && infos[i].tileSize == q.tileSize
  {
    var steps := Steps(env, infos, images);
    StepsFitInfos(env, infos, images);
    JobsFromSteps(steps, paths, [], q);
    var k :| 0 <= k < |steps| && steps[k].Ok? && steps[k].value.job == Some(q);
    assert steps[k] == ImageStep(env, infos, images[k]);
    var i := steps[k].value.index;
    assert infos[i].tiled && infos[i].gridId == q.gridId;
  }

  /** A loop that ends without an error applied every turn, and every turn succeeded. */
  lemma {:induction false} NoErrorAllOk(steps: seq<Result<ImageStepResult, UploadError>>, paths: seq<string>,
                                        jobs: seq<ProcessingOptions>)
    requires StepsFit(steps, |paths|) && ApplySteps(steps, paths, jobs).error.None?
    ensures forall k :: 0 <= k < |steps| ==> steps[k].Ok?
    decreases |steps|
  {
    if |steps| > 0 {
      var st := steps[0].value;
      ApplyStepsOk(steps, paths, jobs);
      NoErrorAllOk(steps[1..], paths[st.index := st.path], jobs + (if st.job.Some? then [st.job.value] else []));
      assert forall k :: 1 <= k < |steps| ==> steps[k] == steps[1..][k - 1];
    }
  }

  /** The last successful turn for a grid decides its path, whatever fails after it. */
  lemma {:induction false} LastTurnSetsPath(steps: seq<Result<ImageStepResult, UploadError>>, paths: seq<string>,
                                            jobs: seq<ProcessingOptions>, k: nat)
    requires StepsFit(steps, |paths|) && k < |steps|
    requires forall m :: 0 <= m <= k ==> steps[m].Ok?
    requires forall m :: k < m < |steps| && steps[m].Ok? ==> steps[m].value.index != steps[k].value.index
    ensures ApplySteps(steps, paths, jobs).paths[steps[k].value.index] == steps[k].value.path
    decreases |steps|
  {
    var st := steps[0].value;
    var paths', jobs' := paths[st.index := st.path], jobs + (if st.job.Some? then [st.job.value] else []);
    ApplyStepsOk(steps, paths, jobs);
    assert forall m :: 0 <= m < |steps[1..]| ==> steps[1..][m] == steps[m + 1];
    if k == 0 {
      UntouchedPathKept(steps[1..], paths', jobs', st.index);
    } else {
      LastTurnSetsPath(steps[1..], paths', jobs', k - 1);
    }
  }

  /** The job of a successful turn reached by the loop is among the jobs of the outcome. */
  lemma {:induction false} ReachedJobScheduled(steps: seq<Result<ImageStepResult, UploadError>>, paths: seq<string>,
                                               jobs: seq<ProcessingOptions>, k: nat)
    requires StepsFit(steps, |paths|) && k < |steps|
    requires forall m :: 0 <= m <= k ==> steps[m].Ok?
    requires steps[k].value.job.Some?
    ensures steps[k].value.job.value in ApplySteps(steps, paths, jobs).jobs
    decreases |steps|
  {
    var st := steps[0].value;
    var paths', jobs' := paths[st.index := st.path], jobs + (if st.job.Some? then [st.job.value] else []);
    ApplyStepsOk(steps, paths, jobs);
    assert forall m :: 0 <= m < |steps[1..]| ==> steps[1..][m] == steps[m + 1];
    if k == 0 {
      assert st.job.value in jobs';
    } else {
      ReachedJobScheduled(steps[1..], paths', jobs', k - 1);
    }
  }

  /**
   * After an upload without error, every image named a grid of the map, and
   * the grid named by image k, when no later image names it, has the path
   * that image gives: its tile folder when tiled, `<mapPath>/<id><ext>` otherwise.
   */
  lemma UploadedGridPath(env: UploadEnv, infos: seq<GridInfo>, images: seq<UploadedImage>, paths: seq<string>, k: nat)
    requires |paths| == |infos| && DistinctIds(infos) && k < |images|
    requires GridImagesUpload(env, infos, images, paths).error.None?
    requires forall m :: k < m < |images| ==> NamedGridId(images[m]) != NamedGridId(images[k])
    ensures NamedGridId(images[k]).Some?
    ensures exists i :: 0 <= i < |infos| && infos[i].gridId == NamedGridId(images[k]).value
    ensures forall i :: 0 <= i < |infos| && infos[i].gridId == NamedGridId(images[k]).value ==>
      GridImagesUpload(env, infos, images, paths).paths[i] ==
        if infos[i].tiled then TilesFolder(env.mapPath, infos[i].gridId)
        else GridImagePath(env.mapPath, infos[i].gridId, images[k].fileName)
  {
    var steps := Steps(env, infos, images);
    StepsFitInfos(env, infos, images);
    NoErrorAllOk(steps, paths, []);
    assert steps[k] == ImageStep(env, infos, images[k]);
    var j := steps[k].value.index;
    forall m | k < m < |steps| && steps[m].Ok? ensures steps[m].value.index != j {
      assert steps[m] == ImageStep(env, infos, images[m]);
    }
    LastTurnSetsPath(steps, paths, [], k);
    forall i | 0 <= i < |infos| && infos[i].gridId == NamedGridId(images[k]).value
      ensures i == j
    {
      assert infos[i].gridId == infos[j].gridId;
    }
  }

  /**
   * An image for a tiled grid that the loop reaches (every image before it
   * succeeded) and that succeeds schedules its tiling job.
   */
  lemma TiledImageScheduled(env: UploadEnv, infos: seq<GridInfo>, images: seq<UploadedImage>, paths: seq<string>, k: nat)
    requires |paths| == |infos| && DistinctIds(infos) && k < |images|
    requires forall m :: 0 <= m <= k ==> ImageStep(env, infos, images[m]).Ok?
    requires infos[ImageStep(env, infos, images[k]).value.index].tiled
    ensures ImageStep(env, infos, images[k]).value.job.Some?
    ensures ImageStep(env, infos, images[k]).value.job.value in GridImagesUpload(env, infos, images, paths).jobs
  {
    var steps := Steps(env, infos, images);
    StepsFitInfos(env, infos, images);
    assert forall m :: 0 <= m <= k ==> steps[m] == ImageStep(env, infos, images[m]);
    ReachedJobScheduled(steps, paths, [], k);
  }

  /**
   * `UploadGridImages`: refuses grids with a shared id; then handles the
   * images in order, giving each named grid its new path and scheduling a
   * tiling job for tiled grids. The first failing image ends the loop, and the
   * grids updated before it keep their new paths.
   */
  method UploadGridImages(config: FilePathsConfig, mimeOf: string -> Option<string>, gitRef: string, m: Map,
                          images: seq<UploadedImage>, tempPath: string)
    returns (error: Option<UploadError>, jobs: seq<ProcessingOptions>)
    modifies set g | g in m.grids
    ensures Infos(m.grids) == old(Infos(m.grids))
    ensures var outcome := GridImagesUpload(UploadEnv(config, mimeOf, m.mapGuid, MapFolder(config, gitRef, m.mapId), tempPath),
                                            old(Infos(m.grids)), images, old(PathsOf(m.grids)));
      error == outcome.error && jobs == outcome.jobs && PathsOf(m.grids) == outcome.paths
  {
    var env := UploadEnv(config, mimeOf, m.mapGuid, MapFolder(config, gitRef, m.mapId), tempPath);
    var infos := Infos(m.grids);
    if !DistinctIds(infos) {
      return Some(DuplicateGridId), [];
    }
    error, jobs := HandleImages(env, m.grids, images);
  }

  /** The loop of `UploadGridImages` over the images, once the grid dictionary is built. */
  method HandleImages(env: UploadEnv, grids: seq<Grid>, images: seq<UploadedImage>)
    returns (error: Option<UploadError>, jobs: seq<ProcessingOptions>)
    requires DistinctIds(Infos(grids))
    modifies set g | g in grids
    ensures Infos(grids) == old(Infos(grids))
    ensures StepsFit(Steps(env, old(Infos(grids)), images), |grids|)
    ensures ApplySteps(Steps(env, old(Infos(grids)), images), old(PathsOf(grids)), []) == UploadOutcome(PathsOf(grids), jobs, error)
  {
    var infos := Infos(grids);
    ghost var steps := Steps(env, infos, images);
    StepsFitInfos(env, infos, images);
    ghost var outcome := ApplySteps(steps, PathsOf(grids), []);
    assert outcome == ApplySteps(Steps(env, old(Infos(grids)), images), old(PathsOf(grids)), []);
    jobs := [];
    var i := 0;
    while i < |images|
      invariant 0 <= i <= |images|
      invariant Infos(grids) == infos
      invariant StepsFit(steps[i..], |grids|)
      invariant outcome == ApplySteps(steps[i..], PathsOf(grids), jobs)
    {
      var step := ImageStep(env, infos, images[i]);
      assert step == steps[i];
      ApplyStepAt(steps, i, PathsOf(grids), jobs);
      if step.Err? {
        return Some(step.error), jobs;
      }
      SetGridPath(grids, step.value.index, step.value.path);
      jobs := jobs + (if step.value.job.Some? then [step.value.job.value] else []);
      i := i + 1;
    }
    assert steps[|images|..] == [];
    error := None;
  }

  /** `grid.Path = path` through the dictionary: grids with distinct ids are distinct objects, so only this one changes. */
  method SetGridPath(grids: seq<Grid>, index: nat, path: string)
    requires index < |grids| && DistinctIds(Infos(grids))
    modifies set g | g in grids
    ensures Infos(grids) == old(Infos(grids))
    ensures PathsOf(grids) == old(PathsOf(grids))[index := path]
  {
    ghost var infos := Infos(grids);
    grids[index].path := path;
    assert forall k :: 0 <= k < |grids| && k != index ==> grids[k] != grids[index] by {
      forall k | 0 <= k < |grids| && k != index ensures grids[k] != grids[index] {
        assert infos[k].gridId != infos[index].gridId;
      }
    }
  }
}
