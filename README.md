# SS14.MapServer build pipeline bookkeeping, in Dafny

This project models the sequential core of the SS14 map server: it holds the
state and decisions behind its build-and-import pipeline, plus the validators
and encoders around that pipeline. The model covers:

- **Directory pool** (`DirectoryPool`). This is the bounded pool of reusable working
  directories. A class holds the `Count` and `Available` counters and the idle
  directories of the inner object pool. Two pure step functions specify how `Get`
  and `Return` change the counters. Lemmas show that `0 <= Available <= Count <= MaxPoolSize`
  holds over any sequence of calls. So at most `MaxPoolSize` directories are handed out at once.
- **Admission queue** (`Queue`). This is the bounded FIFO of build requests. A full queue
  refuses a request; dequeuing takes the oldest request.
- **Tile enumeration** (`ImageProcessing`). `TileImage` checks its guards, then walks
  the rows and columns of whole tiles. It is proved against a row-major specification,
  with lemmas for the tile count, index, bounds and key uniqueness.
- **Webhook signature** (`WebhookHelper`). `ToHexString` is proved against a hex
  specification, with its length, its concatenation law and a decoder that undoes it.
  `VerifyWebhook` is the chain of header, payload, prefix and signature checks.
- **Webhook routing** (`WebhookController`). This covers the map-file/code-file
  decision in `CheckFiles`, the push and pull-request gates, the refs of the queued
  requests, and the pull-request comment records.
- **Map controller** (`MapController`). This covers `ValidateMapRequest`, the id check of
  `PutMap`, and the tile-route rewrite of `SetMapGridUrls`.
- **Map update** (`MapUpdate`). This covers the renderer command and arguments, the
  runner dispatch, and the order of sync, build-and-run and import.
- **File uploads** (`FileUpload`). This covers image validation, storage paths, and
  the loop of `UploadGridImages`: which grid gets which path, which tiling jobs are
  scheduled, and where the loop stops on an error.
- **Tile table** (`TileJobs`). `ProcessTiledImage.Execute` replaces a grid's tile
  rows wholesale. `MapService.DeleteMap` removes a map, its grids, their tile rows and
  their files.

Helper modules hold the .NET behaviour the code relies on: `Strings` (white
space, ASCII case mapping, `Replace`, `int.ToString` and `int.TryParse`), `Paths`
(`System.IO.Path` with '/' as separator), `Entities` (tiles, build requests,
grids, maps, images) and `Wrappers` (`Option`, `Result`).

External effects become parameters:
- whether a directory exists on disk;
- the Guids naming new directories, tiles and uploads;
- the HMAC-SHA256 function (RFC 2104 over FIPS 180-4);
- the mime-type table;
- the glob matchers;
- `Url.Action`;
- the git, build-runner and map-reader collaborators;
- whether deleting each file or directory throws;
- the image's width and height.

Tiling in `SS14.MapServer/MapProcessing/Services/ImageProcessingService.cs`
uses floor division, so partial strips at the right and bottom edges yield no
tiles; `SS14.MapServer.Tests/ImageProcessingServiceTests.cs` expects 60 tiles.
The model follows the code. The directory pool updates plain counters, and the
model keeps that sequential counter logic.

## Model

| member | source | states |
|---|---|---|
| `DirectoryPool.GetStep` | SS14.MapServer/Helpers/ProcessDirectoryPool.cs:80-90 | `Get` fails exactly when no directory is idle and the pool is full, and then changes nothing. Otherwise it hands out one more directory, keeps the bound and keeps `MaxPoolSize`. |
| `DirectoryPool.ReturnStep` | SS14.MapServer/Helpers/ProcessDirectoryPool.cs:65-72 | `Return` hands back one directory. One still on disk keeps `Count` (and raises `Available`). One deleted from disk keeps `Available` (and lowers `Count`). Returning a handed-out directory keeps the bound. |
| `DirectoryPool.HandedOutBounded` | SS14.MapServer/Configuration/ProcessingConfiguration.cs:7-12 | With valid counters, 0 <= handed-out <= `MaxPoolSize`. While fewer than the maximum are handed out, `HasAvailable` holds. |
| `DirectoryPool.RunKeepsCountersValid` | SS14.MapServer/Helpers/ProcessDirectoryPool.cs:62-93 | Over any sequence of `Get`s and `Return`s of handed-out directories, the counters stay valid and handed-out directories never exceed the maximum. |
| `DirectoryPool.ReturnWithoutGetBreaksBound` | SS14.MapServer/Helpers/ProcessDirectoryPool.cs:62-72 | `Return` does not check ownership. Returning a directory when none is handed out breaks `Available <= Count` or `0 <= Available`. |
| `DirectoryPool.GetReturnRestores` | SS14.MapServer/Helpers/ProcessDirectoryPool.cs:83-90 | A `Get` served from an idle directory, then `Return` of that still-existing directory, restores both counters. |
| `DirectoryPool.ProcessDirectoryPool.HasAvailable` | SS14.MapServer/Helpers/ProcessDirectoryPool.cs:28-31 | True exactly when `Available > 0` or `Count < MaxPoolSize`. |
| `DirectoryPool.ProcessDirectoryPool.Get` | SS14.MapServer/Helpers/ProcessDirectoryPool.cs:78-93 | Error with no change when nothing is available. With no idle directory, a fresh subdirectory of the root named by the new Guid is created and `Count` grows. Otherwise the last idle directory is handed out and `Available` drops. The counters follow `GetStep` and the pool invariant is kept. |
| `DirectoryPool.ProcessDirectoryPool.Return` | SS14.MapServer/Helpers/ProcessDirectoryPool.cs:62-76 | Counters follow `ReturnStep`. The inner pool keeps the directory only if it still exists (policy `Return`, lines 110-113). For a directory that was handed out, the invariant is kept and it becomes idle exactly when it exists. |
| `DirectoryPool.NewPool` | SS14.MapServer/Helpers/ProcessDirectoryPool.cs:18-26 | `DirectoryNotFound` exactly when the root is missing. Otherwise a fresh valid pool with `Count = Available = 0` and the configured maximum. |
| `DirectoryPool.GetThenReturn` | SS14.MapServer/Helpers/ProcessDirectoryPool.cs:62-93 | Running the class's `Get` from an idle directory and then `Return` leaves the counters and the lent set as they were. |
| `Queue.DefaultCapacityAdmitsSix` | SS14.MapServer/Configuration/ProcessingConfiguration.cs:22 | With the default `ProcessQueueMaxSize` of 6, an empty queue admits six requests offered in a row and refuses the seventh. |
| `Queue.OfferAllAcceptsPrefix` | SS14.MapServer/MapProcessing/Services/ProcessQueue.cs:29-36 | Offering items one by one accepts exactly the first `capacity - depth` of them, appended in order, and rejects every later one. |
| `Queue.ProcessQueue.Count` | SS14.MapServer/MapProcessing/Services/ProcessQueue.cs:12 | `Count` is the number of queued items. |
| `Queue.ProcessQueue.ChannelWrite` | SS14.MapServer/MapProcessing/Services/ProcessQueue.cs:21-26 | A `DropWrite` bounded channel appends the item when there is room and drops it otherwise. |
| `Queue.ProcessQueue.TryQueueProcessItem` | SS14.MapServer/MapProcessing/Services/ProcessQueue.cs:29-36 | False with the queue unchanged when `Count == MaxItemCount`. Otherwise the item is appended at the back and the call returns true. `Count <= MaxItemCount` is kept. |
| `Queue.ProcessQueue.Dequeue` | SS14.MapServer/MapProcessing/Services/ProcessQueue.cs:38-41 | Returns the oldest item. The rest keep their order and `Count` drops by one. |
| `Queue.NewProcessQueue` | SS14.MapServer/MapProcessing/Services/ProcessQueue.cs:14-27 | Capacity is `ProcessQueueMaxSize` (default 6) and the queue starts empty. A capacity below one is refused, as the bounded channel refuses it. |
| `ImageProcessing.TileRow` | SS14.MapServer/MapProcessing/Services/ImageProcessingService.cs:33-42 | One row holds `columns` tiles, where column x is the tile at (x, y). |
| `ImageProcessing.TileImage` | SS14.MapServer/MapProcessing/Services/ImageProcessingService.cs:10-46 | A tile size below 256 gives `TileSizeOutOfRange`. A path without extension gives `InvalidImagePath`. Otherwise the result is the row-major tile grid. |
| `ImageProcessing.EnumerateTiles` | SS14.MapServer/MapProcessing/Services/ImageProcessingService.cs:24-43 | The nested y/x loops produce exactly the row-major grid of `height / T` rows of `width / T` tiles. |
| `ImageProcessing.TileImageResult` | SS14.MapServer/MapProcessing/Services/ImageProcessingService.cs:10-46 | Success exactly when the guards pass. Every tile carries the given map id, grid id and `Size == tileSize`, and the tiles' primary keys are pairwise distinct. |
| `ImageProcessing.TileRowsLength` | SS14.MapServer/MapProcessing/Services/ImageProcessingService.cs:31-43 | `rows` rows of `columns` tiles give `rows * columns` tiles. |
| `ImageProcessing.TileRowsAt` | SS14.MapServer/MapProcessing/Services/ImageProcessingService.cs:31-41 | The tile at (x, y) sits at index `y * columns + x`. |
| `ImageProcessing.TileRowsRange` | SS14.MapServer/MapProcessing/Services/ImageProcessingService.cs:31-41 | Every tile's column and row lie in range, and the tile is the one built for that cell. |
| `ImageProcessing.TileRowsDistinct` | SS14.MapServer/MapProcessing/Services/ImageProcessingService.cs:31-41 | No two tiles share a column and a row. |
| `ImageProcessing.ColumnWithin` | SS14.MapServer/MapProcessing/Services/ImageProcessingService.cs:35 | A column below `width / T` ends inside the image: `T * x + T <= width`. |
| `ImageProcessing.TileCount` | SS14.MapServer/MapProcessing/Services/ImageProcessingService.cs:24-25 | The number of tiles is `(H / T) * (W / T)`, using floor division. |
| `ImageProcessing.TileAt` | SS14.MapServer/MapProcessing/Services/ImageProcessingService.cs:31-41 | Row-major order: the tile at (x, y) is at index `y * (W / T) + x`. |
| `ImageProcessing.TilesWithinBounds` | SS14.MapServer/MapProcessing/Services/ImageProcessingService.cs:35-41 | Every crop rectangle `(T*x, T*y, T, T)` lies within the image. Every tile carries the map, the grid and the tile size. |
| `ImageProcessing.TileKeysDistinct` | SS14.MapServer/Models/Entities/Tile.cs:5 | The produced tiles' keys (map, grid, x, y) are pairwise distinct, matching the primary key. |
| `ImageProcessing.PartialStripsDropped` | SS14.MapServer/MapProcessing/Services/ImageProcessingService.cs:24-25 | A 4400 x 2600 image at T = 256 gives 170 tiles: the partial edge strips yield none. |
| `WebhookHelper.ToHexString` | SS14.MapServer/Helpers/GithubWebhookHelper.cs:56-65 | The loop appends each byte's `{0:x2}` form in input order. |
| `WebhookHelper.HexLength` | SS14.MapServer/Helpers/GithubWebhookHelper.cs:58-62 | The hex text is exactly twice as long as the input. |
| `WebhookHelper.HexConcat` | SS14.MapServer/Helpers/GithubWebhookHelper.cs:59-62 | `Hex(a + b) == Hex(a) + Hex(b)`. |
| `WebhookHelper.HexAt` | SS14.MapServer/Helpers/GithubWebhookHelper.cs:59-62 | Byte i becomes characters 2i and 2i+1: the high nibble, then the low nibble. |
| `WebhookHelper.HexLowercase` | SS14.MapServer/Helpers/GithubWebhookHelper.cs:61 | Every character is a digit or one of 'a' to 'f'. |
| `WebhookHelper.FromHexHex` | SS14.MapServer/Helpers/GithubWebhookHelper.cs:61 | A hex decoder recovers the original bytes. |
| `WebhookHelper.HexInjective` | SS14.MapServer/Helpers/GithubWebhookHelper.cs:56-65 | Different byte arrays have different hex texts. |
| `WebhookHelper.AsciiBytes` | SS14.MapServer/Helpers/GithubWebhookHelper.cs:41 | `Encoding.ASCII.GetBytes` keeps the length and turns non-ASCII characters into '?'. |
| `WebhookHelper.Utf8OfAscii` | SS14.MapServer/Helpers/GithubWebhookHelper.cs:41-42 | On ASCII text, the UTF-8 and ASCII byte encodings agree. |
| `WebhookHelper.VerifyWebhook` | SS14.MapServer/Helpers/GithubWebhookHelper.cs:17-54 | Error exactly when the secret is unset or empty. Otherwise true exactly when all three headers are present, the payload is not blank, the signature header starts with `sha256=` in any case, and the rest equals the lowercase hex HMAC exactly. |
| `WebhookHelper.AcceptedSignatureLength` | SS14.MapServer/Helpers/GithubWebhookHelper.cs:37-53 | An accepted signature header is 7 characters plus two per HMAC byte. |
| `WebhookHelper.UppercasePrefixAccepted` | SS14.MapServer/Helpers/GithubWebhookHelper.cs:38 | The prefix is compared without case, so "SHA256=" followed by the right signature is accepted. |
| `WebhookHelper.UppercaseDigitsRejected` | SS14.MapServer/Helpers/GithubWebhookHelper.cs:47-50 | The digits are compared exactly, so a signature with an upper-case hex letter is never accepted. |
| `WebhookController.CheckFiles` | SS14.MapServer/Controllers/GitHubWebhookController.cs:140-170 | Empty exactly when no changed file is a map file, or when code changes are forbidden and some changed file matches a code pattern. Otherwise exactly the changed map files. |
| `WebhookController.FileNames` | SS14.MapServer/Controllers/GitHubWebhookController.cs:94 | Each matched path is reduced to its file name, in order. |
| `WebhookController.PushItem` | SS14.MapServer/Controllers/GitHubWebhookController.cs:115-138 | A request exactly when the ref is `refs/heads/<branch>` and `CheckFiles` is non-empty. Its ref is the last segment of the pushed ref, with no repository override, and its maps are exactly `FileNames(CheckFiles(...))`: the changed map files' names. |
| `WebhookController.PullRequestItem` | SS14.MapServer/Controllers/GitHubWebhookController.cs:79-113 | A request exactly when pull requests are enabled, the action is `synchronize` or `opened`, and `CheckFiles` is non-empty. Its ref is `pull/<n>/head:<last segment of head ref>`, it carries the head clone URL, and its maps are exactly `FileNames(CheckFiles(...))`. |
| `WebhookController.PushRefOfBranch` | SS14.MapServer/Controllers/GitHubWebhookController.cs:136 | A push to a branch without '/' builds exactly that branch. |
| `WebhookController.PushRefOfNestedBranch` | SS14.MapServer/Controllers/GitHubWebhookController.cs:136 | A branch named `release/v2` is built under its last segment `v2` only. |
| `WebhookController.PullRequestRefsDistinct` | SS14.MapServer/Controllers/GitHubWebhookController.cs:103-106 | Pull requests with different numbers get different refs. |
| `WebhookController.PullRequestCommentStore.SavePrComment` | SS14.MapServer/Controllers/GitHubWebhookController.cs:255-269 | Nothing is saved without a comment id. A duplicate key fails and changes nothing. Otherwise exactly one record is added and the others are kept. |
| `WebhookController.PullRequestCommentStore.CreateInitialPrComment` | SS14.MapServer/Controllers/GitHubWebhookController.cs:172-195 | A comment is posted exactly when no record exists for (owner, repo, number). The returned id is recorded when it has a value. |
| `WebhookController.HandlePushEvent` | SS14.MapServer/Controllers/GitHubWebhookController.cs:115-138 | Offers exactly `PushItem` to the queue. Nothing is queued without an item or when the queue is full. |
| `WebhookController.HandlePullRequestEvent` | SS14.MapServer/Controllers/GitHubWebhookController.cs:79-113 | Offers exactly `PullRequestItem`. The initial comment is made only when there is an item and no record yet, and the queue and comment store change accordingly. |
| `WebhookController.Post` | SS14.MapServer/Controllers/GitHubWebhookController.cs:54-77 | 404 exactly when building is disabled. An event is handled exactly when the event header is present and the signature verifies. "push" and "pull_request" reach their handlers. The secret error is the answer exactly when building is enabled, the event header is present and the secret is unset or empty. |
| `WebhookController.MissingEventHeaderUnauthorized` | SS14.MapServer/Controllers/GitHubWebhookController.cs:60-61 | With no event header the answer is 401, even when the secret is unset. |
| `MapController.FirstUnknownImage` | SS14.MapServer/Controllers/MapController.cs:226-236 | None exactly when every image names a grid id. Otherwise it returns the name of the first image that does not. |
| `MapController.ValidationError` | SS14.MapServer/Controllers/MapController.cs:218-239 | No error exactly when the counts match and every image names a grid. A count mismatch is reported as such. |
| `MapController.ValidateMapRequest` | SS14.MapServer/Controllers/MapController.cs:213-240 | Lower-cases `MapId` in place and changes nothing else. It rejects exactly when there is an error, and the error is `ValidationError`'s. |
| `MapController.PutMapCheck` | SS14.MapServer/Controllers/MapController.cs:117-121 | `IdMismatch` exactly when the path id differs from the body's id. It accepts exactly when the ids match and the request validates. |
| `MapController.PutMapChecks` | SS14.MapServer/Controllers/MapController.cs:115-121 | The id comparison happens before lower-casing. The id is lower-cased only when the ids match. |
| `MapController.PutMapIdCaseSensitive` | SS14.MapServer/Controllers/MapController.cs:117 | "box" against "Box" is refused. |
| `MapController.GridUrl` | SS14.MapServer/Controllers/MapController.cs:297-298 | A non-tiled URL is unchanged, and a missing URL stays missing. |
| `MapController.SetMapGridUrls` | SS14.MapServer/Controllers/MapController.cs:285-299 | Every grid gets its action URL, rewritten for tiled grids. No other grid field changes. |
| `MapController.TiledGridUrl` | SS14.MapServer/Controllers/MapController.cs:289-298 | On the grid image link `.../api/Image/grid/<guid>/<id>`, the tiled rewrite gives `.../api/Tile/<guid>/<id>`. |
| `MapUpdate.RendererArguments` | SS14.MapServer/MapProcessing/Services/MapUpdateService.cs:52-57 | The options string, then the map names in their given order. |
| `MapUpdate.RendererCommandLayout` | SS14.MapServer/MapProcessing/Services/MapUpdateService.cs:46-50 | The command joins `RelativeOutputPath`, `MapRendererProjectName` and `MapRendererCommand` with '/'. |
| `MapUpdate.DefaultRendererCommand` | SS14.MapServer/Configuration/BuildConfiguration.cs:9-11 | The defaults give `bin/Content.MapRenderer/Content.MapRenderer.exe`. |
| `MapUpdate.UpdateMapsFromGit` | SS14.MapServer/MapProcessing/Services/MapUpdateService.cs:42-68 | Sync comes first. Build-and-run follows only after a successful sync with a known runner, in the synced directory, with the command and arguments above. Import follows only after a successful run, from the path the runner returned. An unknown runner fails right after sync. Each success leads on to the next call: a successful sync with a known runner is followed by build-and-run, and a successful run by import. A failed sync, build or import ends the run with `SyncFailed`, `BuildFailed` or `ImportFailed` carrying that call's message. The result is the requested ref with the imported ids. |
| `TileJobs.WithoutGridTiles` | SS14.MapServer/Jobs/ProcessTiledImage.cs:49-50 | Exactly the rows of other map/grid pairs survive. |
| `TileJobs.ReplaceGridTiles` | SS14.MapServer/Jobs/ProcessTiledImage.cs:49-53 | The grid's rows become exactly the new tiles. Rows of every other map/grid pair are unchanged. |
| `TileJobs.ReplaceKeepsKeysUnique` | SS14.MapServer/Jobs/ProcessTiledImage.cs:49-53 | With distinct new keys, the replacement keeps the tile primary key unique. |
| `TileJobs.DeleteFile` | SS14.MapServer/Jobs/ProcessTiledImage.cs:37-47 | A failed deletion changes nothing. Otherwise exactly that path goes. |
| `TileJobs.FilesAfterTiling` | SS14.MapServer/Jobs/ProcessTiledImage.cs:29-47 | The tile files are added. The source is gone exactly when `removeSource` is set and its deletion does not fail. |
| `TileJobs.Execute` | SS14.MapServer/Jobs/ProcessTiledImage.cs:22-54 | Missing or mistyped options, or a failed tiling, give an error and leave the tiles and files unchanged. On success the grid's rows are replaced by the new tiles and files follow `FilesAfterTiling`. Grids and maps are untouched and the primary key stays unique. |
| `TileJobs.StoreTiles` | SS14.MapServer/Jobs/ProcessTiledImage.cs:37-53 | Writes the files, removes the source if asked, and replaces the rows. |
| `TileJobs.SixtyTiles` | SS14.MapServer.Tests/ImageProcessingServiceTests.cs:36-40 | A 3072 x 5120 image at T = 512 gives 60 tiles. |
| `TileJobs.DeleteDirectory` | SS14.MapServer/Services/MapService.cs:53-63 | Every file beneath the directory that can be deleted goes, even after another one failed. A file that cannot be deleted stays. The directory itself goes exactly when it can be removed and nothing beneath it failed. Files outside it are untouched. |
| `TileJobs.PartialDirectoryDeletion` | SS14.MapServer/Services/MapService.cs:53-63 | A worked example: in `t` with files `t/a` and `t/b`, where only `t/b` cannot be deleted, `t/a` goes and `t/b` stays. |
| `TileJobs.RemoveTiledRowsExactly` | SS14.MapServer/Services/MapService.cs:18-35 | Exactly the rows with this map's guid and the id of one of its tiled grids are removed. |
| `TileJobs.DeleteAllGridFilesRemoves` | SS14.MapServer/Services/MapService.cs:18-31 | Without failing deletions, no grid image and nothing under a tiled grid's folder survives. |
| `TileJobs.DeleteAllGridFilesKeeps` | SS14.MapServer/Services/MapService.cs:41-63 | Every other file is kept, whatever the deletion failures. |
| `TileJobs.DeleteMap` | SS14.MapServer/Services/MapService.cs:16-39 | The tile rows and files follow the specifications above. Every grid of the map and then the map itself are removed. The key stays unique. |
| `TileJobs.OtherMapsKeepTiles` | SS14.MapServer/Services/MapService.cs:25 | Tile rows of other maps are untouched. |
| `FileUpload.ValidateImageFile` | SS14.MapServer/Services/FileUploadService.cs:69-86 | No message exactly when the extension has a mime type in the allowed list. Unknown extension and disallowed type are reported as such. |
| `FileUpload.UploadTargetName` | SS14.MapServer/Services/FileUploadService.cs:29-30 | Without a given path, the stored file is named `upload_<guid><ext>`. |
| `FileUpload.UploadImage` | SS14.MapServer/Services/FileUploadService.cs:24-35 | Error exactly when the file is invalid, and then `InternalPath` is unchanged. Otherwise it uses the given path or `ImagesPath/upload_<guid><ext>`, and `InternalPath` is set to it. |
| `FileUpload.MapFolderLayout` | SS14.MapServer/Services/FileUploadService.cs:39 | The map folder is `GridImagesPath/gitRef/mapId`. |
| `FileUpload.TilesFolderLayout` | SS14.MapServer/Services/FileUploadService.cs:107 | A tiled grid's folder is `mapPath/tiles/<gridId>`, and its name parses back to the grid id. |
| `FileUpload.GridImageNameRoundTrip` | SS14.MapServer/Services/FileUploadService.cs:93-94 | A non-tiled grid's file `mapPath/<gridId><ext>` reads back as that grid id, with the upload's extension. |
| `FileUpload.IndexOfGrid` | SS14.MapServer/Services/FileUploadService.cs:43-51 | Finds a grid with that id, and None exactly when there is none. |
| `FileUpload.ImageStep` | SS14.MapServer/Services/FileUploadService.cs:47-65 | Unparsable name gives `GridIdNotParsed`, an unknown id gives `GridNotInMap`, and then validation. For a parsed id of a grid of the map, the step succeeds exactly when the file validates, and a failed validation reports `ValidateImageFile`'s error. A success gives the grid's new path: `<mapPath>/<id><ext>`, or the tile folder for a tiled grid, which also gets a tiling job that removes its temporary source. |
| `FileUpload.GridImagesUpload` | SS14.MapServer/Services/FileUploadService.cs:37-67 | Duplicate grid ids fail before any grid path changes and before any tiling job is scheduled. |
| `FileUpload.NoErrorAllOk` | SS14.MapServer/Services/FileUploadService.cs:45-66 | A loop that ends without an error handled every image successfully. |
| `FileUpload.LastTurnSetsPath` | SS14.MapServer/Services/FileUploadService.cs:45-66 | A grid's final path is the path from the last successful turn that names it, even if a later turn fails. |
| `FileUpload.ReachedJobScheduled` | SS14.MapServer/Services/FileUploadService.cs:45-66 | The tiling job of every successful turn the loop reaches is among the scheduled jobs. |
| `FileUpload.UploadedGridPath` | SS14.MapServer/Services/FileUploadService.cs:45-66 | After an upload without error, every image named a grid of the map, and that grid's `Path` comes from the last image naming it: the tile folder when tiled, otherwise `<mapPath>/<id><ext>`. |
| `FileUpload.TiledImageScheduled` | SS14.MapServer/Services/FileUploadService.cs:59-61 | A valid image for a tiled grid, reached after all earlier images succeeded, schedules its tiling job. |
| `FileUpload.UnnamedGridKeepsPath` | SS14.MapServer/Services/FileUploadService.cs:45-66 | Only grids named by an uploaded image have their `Path` changed. |
| `FileUpload.JobsTargetGridPaths` | SS14.MapServer/Services/FileUploadService.cs:101-123 | Every scheduled job is for a tiled grid of this map, targets its tile folder with its tile size, and removes its source. |
| `FileUpload.UploadGridImages` | SS14.MapServer/Services/FileUploadService.cs:37-67 | The grids' paths, the scheduled jobs and the error equal `GridImagesUpload`'s outcome. Grid ids, tiling, tile sizes and links are unchanged. |
| `FileUpload.HandleImages` | SS14.MapServer/Services/FileUploadService.cs:45-66 | The loop applies each image's step in order and stops at the first error. Grid ids, tiling, tile sizes and links are unchanged. |
| `FileUpload.SetGridPath` | SS14.MapServer/Services/FileUploadService.cs:65 | Assigning through the dictionary changes only that grid's path. Its id, tiling, tile size and link are unchanged. |

## Left out

- `ProcessDirectoryPool.WaitAvailable` is left out. It uses an event subscription, a `TaskCompletionSource` and cancellation, which is concurrency. It completes only when some `Return` fires the event.
- The hosted queue consumer, the fire-and-forget pipeline tasks and Sentry reporting are left out, because they are concurrency and error reporting.
- `Queue.ProcessQueue.Dequeue` covers only the step once an item is queued. Waiting on an empty queue and its cancellation are not modelled.
- Git, the local and container build runners, the renderer process, their timeouts and log scanning are left out. So is the JSON/file-system map import. These are external processes and I/O, abstracted as collaborator functions.
- Image decoding, cropping, saving, previews, and I/O failures during tiling are left out. Only the guard errors are modelled.
- HMAC-SHA256 is left out. It is a function parameter.
- Reading the request body and JSON deserialisation of the webhook payloads are left out.
- The MimeTypes table, glob matching, `Url.Action`, the GitHub API and `Guid.NewGuid` are parameters, because they are library or network calls.
- `SetMapGridUrls` also sorts the grids by their floating-point `Extent`. That sort is not modelled, because floating-point geometry is out of scope.
- `OnPrProcessingResult` is left out, because it needs the GitHub API and the float sort. So are the other CRUD endpoints (`PostMap`, `GetMap`, the `DeleteMap` endpoints), which are plain database plumbing.
- `FileUpload.UploadGridImages` schedules each tiling job under the fixed name `ProcessTiledImage-<mapGuid>-<gridId>`. A name that is still in the scheduler's store (two images for one tiled grid in a single upload, or a re-upload while an earlier job runs) makes the scheduler throw. The scheduler is not modelled, so the model schedules every such job and reports no error.
- `UploadGridImages` also creates and clears the map folder on disk, and it copies file bytes. Neither is modelled.
- `DirectoryPool.ProcessDirectoryPool.Get` requires the Guid-named directory to be new, since a random Guid is assumed not to repeat.
- `DirectoryPool.ProcessDirectoryPool.Get` hands out the most recently returned idle directory. `DefaultObjectPool` hands out its fast slot first and then the oldest retained item. That order is not modelled; only the counters and which directories are idle or lent are.
- `DirectoryPool.ProcessDirectoryPool.Return` reads one `existsOnDisk` for both `Directory.Exists` checks: the counter update and the inner pool's return policy. A directory deleted between the two reads raises `Available` but is not kept. That race is not modelled.
- `DirectoryPool.NewPool` takes `maxPoolSize` as a `nat`. The object pool's behaviour for a negative size is not modelled.
- `MapController.ValidateMapRequest` lower-cases ASCII letters only. .NET's culture-aware `ToLower` of other letters is not modelled.
- `WebhookHelper.VerifyWebhook` compares the `sha256=` prefix with ASCII case folding only. Ordinal case-insensitive comparison of non-ASCII letters is not modelled.
- `WebhookController.PushItem` and `WebhookController.PullRequestItem` keep the changed map files in the order of the changed-file list. The glob matcher returns a folder's own files before those of its subfolders. That folder-grouped order, which reaches the renderer's arguments, is not modelled.
- Paths use '/' as the only directory separator, as on Linux.
- Database failures on `SaveChanges` are not modelled, other than a duplicate pull-request comment key.
