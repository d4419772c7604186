/**
 * `MapUpdateService.UpdateMapsFromGit`
 * (SS14.MapServer/MapProcessing/Services/MapUpdateService.cs): sync the
 * repository, build and run the map renderer with the configured runner, then
 * import what it produced.
 *
 * Git, the two build runners and the map reader are collaborators whose
 * effects are not modelled: each is a parameter returning its result or the
 * message of the exception it throws. The model records which of them were
 * called, with which arguments, in which order.
 */
module MapUpdate {
  import opened Wrappers
  import Paths

  /** `BuildRunnerName`; `Undefined` stands for any other value the enum field can hold. */
  datatype BuildRunnerName = Local | Container | Undefined(value: int)

  /** The `Build` configuration section, as far as `UpdateMapsFromGit` reads it. */
  datatype BuildConfig = BuildConfig(
    runner: BuildRunnerName,
    relativeOutputPath: string,
    mapRendererProjectName: string,
    mapRendererCommand: string,
    mapRendererOptionsString: string)

  function DefaultBuildConfig(): BuildConfig {
    BuildConfig(Local, "bin", "Content.MapRenderer", "Content.MapRenderer.exe", "--format webp --viewer -f")
  }

  /** `Path.Join(RelativeOutputPath, MapRendererProjectName, MapRendererCommand)`. */
  function RendererCommand(config: BuildConfig): string {
    Paths.Join(Paths.Join(config.relativeOutputPath, config.mapRendererProjectName), config.mapRendererCommand)
  }

  /** The renderer's arguments: the options string, then the map names in the order given. */
  function RendererArguments(config: BuildConfig, maps: seq<string>): (args: seq<string>)
    ensures |args| == |maps| + 1 && args[0] == config.mapRendererOptionsString
    ensures forall i :: 0 <= i < |maps| ==> args[i + 1] == maps[i]
  {
    [config.mapRendererOptionsString] + maps
  }

  /** With the default configuration the renderer is `bin/Content.MapRenderer/Content.MapRenderer.exe`. */
  lemma DefaultRendererCommand()
    ensures RendererCommand(DefaultBuildConfig()) == "bin" + "/" + "Content.MapRenderer" + "/" + "Content.MapRenderer.exe"
  {
    var c := DefaultBuildConfig();
    assert Paths.NoSeparator(c.mapRendererProjectName) && Paths.NoSeparator(c.mapRendererCommand);
    RendererCommandLayout(c);
  }

  /**
   * With plain names the renderer is `<RelativeOutputPath>/<MapRendererProjectName>/<MapRendererCommand>`,
   * relative to the synced working directory.
   */
  lemma RendererCommandLayout(config: BuildConfig)
    requires |config.relativeOutputPath| > 0 && config.relativeOutputPath[|config.relativeOutputPath| - 1] != Paths.Separator
    requires |config.mapRendererProjectName| > 0 && Paths.NoSeparator(config.mapRendererProjectName)
    requires |config.mapRendererCommand| > 0 && Paths.NoSeparator(config.mapRendererCommand)
    ensures RendererCommand(config) ==
      config.relativeOutputPath + "/" + config.mapRendererProjectName + "/" + config.mapRendererCommand
  {
  }

  /** The collaborators: each returns its result, or the message of the exception it throws. */
  datatype Collaborators = Collaborators(
    sync: (string, string) -> Result<string, string>,
    localBuildAndRun: (string, string, seq<string>) -> Result<string, string>,
    containerBuildAndRun: (string, string, seq<string>) -> Result<string, string>,
    updateMapsFromFs: string -> Result<seq<string>, string>)

  /** One collaborator call. */
  datatype Call =
    | Sync(directory: string, gitRef: string)
    | BuildAndRun(runner: BuildRunnerName, workingDirectory: string, command: string, args: seq<string>)
    | Import(path: string)

  datatype PipelineError =
    | SyncFailed(message: string)
    | RunnerOutOfRange(runner: BuildRunnerName)  // ArgumentOutOfRangeException
    | BuildFailed(message: string)
    | ImportFailed(message: string)

  /** `MapProcessResult`: the requested ref and the ids of the imported maps. */
  datatype MapProcessResult = MapProcessResult(gitRef: string, mapIds: seq<string>)

  datatype Run = Run(result: Result<MapProcessResult, PipelineError>, calls: seq<Call>)

  /** What a call returned, as a success flag. */
  predicate Succeeded(c: Collaborators, call: Call) {
    match call
    case Sync(d, g) => c.sync(d, g).Ok?
    case BuildAndRun(runner, w, cmd, args) =>
      (match runner
       case Local => c.localBuildAndRun(w, cmd, args).Ok?
       case Container => c.containerBuildAndRun(w, cmd, args).Ok?
       case Undefined(_) => false)
    case Import(p) => c.updateMapsFromFs(p).Ok?
  }

  /** What a build-and-run call on a defined runner returned. */
  function BuildResult(c: Collaborators, call: Call): Result<string, string>
    requires call.BuildAndRun? && !call.runner.Undefined?
  {
    if call.runner.Local? then c.localBuildAndRun(call.workingDirectory, call.command, call.args)
    else c.containerBuildAndRun(call.workingDirectory, call.command, call.args)
  }

  /** The path a successful build-and-run call returned. */
  function RunnerOutput(c: Collaborators, call: Call): string
    requires call.BuildAndRun? && Succeeded(c, call)
  {
    BuildResult(c, call).value
  }

  /**
   * `UpdateMapsFromGit`: sync `gitRef` into `directory`; build and run the
   * renderer in the working directory the sync returned, on the configured
   * runner (any other runner value throws after the sync); import from the
   * path the runner returned; answer the requested ref with the imported ids.
   * The first failure ends the run.
   */
  function UpdateMapsFromGit(config: BuildConfig, c: Collaborators, directory: string, gitRef: string,
                             maps: seq<string>): (run: Run)
    ensures 1 <= |run.calls| <= 3 && run.calls[0] == Sync(directory, gitRef)
    ensures |run.calls| >= 2 ==>
      (&& c.sync(directory, gitRef).Ok? && !config.runner.Undefined?
       && run.calls[1] == BuildAndRun(config.runner, c.sync(directory, gitRef).value, RendererCommand(config), RendererArguments(config, maps)))
    ensures |run.calls| == 3 ==> Succeeded(c, run.calls[1]) && run.calls[2] == Import(RunnerOutput(c, run.calls[1]))
    ensures forall i :: 0 <= i < |run.calls| - 1 ==> Succeeded(c, run.calls[i])
    ensures run.result.Ok? <==> |run.calls| == 3 && Succeeded(c, run.calls[2])
    ensures run.result.Ok? ==> run.result.value == MapProcessResult(gitRef, c.updateMapsFromFs(run.calls[2].path).value)
    ensures config.runner.Undefined? && c.sync(directory, gitRef).Ok? ==>
      run == Run(Err(RunnerOutOfRange(config.runner)), [Sync(directory, gitRef)])
    // Each success leads on to the next call, and each failure is reported with its message.
    ensures c.sync(directory, gitRef).Err? ==>
      run == Run(Err(SyncFailed(c.sync(directory, gitRef).error)), [Sync(directory, gitRef)])
    ensures c.sync(directory, gitRef).Ok? && !config.runner.Undefined? ==> |run.calls| >= 2
    ensures |run.calls| >= 2 && Succeeded(c, run.calls[1]) ==> |run.calls| == 3
    ensures |run.calls| == 2 ==>
      BuildResult(c, run.calls[1]).Err? && run.result == Err(BuildFailed(BuildResult(c, run.calls[1]).error))
    ensures |run.calls| == 3 && !Succeeded(c, run.calls[2]) ==>
      run.result == Err(ImportFailed(c.updateMapsFromFs(run.calls[2].path).error))
  {
    match c.sync(directory, gitRef)
    case Err(e) => Run(Err(SyncFailed(e)), [Sync(directory, gitRef)])
    case Ok(workingDirectory) =>
      var command := RendererCommand(config);
      var args := RendererArguments(config, maps);
      var built :=
        match config.runner
        case Local => c.localBuildAndRun(workingDirectory, command, args)
        case Container => c.containerBuildAndRun(workingDirectory, command, args)
        case Undefined(_) => Err("");
      if config.runner.Undefined? then
        Run(Err(RunnerOutOfRange(config.runner)), [Sync(directory, gitRef)])
      else
        var buildCall := BuildAndRun(config.runner, workingDirectory, command, args);
        match built
        case Err(e) => Run(Err(BuildFailed(e)), [Sync(directory, gitRef), buildCall])
        case Ok(path) =>
          match c.updateMapsFromFs(path)
          case Err(e) => Run(Err(ImportFailed(e)), [Sync(directory, gitRef), buildCall, Import(path)])
          case Ok(mapIds) => Run(Ok(MapProcessResult(gitRef, mapIds)), [Sync(directory, gitRef), buildCall, Import(path)])
  }
}
