/**
 * The command-line entry point of the datamap script (`main`): the checks
 * that reject an inconsistent choice of `--create`, `--upload` and
 * `--output`, the choice of the upload bucket, and how the outcome of the
 * generation becomes an exit code and the final log line.
 *
 * The file system, the settings, the bucket check and the generation itself
 * are inputs: `isDir` answers `os.path.isdir`, `bucketWorks` the write test
 * of `check_bucket`, and `generated` is how `generate` ended.
 */
module Cli {
  import opened Wrappers
  import Text

  /** The parsed command line, as far as `main` consults it. */
  datatype Args = Args(create: bool, upload: bool, output: Option<string>)

  /** How `main` ends: with an exit code, or by letting an exception escape. */
  datatype Exit = Code(code: int) | Raise(error: string)

  /** Where the tiles are generated: the `--output` directory or a temporary one. */
  datatype WorkDir = OutputDir(path: string) | TempDir

  /** How the call to `generate` ended. */
  datatype Generated = Finished | Interrupted | Raised(error: string)

  /** The words of the final log line and its `success` field. */
  datatype FinalLog = FinalLog(task: string, complete: string, success: bool)

  /**
   * One run of `main`: how it exits, where it generated (`None` when it
   * returned before generating), the bucket it chose (`None` when it
   * returned before choosing one, or none was found) and the final log line.
   */
  datatype Run = Run(exit: Exit, workDir: Option<WorkDir>, bucket: Option<string>, log: Option<FinalLog>)

  /** Python truthiness of an optional string: present and non-empty. */
  predicate Truthy(s: Option<string>) {
    s.Some? && s.value != ""
  }

  /** `os.path.abspath(output)` relative to the working directory `cwd`. */
  function AbsPath(cwd: string, output: string): string {
    Text.PathJoin(cwd, output)
  }

  /** The `tiles` folder of the `--output` directory. */
  function TilesDir(cwd: string, output: string): string {
    Text.PathJoin(AbsPath(cwd, output), "tiles")
  }

  /**
   * The `exit_early` flag: with `--output`, a run without `--create` needs
   * the tiles folder to exist already; without it, `--create` and
   * `--upload` must be given together.
   */
  function ExitEarly(args: Args, cwd: string, isDir: string -> bool): (r: int)
    ensures r == 0 || r == 1
  {
    if Truthy(args.output) then
      if !args.create && !isDir(TilesDir(cwd, args.output.value)) then 1 else 0
    else
      var early := if args.create && !args.upload then 1 else 0;
      if args.upload && !args.create then 1 else early
  }

  /**
   * The bucket name: the override when it is truthy, otherwise the
   * `asset_bucket` setting with surrounding slashes removed when the setting
   * is truthy, otherwise the setting as it is.
   */
  function BucketName(override: Option<string>, setting: Option<string>): (r: Option<string>)
    ensures Truthy(override) ==> r == override
    ensures !Truthy(override) && !Truthy(setting) ==> r == setting
    ensures !Truthy(override) && Truthy(setting) ==> r == Some(Text.Strip(setting.value, '/'))
    ensures !Truthy(override) && Truthy(setting) ==>
      r.Some? && (r.value != "" ==> r.value[0] != '/' && r.value[|r.value| - 1] != '/')
  {
    if Truthy(override) then override
    else if Truthy(setting) then Some(Text.Strip(setting.value, '/'))
    else setting
  }

  /** The task word of the final log line. */
  function Task(create: bool, upload: bool): string {
    if create && upload then "generation and upload"
    else if create then "generation"
    else "upload"
  }

  /** The completion word of the final log line. */
  function Complete(generated: Generated): string {
    match generated
    case Interrupted => "interrupted"
    case Finished => "complete"
    case Raised(_) => "failed"
  }

  /**
   * `main` after argument parsing: validate, choose the bucket, check it
   * when uploading, then generate and log. An interrupted generation still
   * exits with 0; any other exception escapes after the log line.
   */
  function Main(args: Args, cwd: string, isDir: string -> bool, override: Option<string>,
                setting: Option<string>, bucketWorks: string -> bool, generated: Generated): (r: Run)
    ensures r.workDir.Some? <==>
      !Rejected(args, cwd, isDir) && (args.create || args.upload)
      && (args.upload ==> BucketUsable(BucketName(override, setting), bucketWorks))
    ensures r.exit.Code? ==> r.exit.code == 0 || r.exit.code == 1
    ensures r.exit == Code(1) <==>
      Rejected(args, cwd, isDir) || (args.upload && !BucketUsable(BucketName(override, setting), bucketWorks))
    ensures r.exit.Raise? <==> r.workDir.Some? && generated.Raised?
  {
    var early := ExitEarly(args, cwd, isDir);
    if early != 0 || !(args.create || args.upload) then Run(Code(early), None, None, None)
    else
      var bucket := BucketName(override, setting);
      if args.upload && !Truthy(bucket) then Run(Code(1), None, bucket, None)
      else if args.upload && !bucketWorks(bucket.value) then Run(Code(1), None, bucket, None)
      else
        var dir := if Truthy(args.output) then OutputDir(AbsPath(cwd, args.output.value)) else TempDir;
        var log := FinalLog(Task(args.create, args.upload), Complete(generated), generated.Finished?);
        var exit := if generated.Raised? then Raise(generated.error) else Code(0);
        Run(exit, Some(dir), bucket, Some(log))
  }

  // ---------------------------------------------------------------------
  // The validation table

  /** The runs `main` rejects before doing anything. */
  predicate Rejected(args: Args, cwd: string, isDir: string -> bool) {
    if Truthy(args.output) then !args.create && !isDir(TilesDir(cwd, args.output.value))
    else args.create != args.upload
  }

  /**
   * `exit_early` is set exactly for the rejected combinations: with
   * `--output`, no `--create` and no tiles folder; without `--output`,
   * exactly one of `--create` and `--upload`.
   */
  lemma ExitEarlyTable(args: Args, cwd: string, isDir: string -> bool)
    ensures ExitEarly(args, cwd, isDir) == 1 <==> Rejected(args, cwd, isDir)
    ensures ExitEarly(args, cwd, isDir) == 0 <==> !Rejected(args, cwd, isDir)
  {
    if !Truthy(args.output) {
      assert args.create != args.upload <==> (args.create && !args.upload) || (args.upload && !args.create);
    }
  }

  /**
   * A rejected run exits with 1, and a run that asks for neither creation
   * nor upload exits with 0 unless it is rejected; neither generates nor
   * chooses a bucket.
   */
  lemma EarlyExits(args: Args, cwd: string, isDir: string -> bool, override: Option<string>,
                   setting: Option<string>, bucketWorks: string -> bool, generated: Generated)
    requires Rejected(args, cwd, isDir) || (!args.create && !args.upload)
    ensures var run := Main(args, cwd, isDir, override, setting, bucketWorks, generated);
      run.exit == Code(if Rejected(args, cwd, isDir) then 1 else 0)
      && run.workDir == None && run.bucket == None && run.log == None
  {
    ExitEarlyTable(args, cwd, isDir);
  }

  /** Without `--output`, an upload-only or a create-only run is rejected with 1. */
  lemma OutputRequired(args: Args, cwd: string, isDir: string -> bool, override: Option<string>,
                       setting: Option<string>, bucketWorks: string -> bool, generated: Generated)
    requires !Truthy(args.output) && args.create != args.upload
    ensures Main(args, cwd, isDir, override, setting, bucketWorks, generated).exit == Code(1)
    ensures Main(args, cwd, isDir, override, setting, bucketWorks, generated).workDir == None
  {
    EarlyExits(args, cwd, isDir, override, setting, bucketWorks, generated);
  }

  /** With `--output` and without `--create`, a missing tiles folder is rejected with 1. */
  lemma TilesFolderRequired(args: Args, cwd: string, isDir: string -> bool, override: Option<string>,
                            setting: Option<string>, bucketWorks: string -> bool, generated: Generated)
    requires Truthy(args.output) && !args.create && !isDir(TilesDir(cwd, args.output.value))
    ensures Main(args, cwd, isDir, override, setting, bucketWorks, generated).exit == Code(1)
    ensures Main(args, cwd, isDir, override, setting, bucketWorks, generated).workDir == None
  {
    EarlyExits(args, cwd, isDir, override, setting, bucketWorks, generated);
  }

  // ---------------------------------------------------------------------
  // Bucket and generation

  /** The bucket is usable: present, non-empty, and passing the write test. */
  predicate BucketUsable(bucket: Option<string>, bucketWorks: string -> bool) {
    Truthy(bucket) && bucketWorks(bucket.value)
  }

  /**
   * A chosen bucket is the override when that is truthy; otherwise it is
   * the setting, and a truthy setting loses every leading and trailing
   * slash.
   */
  lemma BucketChoice(override: Option<string>, setting: Option<string>)
    ensures Truthy(override) ==> BucketName(override, setting) == override
    ensures !Truthy(override) && !Truthy(setting) ==> BucketName(override, setting) == setting
    ensures !Truthy(override) && Truthy(setting) ==> BucketName(override, setting) == Some(Text.Strip(setting.value, '/'))
    ensures !Truthy(override) && Truthy(setting) ==>
      var b := BucketName(override, setting).value;
      b != "" ==> b[0] != '/' && b[|b| - 1] != '/'
  {
    if !Truthy(override) && Truthy(setting) {
      var b := BucketName(override, setting).value;
      var l := Text.TrimLeft(setting.value, '/');
      assert b == Text.TrimRight(l, '/');
      if b != "" {
        assert b[0] == l[0];
      }
    }
  }

  /**
   * `main` generates exactly when the run is not rejected, asks for
   * creation or upload, and, when uploading, has a usable bucket; it then
   * works in the `--output` directory when one is given and in a temporary
   * directory otherwise.
   */
  lemma GeneratesIff(args: Args, cwd: string, isDir: string -> bool, override: Option<string>,
                     setting: Option<string>, bucketWorks: string -> bool, generated: Generated)
    ensures var run := Main(args, cwd, isDir, override, setting, bucketWorks, generated);
      run.workDir.Some? <==>
        !Rejected(args, cwd, isDir) && (args.create || args.upload)
        && (args.upload ==> BucketUsable(BucketName(override, setting), bucketWorks))
    ensures var run := Main(args, cwd, isDir, override, setting, bucketWorks, generated);
      run.workDir.Some? ==>
        run.workDir.value == (if Truthy(args.output) then OutputDir(AbsPath(cwd, args.output.value)) else TempDir)
        && run.bucket == BucketName(override, setting)
  {
    ExitEarlyTable(args, cwd, isDir);
  }

  /** An upload run that passes validation but has no usable bucket exits with 1 without generating. */
  lemma UploadNeedsBucket(args: Args, cwd: string, isDir: string -> bool, override: Option<string>,
                          setting: Option<string>, bucketWorks: string -> bool, generated: Generated)
    requires !Rejected(args, cwd, isDir) && args.upload
    requires !BucketUsable(BucketName(override, setting), bucketWorks)
    ensures Main(args, cwd, isDir, override, setting, bucketWorks, generated).exit == Code(1)
    ensures Main(args, cwd, isDir, override, setting, bucketWorks, generated).workDir == None
  {
    ExitEarlyTable(args, cwd, isDir);
  }

  /**
   * Once generation starts, `main` exits with 0 when it finishes or is
   * interrupted and re-raises any other exception; the log line names the
   * task by the two flags and the ending, and reports success only for a
   * finished generation.
   */
  lemma GenerationOutcome(args: Args, cwd: string, isDir: string -> bool, override: Option<string>,
                          setting: Option<string>, bucketWorks: string -> bool, generated: Generated)
    requires Main(args, cwd, isDir, override, setting, bucketWorks, generated).workDir.Some?
    ensures var run := Main(args, cwd, isDir, override, setting, bucketWorks, generated);
      (run.exit == Code(0) <==> !generated.Raised?)
      && (generated.Raised? ==> run.exit == Raise(generated.error))
      && run.log.Some? && run.log.value.success == generated.Finished?
      && (run.log.value.complete == "interrupted" <==> generated.Interrupted?)
      && (run.log.value.complete == "failed" <==> generated.Raised?)
      && (run.log.value.task == "generation and upload" <==> args.create && args.upload)
      && (run.log.value.task == "upload" <==> !args.create)
  {
  }

  /** `main` never exits with a code other than 0 or 1, and exits with 1 only before generating. */
  lemma ExitCodes(args: Args, cwd: string, isDir: string -> bool, override: Option<string>,
                  setting: Option<string>, bucketWorks: string -> bool, generated: Generated)
    ensures var run := Main(args, cwd, isDir, override, setting, bucketWorks, generated);
      (run.exit.Code? ==> run.exit.code == 0 || run.exit.code == 1)
      && (run.exit == Code(1) ==> run.workDir == None)
      && (run.exit.Raise? ==> run.workDir.Some? && generated.Raised?)
  {
  }
}
