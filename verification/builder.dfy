/** `build_exe_from_apk` (app.py): wrap an APK and the runtime script into a
    one-file PyInstaller executable. The host (which paths exist, whether
    `pyinstaller` is on the PATH, the fresh work directory, how the child
    process ends) is an explicit parameter; what remains is the order of the
    checks and the names and arguments derived from the APK's name. */
module Builder {
  import opened Common
  import opened Paths
  import opened Host

  /** The host as `build_exe_from_apk` observes it. */
  datatype BuildEnv = BuildEnv(
    existing: set<Path>,          // paths that exist when the build starts
    pyinstaller: Option<string>,  // what shutil.which("pyinstaller") returns
    appDir: Path,                 // the directory holding app.py and apk_wrapper.py
    workDir: Path,                // the fresh directory tempfile.mkdtemp(prefix="apk_to_exe_") returns
    run: ProcessOutcome,          // how the PyInstaller process ends
    existingAfterRun: set<Path>)  // paths that exist once it has ended

  const MissingToolMessage: string :=
    "PyInstaller is not installed. Install it with 'pip install pyinstaller' and try again."
  const MissingOutputMessage: string := "PyInstaller finished, but the output EXE was not found."
  const WrapperScript: string := "apk_wrapper.py"

  /** Separator between source and destination in `--add-data`. */
  function DataSeparator(pl: Platform): char {
    if pl.Nt? then ';' else ':'
  }

  /** Suffix PyInstaller gives the executable it writes. */
  function ExeSuffix(pl: Platform): string {
    if pl.Nt? then ".exe" else ""
  }

  /** `f"{apk_path.stem}_installer"`: dropping the `_installer` ending and
      putting the final extension back gives the APK's name again. */
  function ExeName(apkName: string): (r: string)
    ensures |r| >= 10 && r[|r| - 10..] == "_installer"
    ensures r[..|r| - 10] + Suffix(apkName) == apkName
  {
    var stem := Stem(apkName);
    assert (stem + "_installer")[..|stem|] == stem;
    stem + "_installer"
  }

  /** `output_dir / (exe_name + suffix)`: where the executable must appear. */
  function ExpectedExe(pl: Platform, outputDir: Path, apkName: string): Path {
    Child(outputDir, ExeName(apkName) + ExeSuffix(pl))
  }

  /** The `--add-data` value `f"{apk_copy}{data_sep}."`: the copy's path,
      the platform's separator, and the bundle's root `.` as destination. */
  function AddDataArg(pl: Platform, apkCopy: Path): (r: string)
    ensures |r| >= 2 && r[|r| - 1] == '.'
    ensures r[|r| - 2] == (if pl.Nt? then ';' else ':')
    ensures r[..|r| - 2] == Str(apkCopy, pl)
  {
    var src := Str(apkCopy, pl);
    assert (src + [DataSeparator(pl)] + ".")[..|src|] == src;
    src + [DataSeparator(pl)] + "."
  }

  /** The argument list handed to `subprocess.run`: the tool found on the
      PATH, thirteen arguments, and last the runtime script's copy in the work
      directory (what it says is read back by `BuildCommandReadsBack`). */
  function BuildCommand(pl: Platform, tool: string, apkName: string, outputDir: Path, workDir: Path): (r: seq<string>)
    ensures |r| == 14 && r[0] == tool
    ensures r[13] == Str(Child(workDir, WrapperScript), pl)
  {
    [ tool,
      "--onefile",
      "--noconsole",
      "--name", ExeName(apkName),
      "--distpath", Str(outputDir, pl),
      "--workpath", Str(Child(workDir, "build"), pl),
      "--specpath", Str(workDir, pl),
      "--add-data", AddDataArg(pl, Child(workDir, apkName)),
      Str(Child(workDir, WrapperScript), pl) ]
  }

  /** The steps between the two checks and the start of PyInstaller, followed
      by that start: PyInstaller is started once, last, after the output and
      work directories exist and both copies have been made into the work
      directory. */
  function BuildSteps(outputDir: Path, appDir: Path, workDir: Path, apkPath: Path, command: seq<string>): (e: seq<Effect>)
    ensures |e| > 0 && e[|e| - 1] == Spawn(command)
    ensures forall i :: 0 <= i < |e| - 1 ==> !e[i].Spawn?
    ensures MakeDirs(outputDir) in e[..|e| - 1]
    ensures MakeTempDir(workDir) in e[..|e| - 1]
    ensures Copy(Child(appDir, WrapperScript), Child(workDir, WrapperScript)) in e[..|e| - 1]
    ensures Copy(apkPath, Child(workDir, Name(apkPath))) in e[..|e| - 1]
    ensures forall i, j :: 0 <= i < j < |e| && e[j] == MakeTempDir(workDir) ==> !e[i].Copy?
  {
    var prepared := [
      MakeDirs(outputDir),
      MakeTempDir(workDir),
      Copy(Child(appDir, WrapperScript), Child(workDir, WrapperScript)),
      Copy(apkPath, Child(workDir, Name(apkPath)))];
    assert (prepared + [Spawn(command)])[..4] == prepared;
    prepared + [Spawn(command)]
  }

  /** How the outcome of the PyInstaller process decides the result: a process
      that cannot start raises OSError, a non-zero exit raises
      CalledProcessError with the status and the command, and a zero exit
      succeeds exactly when the expected executable exists. */
  function Outcome(run: ProcessOutcome, command: seq<string>, exe: Path, existingAfterRun: set<Path>): (r: Result<Path, Error>)
    ensures r.Success? <==> run == Exited(0) && exe in existingAfterRun
    ensures r.Success? ==> r.value == exe
    ensures r == Failure(RuntimeError(MissingOutputMessage)) <==> run == Exited(0) && exe !in existingAfterRun
    ensures r.Failure? && r.error.CalledProcessError? <==> run.Exited? && run.code != 0
    ensures r.Failure? && r.error.CalledProcessError? ==> r.error == CalledProcessError(run.code, command)
    ensures r.Failure? && r.error.OSError? <==> run.LaunchFailed?
    ensures r.Failure? && r.error.OSError? ==> r.error == OSError(run.reason)
  {
    match run
    case LaunchFailed(reason) => Failure(OSError(reason))
    case Exited(code) =>
      if code != 0 then Failure(CalledProcessError(code, command))
      else if exe in existingAfterRun then Success(exe)
      else Failure(RuntimeError(MissingOutputMessage))
  }

  /** `build_exe_from_apk(apk_path, output_dir)`. Nothing is created, copied or
      started unless the APK exists and `pyinstaller` is found, in that order.
      Then PyInstaller is started exactly once, as the last step, after the
      output and work directories exist and the runtime script and the APK
      have been copied into the work directory; its outcome decides the
      result. The work directory is never removed. */
  function BuildExeFromApk(pl: Platform, apkPath: Path, outputDir: Path, env: BuildEnv): (r: Run<Path>)
    ensures apkPath !in env.existing ==>
      r.effects == [] && r.result == Failure(FileNotFoundError("File not found: " + Str(apkPath, pl)))
    ensures apkPath in env.existing && !Found(env.pyinstaller) ==>
      r.effects == [] && r.result == Failure(RuntimeError(MissingToolMessage))
    ensures |r.effects| > 0 <==> apkPath in env.existing && Found(env.pyinstaller)
    ensures |r.effects| > 0 ==>
      var last := |r.effects| - 1;
      var before := r.effects[..last];
      && r.effects[last] == Spawn(BuildCommand(pl, env.pyinstaller.value, Name(apkPath), outputDir, env.workDir))
      && (forall i :: 0 <= i < last ==> !r.effects[i].Spawn?)
      && MakeDirs(outputDir) in before
      && MakeTempDir(env.workDir) in before
      && Copy(Child(env.appDir, WrapperScript), Child(env.workDir, WrapperScript)) in before
      && Copy(apkPath, Child(env.workDir, Name(apkPath))) in before
    ensures forall i, j :: 0 <= i < j < |r.effects| && r.effects[j] == MakeTempDir(env.workDir) ==> !r.effects[i].Copy?
    ensures r.result.Success? <==>
      && apkPath in env.existing && Found(env.pyinstaller)
      && env.run == Exited(0) && ExpectedExe(pl, outputDir, Name(apkPath)) in env.existingAfterRun
    ensures r.result.Success? ==> r.result.value == ExpectedExe(pl, outputDir, Name(apkPath))
    ensures r.result == Failure(RuntimeError(MissingOutputMessage)) <==>
      && apkPath in env.existing && Found(env.pyinstaller)
      && env.run == Exited(0) && ExpectedExe(pl, outputDir, Name(apkPath)) !in env.existingAfterRun
    ensures (r.result.Failure? && r.result.error.CalledProcessError?) <==>
      apkPath in env.existing && Found(env.pyinstaller) && env.run.Exited? && env.run.code != 0
    ensures r.result.Failure? && r.result.error.CalledProcessError? ==>
      r.result.error == CalledProcessError(env.run.code,
        BuildCommand(pl, env.pyinstaller.value, Name(apkPath), outputDir, env.workDir))
    ensures (r.result.Failure? && r.result.error.OSError?) <==>
      apkPath in env.existing && Found(env.pyinstaller) && env.run.LaunchFailed?
    ensures r.result.Failure? && r.result.error.OSError? ==> r.result.error == OSError(env.run.reason)
  {
    if apkPath !in env.existing then
      Run([], Failure(FileNotFoundError("File not found: " + Str(apkPath, pl))))
    else if !Found(env.pyinstaller) then
      Run([], Failure(RuntimeError(MissingToolMessage)))
    else
      var command := BuildCommand(pl, env.pyinstaller.value, Name(apkPath), outputDir, env.workDir);
      assert MissingToolMessage != MissingOutputMessage by {
        assert |MissingToolMessage| != |MissingOutputMessage|;
      }
      var exe := ExpectedExe(pl, outputDir, Name(apkPath));
      Run(BuildSteps(outputDir, env.appDir, env.workDir, apkPath, command),
          Outcome(env.run, command, exe, env.existingAfterRun))
  }

  /** The executable lands in the output directory and is named
      `<stem>_installer`, plus `.exe` on Windows, where the stem is the APK's
      name without its final extension only. */
  lemma ExecutableNaming(pl: Platform, outputDir: Path, apkName: string)
    ensures Parent(ExpectedExe(pl, outputDir, apkName)) == outputDir
    ensures pl.Posix? ==> Name(ExpectedExe(pl, outputDir, apkName)) == Stem(apkName) + "_installer"
    ensures pl.Nt? ==> Name(ExpectedExe(pl, outputDir, apkName)) == Stem(apkName) + "_installer.exe"
  {
    var stem := Stem(apkName);
    var x := ExeName(apkName) + ExeSuffix(pl);
    assert ExeName(apkName) == stem + "_installer";
    assert x != "";
  }

  /** On Windows pathlib reads the executable's name back with suffix `.exe`
      and stem `<stem>_installer`. */
  lemma WindowsExecutableReadsBack(apkName: string)
    ensures Suffix(ExeName(apkName) + ExeSuffix(Nt)) == ".exe"
    ensures Stem(ExeName(apkName) + ExeSuffix(Nt)) == ExeName(apkName)
  {
    SuffixOfAppendedExtension(ExeName(apkName), ".exe");
  }

  /** A simplified option/value reading of an argument list: flag options,
      options that take the next argument as their value whatever it looks
      like (PyInstaller itself refuses a value that starts with `-`), and
      script paths. */
  datatype PyInstallerRequest = PyInstallerRequest(
    onefile: bool,
    noconsole: bool,
    name: Option<string>,
    distpath: Option<string>,
    workpath: Option<string>,
    specpath: Option<string>,
    addData: seq<string>,
    scripts: seq<string>)

  const NoOptions: PyInstallerRequest := PyInstallerRequest(false, false, None, None, None, None, [], [])

  /** The options whose value is the following argument. */
  predicate TakesValue(option: string) {
    option == "--name" || option == "--distpath" || option == "--workpath" || option == "--specpath" || option == "--add-data"
  }

  /** Reads `args` (the command without the program) into a request; `None`
      when an option that needs a value comes last. */
  function ReadArgs(args: seq<string>, acc: PyInstallerRequest): Option<PyInstallerRequest>
    decreases |args|
  {
    if |args| == 0 then Some(acc)
    else if args[0] == "--onefile" then ReadArgs(args[1..], acc.(onefile := true))
    else if args[0] == "--noconsole" then ReadArgs(args[1..], acc.(noconsole := true))
    else if TakesValue(args[0]) then
      if |args| < 2 then None
      else
        var v := args[1];
        var next :=
          if args[0] == "--name" then acc.(name := Some(v))
          else if args[0] == "--distpath" then acc.(distpath := Some(v))
          else if args[0] == "--workpath" then acc.(workpath := Some(v))
          else if args[0] == "--specpath" then acc.(specpath := Some(v))
          else acc.(addData := acc.addData + [v]);
        ReadArgs(args[2..], next)
    else ReadArgs(args[1..], acc.(scripts := acc.scripts + [args[0]]))
  }

  /** The option part of the build command reads back field by field, whatever
      the option values are, provided the script is not itself an option. */
  lemma ReadOptionList(name: string, dist: string, work: string, spec: string, data: string, script: string)
    requires script != "--onefile" && script != "--noconsole" && !TakesValue(script)
    ensures ReadArgs(["--onefile", "--noconsole", "--name", name, "--distpath", dist, "--workpath", work,
                      "--specpath", spec, "--add-data", data, script], NoOptions)
         == Some(PyInstallerRequest(true, true, Some(name), Some(dist), Some(work), Some(spec), [data], [script]))
  {
    var a := ["--onefile", "--noconsole", "--name", name, "--distpath", dist, "--workpath", work,
              "--specpath", spec, "--add-data", data, script];
    var r1 := NoOptions.(onefile := true);
    var r2 := r1.(noconsole := true);
    var r3 := r2.(name := Some(name));
    var r4 := r3.(distpath := Some(dist));
    var r5 := r4.(workpath := Some(work));
    var r6 := r5.(specpath := Some(spec));
    var r7 := r6.(addData := [data]);
    var r8 := r7.(scripts := [script]);
    assert ReadArgs([script], r7) == Some(r8) by {
      assert [script][1..] == [];
      assert r7.scripts + [script] == [script];
    }
    assert ReadArgs(a[10..], r6) == ReadArgs([script], r7) by {
      assert a[10..] == ["--add-data", data, script];
      assert a[10..][2..] == [script];
      assert r6.addData + [data] == [data];
    }
    assert ReadArgs(a[8..], r5) == ReadArgs(a[10..], r6) by {
      assert a[8..][2..] == a[10..];
    }
    assert ReadArgs(a[6..], r4) == ReadArgs(a[8..], r5) by {
      assert a[6..][2..] == a[8..];
    }
    assert ReadArgs(a[4..], r3) == ReadArgs(a[6..], r4) by {
      assert a[4..][2..] == a[6..];
    }
    assert ReadArgs(a[2..], r2) == ReadArgs(a[4..], r3) by {
      assert a[2..][2..] == a[4..];
    }
    assert ReadArgs(a[1..], r1) == ReadArgs(a[2..], r2) by {
      assert a[1..][1..] == a[2..];
    }
  }

  /** The command has 14 elements: the resolved tool, then arguments that read
      back as a one-file, windowless build named `<stem>_installer`, writing to
      the output directory, with build and spec scratch space in the work
      directory, one data mapping `<apk copy><sep>.` (`;` on Windows, `:`
      elsewhere), and the copied runtime script as the only script. */
  lemma BuildCommandReadsBack(pl: Platform, tool: string, apkName: string, outputDir: Path, workDir: Path)
    ensures var command := BuildCommand(pl, tool, apkName, outputDir, workDir);
      && |command| == 14
      && command[0] == tool
      && ReadArgs(command[1..], NoOptions) == Some(PyInstallerRequest(
           true,
           true,
           Some(Stem(apkName) + "_installer"),
           Some(Str(outputDir, pl)),
           Some(Str(Child(workDir, "build"), pl)),
           Some(Str(workDir, pl)),
           [Str(Child(workDir, apkName), pl) + [DataSeparator(pl)] + "."],
           [Str(Child(workDir, WrapperScript), pl)]))
  {
    var script := Str(Child(workDir, WrapperScript), pl);
    assert ExeName(apkName) == Stem(apkName) + "_installer";
    assert AddDataArg(pl, Child(workDir, apkName)) == Str(Child(workDir, apkName), pl) + [DataSeparator(pl)] + ".";
    StrChildEndsWith(workDir, WrapperScript, pl);
    assert |script| >= 14;
    ReadOptionList(ExeName(apkName), Str(outputDir, pl), Str(Child(workDir, "build"), pl), Str(workDir, pl),
                   AddDataArg(pl, Child(workDir, apkName)), script);
    var command := BuildCommand(pl, tool, apkName, outputDir, workDir);
    assert command[1..] == ["--onefile", "--noconsole", "--name", ExeName(apkName), "--distpath", Str(outputDir, pl),
                            "--workpath", Str(Child(workDir, "build"), pl), "--specpath", Str(workDir, pl),
                            "--add-data", AddDataArg(pl, Child(workDir, apkName)), script];
  }

  /** Scenario: `<stem>.apk` built into the relative directory `<dir>` gives
      `<dir>\\<stem>_installer.exe` on Windows and `<dir>/<stem>_installer`
      elsewhere (so `app.apk` into `dist` gives `dist\\app_installer.exe` or
      `dist/app_installer`). */
  lemma InstallerPathRendering(pl: Platform, dir: string, stem: string)
    requires stem != ""
    ensures Str(ExpectedExe(pl, Path("", [dir]), stem + ".apk"), pl)
         == dir + [Separator(pl)] + stem + "_installer" + ExeSuffix(pl)
  {
    SuffixOfAppendedExtension(stem, ".apk");
    var x := stem + "_installer" + ExeSuffix(pl);
    var p := ExpectedExe(pl, Path("", [dir]), stem + ".apk");
    assert p == Path("", [dir, x]);
    assert p.parts[..1] == [dir];
    assert Join(p.parts, Separator(pl)) == dir + [Separator(pl)] + x;
    assert Str(p, pl) == dir + [Separator(pl)] + x;
  }

  /** Scenario: only the final extension goes, so `my game.v2.apk` gives
      `my game.v2_installer`. */
  lemma ScenarioDottedStem()
    ensures ExeName("my game.v2.apk") == "my game.v2_installer"
  {
    SuffixOfAppendedExtension("my game.v2", ".apk");
    assert "my game.v2" + ".apk" == "my game.v2.apk";
  }
}
