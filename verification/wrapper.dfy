/** The runtime baked into the built executable (apk_wrapper.py): find the
    bundled APK, copy it to a fresh temporary directory, and offer to install
    it with adb. The host (existing paths, the directory listing, the fresh
    directory, whether the copy fails, adb's location, the user's answer and
    how adb ends) is an explicit parameter. */
module Wrapper {
  import opened Common
  import opened Text
  import opened Paths
  import opened Host

  /** The host as `extract_apk` and `main` observe it. */
  datatype RuntimeEnv = RuntimeEnv(
    platform: Platform,
    script: Path,                // __file__ of the runtime script inside the bundle
    existing: set<Path>,         // paths that exist
    listing: seq<string>,        // names in the script's directory, in the order glob visits them
    tempDir: Path,               // the fresh directory tempfile.mkdtemp(prefix="apk_bundle_") returns
    tempError: Option<string>,   // Some(message) when tempfile.mkdtemp raises an OSError
    copyError: Option<string>,   // Some(message) when shutil.copy raises an OSError
    adb: Option<string>,         // what shutil.which("adb") returns
    answer: string,              // the line input() reads
    install: ProcessOutcome)     // how `adb install` ends

  const NotFoundMessage: string := "Bundled APK not found."
  const InstallQuestion: string := "Install APK via adb now? (y/N): "

  /** `Path(__file__).with_suffix(".apk")`. */
  function SiblingApk(script: Path): (p: Path)
    requires Name(script) != ""
    ensures Parent(p) == Parent(script)
    ensures Name(p) == Stem(Name(script)) + ".apk"
  {
    WithSuffix(script, ".apk")
  }

  /** Whether a directory entry matches the glob `*.apk`; pathlib matches
      case-insensitively on Windows and case-sensitively elsewhere. */
  predicate GlobMatches(pl: Platform, name: string) {
    if pl.Nt? then EndsWith(Lower(name), ".apk") else EndsWith(name, ".apk")
  }

  /** Every POSIX match is a Windows match, and only Windows also accepts an
      upper-case extension. */
  lemma {:induction false} GlobCaseRule(name: string)
    ensures GlobMatches(Posix, name) ==> GlobMatches(Nt, name)
    ensures GlobMatches(Nt, "A.APK") && !GlobMatches(Posix, "A.APK")
  {
    if GlobMatches(Posix, name) {
      var n := |name|;
      assert name[n - 4..] == ".apk";
      assert name[n - 4] == '.' && name[n - 3] == 'a' && name[n - 2] == 'p' && name[n - 1] == 'k';
      assert Lower(name)[n - 4..] == ".apk";
    }
    assert Lower("A.APK") == "a.apk";
    assert "A.APK"[1..] != ".apk";
  }

  /** The position of the first entry `glob("*.apk")` yields, if any. */
  function FirstGlobMatch(pl: Platform, listing: seq<string>): (r: Option<nat>)
    ensures r.Some? ==> r.value < |listing| && GlobMatches(pl, listing[r.value])
    ensures r.Some? ==> forall j :: 0 <= j < r.value ==> !GlobMatches(pl, listing[j])
    ensures r.None? ==> forall j :: 0 <= j < |listing| ==> !GlobMatches(pl, listing[j])
  {
    if |listing| == 0 then None
    else if GlobMatches(pl, listing[0]) then Some(0)
    else
      match FirstGlobMatch(pl, listing[1..])
      case None => None
      case Some(i) => Some(i + 1)
  }

  /** The APK `extract_apk` settles on: the sibling `<script stem>.apk` when it
      exists, otherwise the first glob match if it exists. */
  function LocateApk(env: RuntimeEnv): (r: Option<Path>)
    requires Name(env.script) != ""
    ensures r.Some? ==> r.value in env.existing && Parent(r.value) == Parent(env.script)
    ensures SiblingApk(env.script) in env.existing ==> r == Some(SiblingApk(env.script))
    ensures SiblingApk(env.script) !in env.existing && r.Some? ==> GlobMatches(env.platform, Name(r.value))
  {
    var sibling := SiblingApk(env.script);
    if sibling in env.existing then Some(sibling)
    else
      match FirstGlobMatch(env.platform, env.listing)
      case None => None
      case Some(i) =>
        var found := Child(Parent(env.script), env.listing[i]);
        if found in env.existing then Some(found) else None
  }

  /** An existing sibling wins, whatever else the directory holds. */
  lemma SiblingWins(env: RuntimeEnv, otherListing: seq<string>)
    requires Name(env.script) != ""
    requires SiblingApk(env.script) in env.existing
    ensures LocateApk(env) == Some(SiblingApk(env.script))
    ensures LocateApk(env.(listing := otherListing)) == LocateApk(env)
  {
  }

  /** Without the sibling, the first glob match is taken, and only if it
      exists; nothing else is tried. */
  lemma FallbackToFirstMatch(env: RuntimeEnv)
    requires Name(env.script) != ""
    requires SiblingApk(env.script) !in env.existing
    ensures LocateApk(env).Some? <==>
      exists i :: 0 <= i < |env.listing| && GlobMatches(env.platform, env.listing[i])
        && (forall j :: 0 <= j < i ==> !GlobMatches(env.platform, env.listing[j]))
        && Child(Parent(env.script), env.listing[i]) in env.existing
    ensures LocateApk(env).Some? ==>
      exists i :: 0 <= i < |env.listing| && LocateApk(env) == Some(Child(Parent(env.script), env.listing[i]))
        && GlobMatches(env.platform, env.listing[i])
        && (forall j :: 0 <= j < i ==> !GlobMatches(env.platform, env.listing[j]))
  {
    var m := FirstGlobMatch(env.platform, env.listing);
    if m.Some? {
      var i := m.value;
      forall i' | 0 <= i' < |env.listing| && GlobMatches(env.platform, env.listing[i'])
          && (forall j :: 0 <= j < i' ==> !GlobMatches(env.platform, env.listing[j]))
        ensures i' == i
      {
        assert !(i < i') && !(i' < i);
      }
    }
  }

  /** `extract_apk()`: a missing APK raises FileNotFoundError before anything
      is created; otherwise a fresh directory is made and the APK copied into
      it under its own name. A failing `mkdtemp` leaves nothing behind. Every
      error it raises is an OSError. */
  function ExtractApk(env: RuntimeEnv): (r: Run<Path>)
    requires Name(env.script) != ""
    ensures LocateApk(env).None? ==> r.effects == [] && r.result == Failure(FileNotFoundError(NotFoundMessage))
    ensures r.result.Failure? ==> r.result.error.IsOSError()
    ensures LocateApk(env).Some? && env.tempError.Some? ==>
      r.effects == [] && r.result == Failure(OSError(env.tempError.value))
    ensures r.result.Success? <==> LocateApk(env).Some? && env.tempError.None? && env.copyError.None?
    ensures LocateApk(env).Some? && env.tempError.None? ==>
      var target := Child(env.tempDir, Name(LocateApk(env).value));
      && r.effects == [MakeTempDir(env.tempDir), Copy(LocateApk(env).value, target)]
      && (r.result.Success? ==> r.result.value == target)
  {
    match LocateApk(env)
    case None => Run([], Failure(FileNotFoundError(NotFoundMessage)))
    case Some(apk) =>
      if env.tempError.Some? then Run([], Failure(OSError(env.tempError.value)))
      else
        var target := Child(env.tempDir, Name(apk));
        var effects := [MakeTempDir(env.tempDir), Copy(apk, target)];
        match env.copyError
        case Some(message) => Run(effects, Failure(OSError(message)))
        case None => Run(effects, Success(target))
  }

  /** The extracted copy sits directly in the fresh directory and keeps the
      located file's name. */
  lemma ExtractedCopyKeepsName(env: RuntimeEnv)
    requires Name(env.script) != ""
    requires LocateApk(env).Some? && env.tempError.None? && env.copyError.None?
    ensures Parent(ExtractApk(env).result.value) == env.tempDir
    ensures Name(ExtractApk(env).result.value) == Name(LocateApk(env).value)
  {
    var located := LocateApk(env).value;
    assert Name(located) != "" by {
      if located == SiblingApk(env.script) {
      } else {
        var i := FirstGlobMatch(env.platform, env.listing).value;
        assert EndsWith(env.listing[i], ".apk") || EndsWith(Lower(env.listing[i]), ".apk");
      }
    }
  }

  /** `choice.strip().lower() == "y"`. */
  predicate ConfirmsInstall(answer: string) {
    Lower(Strip(answer)) == "y"
  }

  /** Only an answer consisting of one `y` or `Y` with nothing but whitespace
      around it confirms the install. */
  lemma {:induction false} ConfirmsInstallExactly(answer: string)
    ensures ConfirmsInstall(answer) <==>
      exists k :: 0 <= k < |answer| && (answer[k] == 'y' || answer[k] == 'Y')
        && (forall m :: 0 <= m < |answer| && m != k ==> IsSpace(answer[m]))
  {
    var s := Strip(answer);
    var n := LeadingSpaces(answer);
    if ConfirmsInstall(answer) {
      assert |s| == 1;
      assert LowerChar(s[0]) == 'y';
      assert answer[n] == s[0];
    }
    if exists k :: 0 <= k < |answer| && (answer[k] == 'y' || answer[k] == 'Y')
        && (forall m :: 0 <= m < |answer| && m != k ==> IsSpace(answer[m])) {
      var k :| 0 <= k < |answer| && (answer[k] == 'y' || answer[k] == 'Y')
        && (forall m :: 0 <= m < |answer| && m != k ==> IsSpace(answer[m]));
      assert !IsSpace(answer[k]);
      assert n == k;
      assert |s| == 1;
      assert s == [answer[k]];
    }
  }

  lemma ConfirmsInstallExamples()
    ensures ConfirmsInstall(" Y ")
    ensures ConfirmsInstall("y\n")
  {
    ConfirmsInstallExactly(" Y ");
    ConfirmsInstallExactly("y\n");
  }

  lemma DeclinesInstallExamples()
    ensures !ConfirmsInstall("yes")
    ensures !ConfirmsInstall("")
    ensures !ConfirmsInstall("n")
  {
    ConfirmsInstallExactly("yes");
    ConfirmsInstallExactly("");
    ConfirmsInstallExactly("n");
  }

  /** What `main()` does once `extract_apk()` has run with outcome `extracted`:
      the exit status it returns, or the exception that escapes it. */
  function AfterExtraction(env: RuntimeEnv, extracted: Run<Path>): (r: Run<int>)
    ensures extracted.result.Failure? && extracted.result.error.IsOSError() ==> r == Run(extracted.effects, Success(1))
    ensures extracted.result.Failure? && !extracted.result.error.IsOSError() ==>
      r == Run(extracted.effects, Failure(extracted.result.error))
    ensures |extracted.effects| <= |r.effects| && r.effects[..|extracted.effects|] == extracted.effects
    ensures forall i :: |extracted.effects| <= i < |r.effects| ==> r.effects[i].Prompt? || r.effects[i].Spawn?
    ensures |r.effects| > |extracted.effects| <==> extracted.result.Success? && Found(env.adb)
    ensures |r.effects| > |extracted.effects| ==> r.effects[|extracted.effects|] == Prompt(InstallQuestion)
    ensures |r.effects| > |extracted.effects| + 1 <==>
      extracted.result.Success? && Found(env.adb) && ConfirmsInstall(env.answer)
    ensures |r.effects| > |extracted.effects| + 1 ==>
      r.effects[|extracted.effects| + 1] == Spawn([env.adb.value, "install", Str(extracted.result.value, env.platform)])
    ensures |r.effects| <= |extracted.effects| + 2
    ensures r.result.Success? ==> r.result.value == 0 || r.result.value == 1
    ensures extracted.result.Success? ==>
      (r.result.Failure? <==> Found(env.adb) && ConfirmsInstall(env.answer) && env.install.LaunchFailed?)
    ensures extracted.result.Success? ==>
      (r.result == Success(1) <==>
        Found(env.adb) && ConfirmsInstall(env.answer) && env.install.Exited? && env.install.code != 0)
    ensures extracted.result.Success? ==>
      (r.result == Success(0) <==> !Found(env.adb) || !ConfirmsInstall(env.answer) || env.install == Exited(0))
  {
    match extracted.result
    case Failure(e) =>
      if e.IsOSError() then Run(extracted.effects, Success(1)) else Run(extracted.effects, Failure(e))
    case Success(apk) =>
      if !Found(env.adb) then Run(extracted.effects, Success(0))
      else
        var asked := extracted.effects + [Prompt(InstallQuestion)];
        if !ConfirmsInstall(env.answer) then Run(asked, Success(0))
        else
          var installed := asked + [Spawn([env.adb.value, "install", Str(apk, env.platform)])];
          match env.install
          case Exited(code) => Run(installed, Success(if code == 0 then 0 else 1))
          case LaunchFailed(reason) => Run(installed, Failure(OSError(reason)))
  }

  /** `main()`. Every error `extract_apk()` raises is an OSError, so a failed
      extraction always returns 1, and the only exception that can escape is
      an adb that cannot be started. */
  function Main(env: RuntimeEnv): (r: Run<int>)
    requires Name(env.script) != ""
    ensures ExtractApk(env).result.Failure? ==> r == Run(ExtractApk(env).effects, Success(1))
    ensures r.result.Failure? <==>
      ExtractApk(env).result.Success? && Found(env.adb) && ConfirmsInstall(env.answer) && env.install.LaunchFailed?
    ensures r.result.Success? ==> r.result.value == 0 || r.result.value == 1
  {
    AfterExtraction(env, ExtractApk(env))
  }

  /** Whatever the adb outcome, `main` keeps the extracted copy: its effects
      start with creating the fresh directory and copying the APK into it, and
      everything after that is the prompt or the adb process. */
  lemma MainKeepsExtractedCopy(env: RuntimeEnv)
    requires Name(env.script) != ""
    requires LocateApk(env).Some? && env.tempError.None? && env.copyError.None?
    ensures var located := LocateApk(env).value;
      && |Main(env).effects| >= 2
      && Main(env).effects[..2] == [MakeTempDir(env.tempDir), Copy(located, Child(env.tempDir, Name(located)))]
    ensures forall i :: 2 <= i < |Main(env).effects| ==> Main(env).effects[i].Prompt? || Main(env).effects[i].Spawn?
  {
  }

  /** Scenario: adb is not on the PATH. `main` copies the APK out and returns 0
      without asking anything. */
  lemma NoAdbMeansNoPrompt(env: RuntimeEnv)
    requires Name(env.script) != ""
    requires LocateApk(env).Some? && env.tempError.None? && env.copyError.None?
    requires env.adb == None
    ensures Main(env).result == Success(0)
    ensures Main(env).effects == ExtractApk(env).effects
  {
  }
}
