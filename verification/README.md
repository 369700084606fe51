# XAPK-to-EXE converter: a Dafny model of its decision core

The converter takes an XAPK container (a ZIP archive that bundles one or more
Android packages) and writes out the main APK. It can also wrap an APK in a
one-file PyInstaller executable. When that executable runs, it copies the
bundled APK to a temporary directory and offers to install it with `adb`.

This project models three pieces of that logic. Each is a pure function over
explicit inputs:

- `extract_apk_from_xapk` (`xapk.dfy`, module `Xapk`). It keeps the archive
  entries whose lower-cased name ends in `.apk` and picks the largest one. On a
  tie the earliest entry in archive order wins, as with Python's `max`. The
  output is named after the entry's base name. The checks run in a fixed
  order: existence, ZIP validity, at least one `.apk`.
- `build_exe_from_apk` (`builder.dfy`, module `Builder`). It checks first that
  the APK exists and then that `pyinstaller` is found. Only after both checks
  does it create or start anything. It derives the executable name
  `<stem>_installer` and the `.exe` suffix used on Windows. It builds the exact
  14-element PyInstaller command and checks that the output exists after a
  zero exit.
- The runtime in `apk_wrapper.py` (`wrapper.dfy`, module `Wrapper`).
  `extract_apk` first looks for the sibling `<script stem>.apk`, then for the
  first `*.apk` glob match, and copies the file it finds into a fresh directory.
  `main` maps the outcomes to an exit status. The answer to the prompt is
  normalised with `strip().lower()` and only `"y"` installs.

The host is a parameter everywhere: `os.name`, which paths exist, what
`shutil.which` returns, the fresh names `mkdtemp` and `NamedTemporaryFile`
choose, the directory listing, the user's answer, and how each child process
ends. Each operation returns a `Run`: the side effects it performed, in order,
and its return value or the Python exception it raised. The error kinds are the
exceptions the code raises: `FileNotFoundError`, `ValueError`, `RuntimeError`,
`CalledProcessError` and `OSError`.

Supporting modules:
- `common.dfy`: `Option` and `Result`.
- `text.dfy`: `str.isspace`, `strip`, `lower`, `endswith` and `rfind`.
- `paths.dfy`: the `pathlib` operations the code uses.
- `host.dfy`: exceptions, effects, process outcomes and ZIP entries.

Some consequences of the code that the model keeps:
- The returned extraction path is `output_dir / name` as given. It is not made
  absolute.
- The stem drops only the final extension, so `a.b.apk` gives
  `a.b_installer`.
- The build's work directory is never removed.
- Errors are the Python exceptions the code raises.

## Model

| member | source | states |
|---|---|---|
| Xapk.ExtractApkFromXapk | app.py:11-30 | A missing file raises FileNotFoundError and a non-ZIP raises ValueError, before anything else. An archive without `.apk` entries raises ValueError. In all three cases no effect happens. With reading the archive's members treated as succeeding, the call succeeds exactly when the ZIP holds an `.apk` entry. The output directory is created only on success, and the returned path lies in it. |
| Xapk.ExtractionWritesFirstLargestApk | app.py:17-30 | On success, the entry decompressed is the first largest `.apk` entry of the archive. Then the output directory is created and the file is moved to `output_dir / <entry base name>`, which is returned. |
| Xapk.Candidates | app.py:18 | An entry is a candidate exactly when it is in the archive and its lower-cased name ends with `.apk`. |
| Xapk.ApkNameByLastFour | app.py:18 | The `.apk` test depends only on the last four characters: a dot, then a, p, k in either case (the Kelvin sign counts as K). |
| Xapk.ApkNameExamples | app.py:18 | `GAME.APK` and `split/base.Apk` qualify; `game.apks` and `apk` do not. |
| Xapk.CandidatesAtPositions | app.py:18 | The filter keeps archive order: the i-th candidate is the entry at the i-th `.apk` position. |
| Xapk.HasApkIffCandidates | app.py:18-20 | The candidate list is non-empty exactly when some archive entry has an `.apk` name. |
| Xapk.LargestFrom | app.py:22 | Python's `max` loop, which replaces only on a strictly larger size, ends at a position whose size is maximal, with every earlier element strictly smaller. |
| Xapk.FirstLargest | app.py:22 | `max(apk_infos, key=file_size)` returns the first position of maximal size. |
| Xapk.FirstLargestUnique | app.py:22 | At most one position is maximal with every earlier element strictly smaller. |
| Xapk.SelectedIsFirstLargestApk | app.py:18-22 | The entry filter-then-max picks is an `.apk` entry of the archive. No `.apk` entry is larger, and every `.apk` entry before it is strictly smaller. |
| Xapk.FirstLargestApkUnique | app.py:22 | The archive position with that property is unique, so the tie-break is deterministic. |
| Xapk.ScenarioLargestWins | app.py:22 | Of `config.apk` (2 KB) and `game.apk` (50 MB), `game.apk` is selected. |
| Xapk.ScenarioTieGoesToEarliest | app.py:22 | Of two `.apk` entries of equal size, the earlier one is selected and the later one is not. |
| Paths.BaseName | app.py:28 | `Path(name).name` for an entry name: the longest final piece without a separator. The name ends in it, and the character before it is a separator. |
| Paths.Child | app.py:28 | `dir / name` has the given name and `dir` as its parent. |
| Paths.Suffix | app.py:55 | pathlib's suffix is empty or a dot followed by at least one non-dot character, and it is shorter than the name. When it is empty, no dot inside the name is the last dot. |
| Paths.Stem | app.py:55 | Stem and suffix concatenate back to the name. A non-empty name has a non-empty stem. |
| Paths.SuffixOfAppendedExtension | app.py:75 | Appending `.exe` (any dot-led extension without further dots) to a non-empty name gives that extension as suffix and the original name as stem. |
| Paths.StrChildEndsWith | app.py:71 | The rendering of `dir / name` ends with `name`. |
| Paths.WithSuffix | apk_wrapper.py:9 | `with_suffix` keeps the parent and gives the name `<stem><suffix>`. |
| Builder.BuildExeFromApk | app.py:33-78 | A missing APK raises FileNotFoundError before the tool lookup. A missing or empty `pyinstaller` lookup raises RuntimeError. Neither failure has any effect. Effects happen exactly when both checks pass. Then PyInstaller is started exactly once, as the last effect, with the build command. The output directory, the work directory and both copies into the work directory come before it, and nothing is copied before the work directory exists. Success means a zero exit with the expected executable present, and it returns that path. The "output EXE was not found" RuntimeError comes exactly on a zero exit without it. CalledProcessError, carrying the status and the command, comes exactly on a non-zero exit. OSError comes exactly when PyInstaller cannot start. |
| Builder.BuildSteps | app.py:43-73 | The build's effects end with the single start of PyInstaller. Before it come the output directory, the work directory and the two copies into the work directory. No copy comes before the work directory. |
| Builder.Outcome | app.py:73-78 | A launch failure is OSError. A non-zero exit is CalledProcessError with the status and the command. A zero exit succeeds with the expected path exactly when it exists, and otherwise raises the "output EXE was not found" RuntimeError. |
| Builder.ExeName | app.py:55 | The executable's name ends in `_installer`. Dropping that ending and putting the final extension back gives the APK's name. |
| Builder.AddDataArg | app.py:53-54 | The `--add-data` value is the APK copy's path, then `;` on Windows or `:` elsewhere, then `.`. |
| Builder.BuildCommand | app.py:57-72 | The command has 14 elements, starts with the tool `shutil.which` found, and ends with the runtime script's copy in the work directory. |
| Builder.ExecutableNaming | app.py:55-75 | The executable goes in the output directory and is named `<stem>_installer`, with `.exe` added only on Windows. |
| Builder.WindowsExecutableReadsBack | app.py:75 | On Windows pathlib reads the executable's name back with suffix `.exe` and stem `<stem>_installer`. |
| Builder.BuildCommandReadsBack | app.py:53-72 | The command has 14 elements and starts with the resolved tool. Read as option/value pairs, it asks for one file and no console, with name `<stem>_installer`, distpath the output directory, workpath `work/build`, specpath `work`, one `--add-data` of `<apk copy><sep>.` (`;` on Windows, `:` elsewhere), and the copied runtime script as the only script. |
| Builder.ReadOptionList | app.py:57-72 | The option part reads back field by field for any option values. |
| Builder.InstallerPathRendering | app.py:75 | `<stem>.apk` built into the relative directory `<dir>` gives `<dir>\<stem>_installer.exe` on Windows and `<dir>/<stem>_installer` elsewhere. For example, `app.apk` into `dist` gives `dist\app_installer.exe` or `dist/app_installer`. |
| Builder.ScenarioDottedStem | app.py:55 | `my game.v2.apk` gives `my game.v2_installer`. |
| Wrapper.SiblingApk | apk_wrapper.py:9 | The sibling is in the script's directory and is named `<script stem>.apk`. |
| Wrapper.FirstGlobMatch | apk_wrapper.py:11 | Returns the first listing position that matches `*.apk`, or nothing when no entry matches. |
| Wrapper.LocateApk | apk_wrapper.py:9-13 | A located APK exists and sits in the script's directory. An existing sibling `<script stem>.apk` is always the one located. Without it, only a `*.apk` glob match can be located. |
| Wrapper.GlobCaseRule | apk_wrapper.py:11 | Every POSIX `*.apk` match is also a Windows match. Only Windows (pathlib's case-insensitive matching there) accepts `A.APK`. |
| Wrapper.SiblingWins | apk_wrapper.py:9-10 | An existing sibling is located, whatever the directory listing holds. |
| Wrapper.FallbackToFirstMatch | apk_wrapper.py:10-13 | Without the sibling, a file is located exactly when the first glob match exists, and that match is the file located. |
| Wrapper.ExtractApk | apk_wrapper.py:8-18 | With nothing located it raises FileNotFoundError and has no effect. A failing `mkdtemp` raises its OSError with no effect. Otherwise it makes the fresh directory and copies the file to `<fresh dir>/<located name>`, which it returns. Every error it raises is an OSError. |
| Wrapper.ExtractedCopyKeepsName | apk_wrapper.py:15-18 | The extracted copy sits directly in the fresh directory and keeps the located file's name. |
| Text.Strip | apk_wrapper.py:32 | `strip()` returns the infix that starts after the leading whitespace. Everything outside it is whitespace, and it neither starts nor ends with whitespace. |
| Wrapper.ConfirmsInstallExactly | apk_wrapper.py:32-33 | `answer.strip().lower() == "y"` holds exactly when the answer is one `y` or `Y` with only whitespace around it. |
| Wrapper.ConfirmsInstallExamples | apk_wrapper.py:32-33 | `" Y "` and `"y\n"` confirm the install. |
| Wrapper.DeclinesInstallExamples | apk_wrapper.py:32-33 | `"yes"`, `""` and `"n"` do not confirm the install. |
| Xapk.ApkNameEndsInLetter | app.py:28 | An `.apk` entry name ends in neither a separator nor a dot, so its pathlib name is the final separator-free piece. |
| Wrapper.AfterExtraction | apk_wrapper.py:22-39 | An extraction that fails with an OSError returns 1 with no prompt. Any other failure propagates unchanged. Without adb it returns 0 with no prompt. The prompt comes only after a successful extraction with adb found. `[adb, "install", str(apk)]` is spawned only when the answer confirms. Exit 0 from adb returns 0, any other status returns 1, and a failed adb launch escapes as OSError. |
| Wrapper.Main | apk_wrapper.py:21-39 | An extraction that fails with an OSError makes `main` return 1 with only the extraction's effects. Any status `main` returns is 0 or 1. |
| Wrapper.MainKeepsExtractedCopy | apk_wrapper.py:15-39 | After a successful extraction, `main`'s effects start with the fresh directory and the copy. Everything after them is the prompt or the adb process, so the copy is never removed. |
| Wrapper.NoAdbMeansNoPrompt | apk_wrapper.py:30-39 | Without adb, `main` returns 0 after the extraction and does nothing else. |

## Left out

- The Tkinter GUI (`ConverterApp`, app.py:81-169): it is dialog plumbing around the two operations.
- ZIP parsing, decompression and byte copying (`zipfile`, `shutil.copyfileobj`, `shutil.copy`, `shutil.move`): the archive is an abstract list of entries, and copies and moves are opaque effects.
- Failures of `mkdir`, `mkdtemp`, `NamedTemporaryFile`, `shutil.copy` and `shutil.move` in app.py: these library calls are treated as succeeding. In the runtime, failing `mkdtemp` and `shutil.copy` calls are parameters, because `main` catches them.
- Xapk.ExtractApkFromXapk: once `is_zipfile` accepts the file, opening and reading the chosen member (`zipfile.ZipFile`, `archive.open`, `shutil.copyfileobj`, app.py:17 and 23-24) is treated as succeeding. The real calls can raise BadZipFile for a corrupt directory or a CRC mismatch, RuntimeError for an encrypted member, or NotImplementedError for an unsupported compression method. None of these is an OSError or ValueError, so they would also escape the GUI's handler.
- Fresh names from `mkdtemp` and `NamedTemporaryFile` are parameters. Their prefixes are not checked.
- `subprocess.run`, PyInstaller, adb and `shutil.which`: each is an input (an optional tool path and a process outcome).
- The order in which `glob` visits the directory is an input, and so is the location of `__file__` inside the bundle.
- Printing to stdout and stderr.
- `input()` failing (end of input, or no stdin in a windowed build): the answer is always a line of text.
- Atomicity of the move, and concurrent writes to the same output directory.
- Text.LowerChar: only the lower-case mappings that yield an ASCII letter (A-Z and the Kelvin sign) are modelled. No other mapping can change a comparison with `".apk"` or `"y"`.
- Paths.BaseName: Windows drive-letter and UNC prefixes in entry names are not split off. The requirement that the name ends in neither a separator nor a dot holds for every `.apk` entry.
- Paths.Suffix: follows the `suffix`/`stem` rule of Python 3.12 pathlib.
- Paths.Str: path anchors (`/`, `C:\`) are opaque strings. Path normalisation when parsing user-supplied paths is not modelled.
- Wrapper.SiblingApk: requires a non-empty script name. `with_suffix` would raise ValueError on an empty name, which cannot happen for `__file__`.
