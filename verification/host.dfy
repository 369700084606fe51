/** What the converter sees of its host: the exceptions it raises, the outcome
    of a child process, the entries of a ZIP archive, and the ordered trace of
    side effects an operation performs. */
module Host {
  import opened Common
  import opened Paths

  /** The Python exceptions raised or caught by the converter. */
  datatype Error =
    | FileNotFoundError(message: string)
    | ValueError(message: string)
    | RuntimeError(message: string)
    | CalledProcessError(returncode: int, cmd: seq<string>)
    | OSError(message: string)
  {
    /** `isinstance(e, OSError)`: FileNotFoundError is a subclass of OSError;
        CalledProcessError is not. */
    predicate IsOSError() {
      FileNotFoundError? || OSError?
    }
  }

  /** How `subprocess.run` ends: the child exits with a status, or it cannot be
      started at all (Python raises an OSError such as FileNotFoundError or
      PermissionError). */
  datatype ProcessOutcome = Exited(code: int) | LaunchFailed(reason: string)

  /** One member of a ZIP archive as `ZipFile.infolist()` reports it. */
  datatype ZipEntry = ZipEntry(filename: string, fileSize: nat)

  /** A side effect on the file system, a child process or the user. */
  datatype Effect =
    | CopyEntryToTemp(entry: ZipEntry, temp: Path)   // decompress an archive member into a temporary file
    | MakeDirs(dir: Path)                            // mkdir(parents=True, exist_ok=True)
    | MakeTempDir(dir: Path)                         // tempfile.mkdtemp
    | Copy(src: Path, dst: Path)                     // shutil.copy
    | Move(src: Path, dst: Path)                     // shutil.move
    | Spawn(argv: seq<string>)                       // subprocess.run
    | Prompt(question: string)                       // input()

  /** What one call does: the effects it performed, in order, and what it
      returned or raised. */
  datatype Run<+T> = Run(effects: seq<Effect>, result: Result<T, Error>)

  /** Python truthiness of `shutil.which(...)`: `None` and `""` are false. */
  predicate Found(tool: Option<string>) {
    tool.Some? && tool.value != ""
  }
}
