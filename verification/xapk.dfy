/** `extract_apk_from_xapk` (app.py): pick the installable package out of an
    XAPK container and write it, under its own base name, into an output
    directory. The archive is an abstract list of entries; decompression and
    copying are opaque effects. */
module Xapk {
  import opened Common
  import opened Text
  import opened Paths
  import opened Host

  /** What the file at the XAPK path turns out to be. */
  datatype ArchiveFile = Missing | NotZip | Zip(entries: seq<ZipEntry>)

  const NotZipMessage: string := "XAPK file is not a valid ZIP archive."
  const NoApkMessage: string := "No APK file found inside the XAPK archive."

  /** `name.lower().endswith(".apk")`. */
  predicate IsApkName(name: string) {
    EndsWith(Lower(name), ".apk")
  }

  /** The test only looks at the last four characters: a dot, then `a`, `p`
      and `k` in either case (the Kelvin sign counts as a `K`). */
  lemma ApkNameByLastFour(name: string)
    ensures IsApkName(name) <==>
      && |name| >= 4
      && name[|name| - 4] == '.'
      && (name[|name| - 3] == 'a' || name[|name| - 3] == 'A')
      && (name[|name| - 2] == 'p' || name[|name| - 2] == 'P')
      && (name[|name| - 1] == 'k' || name[|name| - 1] == 'K' || name[|name| - 1] == '\U{212A}')
  {
    var l := Lower(name);
    if |name| >= 4 {
      var n := |name|;
      assert l[n - 4..] == [l[n - 4], l[n - 3], l[n - 2], l[n - 1]];
    }
  }

  /** An `.apk` name ends in neither a separator nor a dot, so pathlib's
      `name` of it is its final separator-free piece. */
  lemma ApkNameEndsInLetter(pl: Platform, name: string)
    requires IsApkName(name)
    ensures |name| > 0 && name[|name| - 1] !in EntrySeparators(pl) && name[|name| - 1] != '.'
  {
    ApkNameByLastFour(name);
  }

  lemma ApkNameExamples()
    ensures IsApkName("GAME.APK")
    ensures IsApkName("split/base.Apk")
    ensures !IsApkName("game.apks")
    ensures !IsApkName("apk")
  {
    ApkNameByLastFour("GAME.APK");
    ApkNameByLastFour("split/base.Apk");
    ApkNameByLastFour("game.apks");
  }

  /** `[info for info in archive.infolist() if info.filename.lower().endswith(".apk")]`. */
  function Candidates(entries: seq<ZipEntry>): (c: seq<ZipEntry>)
    ensures forall e :: e in c <==> e in entries && IsApkName(e.filename)
  {
    if |entries| == 0 then []
    else
      var n := |entries| - 1;
      var rest := Candidates(entries[..n]);
      assert entries == entries[..n] + [entries[n]];
      rest + (if IsApkName(entries[n].filename) then [entries[n]] else [])
  }

  /** The positions in the archive of the `.apk` entries, in archive order. */
  function ApkPositions(entries: seq<ZipEntry>): (ps: seq<nat>)
    ensures forall i :: 0 <= i < |ps| ==> ps[i] < |entries| && IsApkName(entries[ps[i]].filename)
    ensures forall i, j :: 0 <= i < j < |ps| ==> ps[i] < ps[j]
    ensures forall k :: 0 <= k < |entries| && IsApkName(entries[k].filename) ==> k in ps
  {
    if |entries| == 0 then []
    else
      var n := |entries| - 1;
      var prefix := entries[..n];
      var rest := ApkPositions(prefix);
      var last := if IsApkName(entries[n].filename) then [n] else [];
      assert forall k :: 0 <= k < n ==> prefix[k] == entries[k];
      assert forall k :: 0 <= k < n && IsApkName(entries[k].filename) ==> k in rest;
      assert forall i :: 0 <= i < |rest| ==> rest[i] < n;
      rest + last
  }

  /** The filter keeps archive order: the i-th candidate is the entry at the
      i-th `.apk` position. */
  lemma {:induction false} CandidatesAtPositions(entries: seq<ZipEntry>)
    ensures |Candidates(entries)| == |ApkPositions(entries)|
    ensures forall i :: 0 <= i < |ApkPositions(entries)| ==> Candidates(entries)[i] == entries[ApkPositions(entries)[i]]
  {
    if |entries| > 0 {
      var n := |entries| - 1;
      var prefix := entries[..n];
      CandidatesAtPositions(prefix);
      var c := Candidates(prefix);
      var ps := ApkPositions(prefix);
      var cs := Candidates(entries);
      var all := ApkPositions(entries);
      assert cs == c + (if IsApkName(entries[n].filename) then [entries[n]] else []);
      assert all == ps + (if IsApkName(entries[n].filename) then [n] else []);
      forall i | 0 <= i < |all|
        ensures cs[i] == entries[all[i]]
      {
        if i < |ps| {
          assert cs[i] == c[i] == prefix[ps[i]];
          assert ps[i] < n;
        }
      }
    }
  }

  /** Position `i` holds the largest size of `c`, and every earlier element is
      strictly smaller: `i` is the first maximal position. */
  predicate IsFirstLargest(c: seq<ZipEntry>, i: nat) {
    && i < |c|
    && (forall j :: 0 <= j < |c| ==> c[j].fileSize <= c[i].fileSize)
    && (forall j :: 0 <= j < i ==> c[j].fileSize < c[i].fileSize)
  }

  /** Python's `max(c, key=size)` from position `k` on, `best` being the
      maximum of `c[..k]`: an element replaces the current maximum only when
      its size is strictly larger. */
  function LargestFrom(c: seq<ZipEntry>, best: nat, k: nat): (i: nat)
    requires best < k <= |c|
    requires IsFirstLargest(c[..k], best)
    ensures IsFirstLargest(c, i)
    decreases |c| - k
  {
    if k == |c| then
      assert c[..k] == c;
      best
    else
      assert forall j :: 0 <= j < k ==> c[..k][j] == c[j] == c[..k + 1][j];
      if c[k].fileSize > c[best].fileSize then LargestFrom(c, k, k + 1)
      else LargestFrom(c, best, k + 1)
  }

  /** The position `max(c, key=lambda info: info.file_size)` returns. */
  function FirstLargest(c: seq<ZipEntry>): (i: nat)
    requires |c| > 0
    ensures IsFirstLargest(c, i)
  {
    LargestFrom(c, 0, 1)
  }

  /** At most one position is the first maximal one. */
  lemma FirstLargestUnique(c: seq<ZipEntry>, i: nat, j: nat)
    requires IsFirstLargest(c, i) && IsFirstLargest(c, j)
    ensures i == j
  {
    assert c[i].fileSize == c[j].fileSize;
  }

  /** Entry `k` of the archive is an `.apk` entry, none is larger, and every
      `.apk` entry before it is strictly smaller. */
  predicate IsFirstLargestApk(entries: seq<ZipEntry>, k: nat) {
    && k < |entries|
    && IsApkName(entries[k].filename)
    && (forall j :: 0 <= j < |entries| && IsApkName(entries[j].filename) ==> entries[j].fileSize <= entries[k].fileSize)
    && (forall j :: 0 <= j < k && IsApkName(entries[j].filename) ==> entries[j].fileSize < entries[k].fileSize)
  }

  /** At most one archive position is the first largest `.apk` entry. */
  lemma FirstLargestApkUnique(entries: seq<ZipEntry>, k1: nat, k2: nat)
    requires IsFirstLargestApk(entries, k1) && IsFirstLargestApk(entries, k2)
    ensures k1 == k2
  {
  }

  /** The archive holds at least one `.apk` entry. */
  predicate HasApk(entries: seq<ZipEntry>) {
    exists j :: 0 <= j < |entries| && IsApkName(entries[j].filename)
  }

  lemma HasApkIffCandidates(entries: seq<ZipEntry>)
    ensures HasApk(entries) <==> |Candidates(entries)| > 0
  {
    if |Candidates(entries)| > 0 {
      var e := Candidates(entries)[0];
      assert e in entries;
      var j :| 0 <= j < |entries| && entries[j] == e;
    }
    if HasApk(entries) {
      var j :| 0 <= j < |entries| && IsApkName(entries[j].filename);
      assert entries[j] in Candidates(entries);
    }
  }

  /** The entry `extract_apk_from_xapk` decompresses. */
  function Selected(entries: seq<ZipEntry>): ZipEntry
    requires |Candidates(entries)| > 0
  {
    var c := Candidates(entries);
    c[FirstLargest(c)]
  }

  /** Filter-then-max picks the first largest `.apk` entry in archive order. */
  lemma {:induction false} SelectedIsFirstLargestApk(entries: seq<ZipEntry>) returns (k: nat)
    requires |Candidates(entries)| > 0
    ensures IsFirstLargestApk(entries, k)
    ensures Selected(entries) == entries[k]
  {
    var c := Candidates(entries);
    var ps := ApkPositions(entries);
    CandidatesAtPositions(entries);
    var i := FirstLargest(c);
    assert IsFirstLargest(c, i);
    k := ps[i];
    assert c[i] == entries[k];
    forall j | 0 <= j < |entries| && IsApkName(entries[j].filename)
      ensures entries[j].fileSize <= entries[k].fileSize
      ensures j < k ==> entries[j].fileSize < entries[k].fileSize
    {
      assert j in ps;
      var m :| 0 <= m < |ps| && ps[m] == j;
      assert c[m] == entries[j];
      assert c[m].fileSize <= c[i].fileSize;
      if j < k {
        assert m < i;
      }
    }
  }

  /** `extract_apk_from_xapk(xapk_path, output_dir)`. `file` is what lies at
      `xapkPath`; `temp` is the fresh name `NamedTemporaryFile` chooses. The
      checks run in order: existence, ZIP validity, at least one `.apk`
      entry; nothing is written and no directory is created before all three
      pass. */
  function ExtractApkFromXapk(pl: Platform, xapkPath: Path, outputDir: Path, file: ArchiveFile, temp: Path): (r: Run<Path>)
    ensures file.Missing? ==> r.effects == [] && r.result == Failure(FileNotFoundError("File not found: " + Str(xapkPath, pl)))
    ensures file.NotZip? ==> r.effects == [] && r.result == Failure(ValueError(NotZipMessage))
    ensures file.Zip? && !HasApk(file.entries) ==> r.effects == [] && r.result == Failure(ValueError(NoApkMessage))
    ensures r.result.Success? <==> file.Zip? && HasApk(file.entries)
    ensures MakeDirs(outputDir) in r.effects ==> r.result.Success?
    ensures r.result.Success? ==> Parent(r.result.value) == outputDir
  {
    match file
    case Missing => Run([], Failure(FileNotFoundError("File not found: " + Str(xapkPath, pl))))
    case NotZip => Run([], Failure(ValueError(NotZipMessage)))
    case Zip(entries) =>
      HasApkIffCandidates(entries);
      var c := Candidates(entries);
      if |c| == 0 then Run([], Failure(ValueError(NoApkMessage)))
      else
        var selected := c[FirstLargest(c)];
        assert selected in c;
        ApkNameEndsInLetter(pl, selected.filename);
        var output := Child(outputDir, BaseName(pl, selected.filename));
        Run([CopyEntryToTemp(selected, temp), MakeDirs(outputDir), Move(temp, output)], Success(output))
  }

  /** On an archive with an `.apk` entry, the call decompresses the first
      largest `.apk` entry into the temporary file, creates the output
      directory, and moves the file to `outputDir / <base name of the entry>`,
      which it returns; the directories inside the archive are dropped. */
  lemma ExtractionWritesFirstLargestApk(pl: Platform, xapkPath: Path, outputDir: Path, entries: seq<ZipEntry>, temp: Path)
    returns (k: nat)
    requires HasApk(entries)
    ensures IsFirstLargestApk(entries, k)
    ensures |entries[k].filename| > 0
    ensures var name := entries[k].filename;
      name[|name| - 1] !in EntrySeparators(pl) && name[|name| - 1] != '.'
    ensures var output := Child(outputDir, BaseName(pl, entries[k].filename));
      var r := ExtractApkFromXapk(pl, xapkPath, outputDir, Zip(entries), temp);
      && r.result == Success(output)
      && r.effects == [CopyEntryToTemp(entries[k], temp), MakeDirs(outputDir), Move(temp, output)]
  {
    HasApkIffCandidates(entries);
    k := SelectedIsFirstLargestApk(entries);
    ApkNameEndsInLetter(pl, entries[k].filename);
  }

  /** Scenario: of `config.apk` (2 KB) and `game.apk` (50 MB), `game.apk` is
      the entry extracted. */
  lemma ScenarioLargestWins()
    ensures IsFirstLargestApk([ZipEntry("config.apk", 2048), ZipEntry("game.apk", 52428800)], 1)
  {
    ApkNameByLastFour("config.apk");
    ApkNameByLastFour("game.apk");
  }

  /** Scenario: of two `.apk` entries of equal size, the earlier one is
      extracted. */
  lemma ScenarioTieGoesToEarliest()
    ensures IsFirstLargestApk([ZipEntry("b.APK", 10), ZipEntry("a.apk", 10)], 0)
    ensures !IsFirstLargestApk([ZipEntry("b.APK", 10), ZipEntry("a.apk", 10)], 1)
  {
    ApkNameByLastFour("b.APK");
    ApkNameByLastFour("a.apk");
  }
}
