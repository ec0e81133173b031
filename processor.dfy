/**
 * The doorbell event processor: dispatching an event and, for a clip
 * preview, choosing a free output file name and saving the clip. The HTTP
 * request, the MIME lookup, the clock and the file system calls are inputs;
 * the file system is the set of paths `os.Stat` finds.
 */
module EventProcessor {
  import opened Wrappers
  import opened Text
  import opened Decimal
  import opened Events

  const Placeholder: string := "{eventSessionId}"
  const UnknownExtension: string := ".video.unknown"

  /**
   * Lines 264-268: the first extension of the content type, else the
   * fallback; `CreatedFileName` states what this means for the saved file.
   */
  function Extension(extensions: Result<seq<string>, string>): string
  {
    if extensions.Ok? && |extensions.value| > 0 then extensions.value[0] else UnknownExtension
  }

  /** `filepath.Join(dir, name)` for the names built here, without `filepath.Clean`. */
  function JoinPath(dir: string, name: string): string
  {
    if dir == "" then name else dir + "/" + name
  }

  /** What a file name is built from: the directory, the formatted time, the session and the extension. */
  datatype Naming = Naming(outputDir: string, fileNameFormat: string, eventSessionId: string, extension: string)

  /** Line 273: the `i`-th file name tried. */
  function Candidate(n: Naming, i: nat): string
  {
    JoinPath(n.outputDir,
      ReplaceAll(n.fileNameFormat, Placeholder, n.eventSessionId + "_" + Itoa(i)) + n.extension)
  }

  /** `i` is the first candidate that does not exist. */
  ghost predicate LeastFree(existing: set<string>, n: Naming, i: nat)
  {
    Candidate(n, i) !in existing && forall j :: 0 <= j < i ==> Candidate(n, j) in existing
  }

  /** The outcome of the probe loop: a free name, or a loop that never ends. */
  datatype Probe = Free(index: nat, path: string) | Spins

  /**
   * The probe, searched up to `|existing|` (a bound `ChosenNameIsLeastFree`
   * shows the loop never needs to pass unless it spins forever).
   */
  function Search(existing: set<string>, n: Naming, i: nat): Probe
    decreases |existing| + 1 - i
  {
    if i > |existing| then Spins
    else if Candidate(n, i) !in existing then Free(i, Candidate(n, i))
    else Search(existing, n, i + 1)
  }

  function ChosenName(existing: set<string>, n: Naming): Probe
  {
    Search(existing, n, 0)
  }

  // ---------------------------------------------------------------------
  // Candidate names
  // ---------------------------------------------------------------------

  lemma JoinPathInjective(dir: string, a: string, b: string)
    requires a != b
    ensures JoinPath(dir, a) != JoinPath(dir, b)
  {
    if dir != "" {
      var k := |dir + "/"|;
      assert JoinPath(dir, a)[k..] == a && JoinPath(dir, b)[k..] == b;
    }
  }

  /** With the placeholder in the format, different indices give different names. */
  lemma CandidateInjective(n: Naming, i: nat, j: nat)
    requires Contains(n.fileNameFormat, Placeholder) && i != j
    ensures Candidate(n, i) != Candidate(n, j)
  {
    var r1 := n.eventSessionId + "_" + Itoa(i);
    var r2 := n.eventSessionId + "_" + Itoa(j);
    if r1 == r2 {
      var k := |n.eventSessionId + "_"|;
      assert r1[k..] == Itoa(i) && r2[k..] == Itoa(j);
      ItoaInjective(i, j);
    }
    ReplaceAllInjective(n.fileNameFormat, Placeholder, r1, r2);
    var a := ReplaceAll(n.fileNameFormat, Placeholder, r1);
    var b := ReplaceAll(n.fileNameFormat, Placeholder, r2);
    assert (a + n.extension)[..|a|] == a && (b + n.extension)[..|b|] == b;
    if |a| == |b| {
      assert a + n.extension != b + n.extension;
    }
    JoinPathInjective(n.outputDir, a + n.extension, b + n.extension);
  }

  /** Without the placeholder every index gives the same name. */
  lemma CandidateConstant(n: Naming, i: nat)
    requires !Contains(n.fileNameFormat, Placeholder)
    ensures Candidate(n, i) == Candidate(n, 0)
  {
    ReplaceAllAbsent(n.fileNameFormat, Placeholder, n.eventSessionId + "_" + Itoa(i));
    ReplaceAllAbsent(n.fileNameFormat, Placeholder, n.eventSessionId + "_" + Itoa(0));
  }

  /** `count` distinct existing candidates need at least `count` existing paths. */
  lemma {:induction false} CandidatesFit(n: Naming, existing: set<string>, count: nat)
    requires Contains(n.fileNameFormat, Placeholder)
    requires forall j :: 0 <= j < count ==> Candidate(n, j) in existing
    ensures count <= |existing|
  {
    if count > 0 {
      var last := Candidate(n, count - 1);
      var rest := existing - {last};
      forall j | 0 <= j < count - 1
        ensures Candidate(n, j) in rest
      {
        CandidateInjective(n, j, count - 1);
      }
      CandidatesFit(n, rest, count - 1);
    }
  }

  lemma {:induction false} SearchFindsLeastFree(existing: set<string>, n: Naming, i: nat)
    requires forall j :: 0 <= j < i ==> Candidate(n, j) in existing
    ensures var r := Search(existing, n, i);
      (r.Free? ==> r.path == Candidate(n, r.index) && LeastFree(existing, n, r.index))
      && (r.Spins? ==> forall j :: 0 <= j <= |existing| ==> Candidate(n, j) in existing)
    decreases |existing| + 1 - i
  {
    if i <= |existing| && Candidate(n, i) in existing {
      SearchFindsLeastFree(existing, n, i + 1);
    }
  }

  /**
   * Lines 269-279: the chosen name is the candidate with the least index
   * that does not exist. With the placeholder in the format that index is at
   * most the number of existing paths; without it every candidate is the
   * same name, and if that exists the loop never ends.
   */
  lemma ChosenNameIsLeastFree(existing: set<string>, n: Naming)
    ensures var r := ChosenName(existing, n);
      (r.Free? ==> r.path == Candidate(n, r.index) && LeastFree(existing, n, r.index))
      && (Contains(n.fileNameFormat, Placeholder) ==> r.Free? && r.index <= |existing|)
      && (r.Spins? <==> !Contains(n.fileNameFormat, Placeholder) && Candidate(n, 0) in existing)
      && (r.Spins? ==> forall j: nat :: Candidate(n, j) in existing)
  {
    var r := ChosenName(existing, n);
    SearchFindsLeastFree(existing, n, 0);
    if Contains(n.fileNameFormat, Placeholder) {
      if r.Spins? {
        CandidatesFit(n, existing, |existing| + 1);
      } else {
        CandidatesFit(n, existing, r.index);
      }
    } else {
      if r.Free? && Candidate(n, 0) in existing {
        CandidateConstant(n, r.index);
      }
      if r.Spins? {
        forall j: nat
          ensures Candidate(n, j) in existing
        {
          CandidateConstant(n, j);
        }
      }
    }
  }

  // ---------------------------------------------------------------------
  // Downloading
  // ---------------------------------------------------------------------

  /** How the directory creation, `os.Create` and `io.Copy` of lines 280-293 turn out. */
  datatype SaveOutcome =
    | Saved
    | MkdirFailed(error: string)
    | CreateFailed(error: string)
    | CopyFailed(error: string)   // the file was created before the copy failed

  /**
   * The outside world as one download sees it: the HTTP GET's error, the
   * extensions of the response's content type, `time.Now()` formatted by the
   * output file name format, and how saving turns out.
   */
  datatype DownloadIo = DownloadIo(
    getError: Option<string>,
    extensions: Result<seq<string>, string>,
    formattedName: string,
    save: SaveOutcome)

  /** What a call returns, or that it never returns. */
  datatype Outcome = Returned(error: Option<string>) | Hangs

  function SaveError(save: SaveOutcome): Option<string>
  {
    match save
    case Saved => None
    case MkdirFailed(e) => Some(e)
    case CreateFailed(e) => Some(e)
    case CopyFailed(e) => Some(e)
  }

  function NamingFor(outputDir: string, clip: ClipPreview, io: DownloadIo): Naming
  {
    Naming(outputDir, io.formattedName, clip.eventSessionId, Extension(io.extensions))
  }

  /** What `downloadAndSaveCameraClipPreview` returns. */
  function DownloadOutcome(existing: set<string>, outputDir: string, clip: ClipPreview, io: DownloadIo): Outcome
  {
    if io.getError.Some? then Returned(io.getError)
    else match ChosenName(existing, NamingFor(outputDir, clip, io))
      case Spins => Hangs
      case Free(_, _) => Returned(SaveError(io.save))
  }

  /** The paths that exist after `downloadAndSaveCameraClipPreview`. */
  function FilesAfterDownload(existing: set<string>, outputDir: string, clip: ClipPreview, io: DownloadIo): set<string>
  {
    if io.getError.Some? then existing
    else match ChosenName(existing, NamingFor(outputDir, clip, io))
      case Spins => existing
      case Free(_, path) => if io.save.Saved? || io.save.CopyFailed? then existing + {path} else existing
  }

  /**
   * A download that returns success has created exactly one new file, under
   * the least free name; one that returns an error has created at most that
   * file; the existing files are never lost.
   */
  lemma DownloadCreatesOneFile(existing: set<string>, outputDir: string, clip: ClipPreview, io: DownloadIo)
    ensures existing <= FilesAfterDownload(existing, outputDir, clip, io)
    ensures var n := NamingFor(outputDir, clip, io);
      var after := FilesAfterDownload(existing, outputDir, clip, io);
      DownloadOutcome(existing, outputDir, clip, io) == Returned(None) ==>
        exists i :: LeastFree(existing, n, i) && after == existing + {Candidate(n, i)} && |after| == |existing| + 1
    ensures var n := NamingFor(outputDir, clip, io);
      var after := FilesAfterDownload(existing, outputDir, clip, io);
      forall p :: p in after && p !in existing ==> exists i :: LeastFree(existing, n, i) && p == Candidate(n, i)
  {
    var n := NamingFor(outputDir, clip, io);
    ChosenNameIsLeastFree(existing, n);
  }

  /** `s` ends with `suffix`. */
  predicate EndsWith(s: string, suffix: string)
  {
    |suffix| <= |s| && s[|s| - |suffix|..] == suffix
  }

  /** Line 273: every candidate lies in the output directory and ends with the extension. */
  lemma CandidateShape(n: Naming, i: nat)
    ensures EndsWith(Candidate(n, i), n.extension)
    ensures n.outputDir != "" ==> Candidate(n, i)[..|n.outputDir| + 1] == n.outputDir + "/"
  {
    var name := ReplaceAll(n.fileNameFormat, Placeholder, n.eventSessionId + "_" + Itoa(i)) + n.extension;
    var c := Candidate(n, i);
    if n.outputDir == "" {
      assert c == name;
    } else {
      assert c == n.outputDir + "/" + name;
    }
    assert c[|c| - |n.extension|..] == n.extension;
  }

  /**
   * Lines 264-279: a file a download creates is the least free candidate; it
   * lies in the output directory and its name ends with the first extension
   * of the content type, or with `.video.unknown` when the lookup failed or
   * found none.
   */
  lemma CreatedFileName(existing: set<string>, outputDir: string, clip: ClipPreview, io: DownloadIo, p: string)
    requires p in FilesAfterDownload(existing, outputDir, clip, io) && p !in existing
    ensures var n := NamingFor(outputDir, clip, io);
      exists i :: LeastFree(existing, n, i) && p == Candidate(n, i)
    ensures io.extensions.Ok? && |io.extensions.value| > 0 ==> EndsWith(p, io.extensions.value[0])
    ensures io.extensions.Err? || |io.extensions.value| == 0 ==> EndsWith(p, UnknownExtension)
    ensures outputDir != "" ==> p[..|outputDir| + 1] == outputDir + "/"
  {
    var n := NamingFor(outputDir, clip, io);
    ChosenNameIsLeastFree(existing, n);
    var r := ChosenName(existing, n);
    assert r.Free? && p == r.path;
    CandidateShape(n, r.index);
  }

  // ---------------------------------------------------------------------
  // The processor
  // ---------------------------------------------------------------------

  class Processor {
    const doorbellDeviceName: string
    const outputDir: string
    const outputFileNameFormat: string
    /** The paths `os.Stat` reports as existing. */
    var files: set<string>
    /** Every clip preview a download was attempted for, in order. */
    ghost var downloads: seq<ClipPreview>

    constructor(doorbellDeviceName: string, outputDir: string, outputFileNameFormat: string, existing: set<string>)
      ensures this.doorbellDeviceName == doorbellDeviceName
      ensures this.outputDir == outputDir && this.outputFileNameFormat == outputFileNameFormat
      ensures files == existing && downloads == []
    {
      this.doorbellDeviceName := doorbellDeviceName;
      this.outputDir := outputDir;
      this.outputFileNameFormat := outputFileNameFormat;
      files := existing;
      downloads := [];
    }

    /** Lines 269-279: try candidates in order until one does not exist. */
    method ChooseFileName(fileNameFormat: string, eventSessionId: string, extension: string) returns (r: Probe)
      ensures r == ChosenName(files, Naming(outputDir, fileNameFormat, eventSessionId, extension))
    {
      var n := Naming(outputDir, fileNameFormat, eventSessionId, extension);
      var i := 0;
      while i <= |files|
        invariant Search(files, n, i) == Search(files, n, 0)
        decreases |files| + 1 - i
      {
        var fileName := Candidate(n, i);
        if fileName !in files {
          return Free(i, fileName);
        }
        i := i + 1;
      }
      // Every further probe would find an existing name again.
      return Spins;
    }

    /** `downloadAndSaveCameraClipPreview`. */
    method DownloadAndSave(clip: ClipPreview, io: DownloadIo) returns (r: Outcome)
      modifies this
      ensures r == DownloadOutcome(old(files), outputDir, clip, io)
      ensures files == FilesAfterDownload(old(files), outputDir, clip, io)
      ensures downloads == old(downloads) + [clip]
    {
      downloads := downloads + [clip];
      if io.getError.Some? {
        return Returned(io.getError);
      }
      var extension := Extension(io.extensions);
      var probe := ChooseFileName(io.formattedName, clip.eventSessionId, extension);
      if probe.Spins? {
        return Hangs;
      }
      match io.save
      case Saved =>
        files := files + {probe.path};
        r := Returned(None);
      case MkdirFailed(e) =>
        r := Returned(Some(e));
      case CreateFailed(e) =>
        r := Returned(Some(e));
      case CopyFailed(e) =>
        files := files + {probe.path};
        r := Returned(Some(e));
    }

    /**
     * `Process` with the handlers it calls: a clip preview that decoded is
     * downloaded exactly once and the download's result is returned
     * unchanged; every other event returns without touching the file system,
     * with the error text of its failure. The device name is not consulted.
     */
    method Process(e: DeviceEvent, io: DownloadIo) returns (r: Outcome)
      modifies this
      ensures var step := Events.Process(e);
        step.Download? ==>
          r == DownloadOutcome(old(files), outputDir, step.clip, io)
          && files == FilesAfterDownload(old(files), outputDir, step.clip, io)
          && downloads == old(downloads) + [step.clip]
      ensures var step := Events.Process(e);
        step.Finish? ==>
          files == old(files) && downloads == old(downloads)
          && r.Returned? && (r.error.None? <==> step.failure.None?)
      ensures var step := Events.Process(e);
        step.Finish? && step.failure.Some? && step.failure.value.DecodeFailed? ==>
          r == Returned(Some(step.failure.value.cause))
      ensures var step := Events.Process(e);
        step.Finish? && step.failure.Some? && step.failure.value.UnsupportedEvent? ==>
          r == Returned(Some(UnsupportedEventText(e)))
      ensures var step := Events.Process(e);
        step.Finish? && step.failure.Some? && step.failure.value.UnsupportedResourceUpdate? ==>
          var f := step.failure.value;
          r.Returned? && r.error.Some? && Contains(r.error.value, f.userId)
          && (forall k :: k in f.events ==> Contains(r.error.value, k))
          && (forall k :: k in f.traits ==> Contains(r.error.value, k))
    {
      match Events.Process(e)
      case Download(_, clip) =>
        r := DownloadAndSave(clip, io);
      case Finish(None) =>
        r := Returned(None);
      case Finish(Some(UnsupportedEvent(_))) =>
        r := Returned(Some(UnsupportedEventText(e)));
      case Finish(Some(DecodeFailed(cause))) =>
        r := Returned(Some(cause));
      case Finish(Some(UnsupportedResourceUpdate(userId, events, traits))) =>
        var text := UnsupportedResourceUpdateText(userId, events, traits);
        r := Returned(Some(text));
    }
  }
}
