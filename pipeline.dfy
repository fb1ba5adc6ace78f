/** `TranscriptionProcessor` (utils.py, and the copy app.py actually uses): validate,
    decide whether to split, transcribe the whole file or each window, merge. What the
    processor does to the outside world is recorded on a `Host`: the values handed to the
    progress callback, the delays it sleeps, and the temporary files it holds. */
module Pipeline {
  import opened Wrappers
  import opened Text
  import opened Security
  import opened Chunker
  import opened Retry
  import opened Assembler
  import opened Errors

  /** The configuration entries the processor reads. */
  datatype Config = Config(maxRetries: nat, thresholdMb: real, chunkSeconds: int)

  /** `ADVANCED_CONFIG` (config.py): 3 retries, a 25 MB threshold and 300-second windows;
      the app.py copy reads its threshold and window length from here. */
  const Shipped := Config(3, 25.0, 300)

  /** What the outside world answers during one run: the remote outcome of attempt `n` on
      upload `i` (the whole file is upload 0), whether the temporary file for upload `i`
      can be written, whether a file whose write fails had already been created on disk,
      and the decoded length of the audio (None when decoding fails). */
  datatype Remote = Remote(respond: nat -> nat -> Outcome, tempOk: nat -> bool, tempCreated: nat -> bool,
                           decodedMs: Option<nat>)

  /** `NamedTemporaryFile(delete=False)` creates the file before `write` runs; when the
      write (or the flush on leaving the `with`) raises, the name is never stored, so the
      file stays on disk and nothing can remove it. */
  predicate Leaks(remote: Remote, i: nat)
  {
    !remote.tempOk(i) && remote.tempCreated(i)
  }

  /** How many of uploads 0 .. n - 1 leave a file behind. */
  function LeakCount(remote: Remote, n: nat): (k: nat)
    ensures k <= n
  {
    if n == 0 then 0 else LeakCount(remote, n - 1) + (if Leaks(remote, n - 1) then 1 else 0)
  }

  /** `after` is `before` with exactly `k` more files. */
  predicate Grew(before: set<nat>, after: set<nat>, k: nat)
  {
    before <= after && |after| == |before| + k
  }

  /** How a run fails. */
  datatype Fault = Unsafe(reason: Rejection) | TempFileFailed | ApiFailed(giveUp: GiveUp)

  /** The returned dictionary, without the wall-clock and floating-point entries;
      `chunksProcessed` is present only on the split path. */
  datatype Report = Report(transcript: string, chunkCount: nat, chunksProcessed: Option<nat>)

  /** The side effects of a run. Temporary files are numbered handles; `live` holds the
      ones the program was given and has not yet removed, `leaked` the ones created on
      disk whose name the program never received. */
  class Host {
    var progress: seq<real>
    var sleeps: seq<nat>
    ghost var live: set<nat>
    var leaked: set<nat>
    var nextHandle: nat

    ghost predicate Valid()
      reads this
    {
      && (forall h :: h in live ==> h < nextHandle)
      && (forall h :: h in leaked ==> h < nextHandle)
    }

    constructor()
      ensures Valid() && progress == [] && sleeps == [] && live == {} && leaked == {}
    {
      progress := [];
      sleeps := [];
      live := {};
      leaked := {};
      nextHandle := 0;
    }

    /** `progress_callback(message, value)`. */
    method ReportProgress(value: real)
      requires Valid()
      modifies this
      ensures Valid()
      ensures progress == old(progress) + [value]
      ensures sleeps == old(sleeps) && live == old(live) && leaked == old(leaked)
    {
      progress := progress + [value];
    }

    /** The `time.sleep` calls of one remote call, in order. */
    method Sleep(delays: seq<nat>)
      requires Valid()
      modifies this
      ensures Valid()
      ensures sleeps == old(sleeps) + delays
      ensures progress == old(progress) && live == old(live) && leaked == old(leaked)
    {
      sleeps := sleeps + delays;
    }

    /** Writing a temporary file: a new handle when the write succeeds. A file that was
        created but could not be written is left on disk without a handle. */
    method CreateTemp(ok: bool, created: bool) returns (h: Option<nat>)
      requires Valid()
      modifies this
      ensures Valid()
      ensures ok <==> h.Some?
      ensures h.Some? ==> h.value !in old(live) && live == old(live) + {h.value}
      ensures h.None? ==> live == old(live)
      ensures Grew(old(leaked), leaked, if !ok && created then 1 else 0)
      ensures progress == old(progress) && sleeps == old(sleeps)
    {
      if ok {
        h := Some(nextHandle);
        live := live + {nextHandle};
        nextHandle := nextHandle + 1;
      } else if created {
        h := None;
        leaked := leaked + {nextHandle};
        nextHandle := nextHandle + 1;
      } else {
        h := None;
      }
    }

    /** The write as evidently intended: a file created but not written is removed
        before giving up, so no outcome leaves a file the program cannot reach. */
    method CreateTempOrRemove(ok: bool, created: bool) returns (h: Option<nat>)
      requires Valid()
      modifies this
      ensures Valid()
      ensures ok <==> h.Some?
      ensures h.Some? ==> h.value !in old(live) && live == old(live) + {h.value}
      ensures h.None? ==> live == old(live)
      ensures leaked == old(leaked)
      ensures progress == old(progress) && sleeps == old(sleeps)
    {
      if ok {
        h := Some(nextHandle);
        live := live + {nextHandle};
        nextHandle := nextHandle + 1;
      } else {
        h := None;
      }
    }

    /** Removing a temporary file; removing nothing (`None`) is harmless. */
    method RemoveTemp(h: Option<nat>)
      requires Valid()
      modifies this
      ensures Valid()
      ensures live == if h.Some? then old(live) - {h.value} else old(live)
      ensures progress == old(progress) && sleeps == old(sleeps) && leaked == old(leaked)
    {
      if h.Some? {
        live := live - {h.value};
      }
    }
  }

  /** `_call_whisper_api` from retry count 0, with its waits applied to the host. */
  method CallWhisperApi(host: Host, respond: nat -> Outcome, maxRetries: nat)
    returns (r: Result<string, GiveUp>)
    requires host.Valid()
    modifies host
    ensures host.Valid()
    ensures r == Call(respond, maxRetries).result
    ensures host.sleeps == old(host.sleeps) + Call(respond, maxRetries).sleeps
    ensures host.progress == old(host.progress) && host.live == old(host.live)
    ensures host.leaked == old(host.leaked)
  {
    var c := Call(respond, maxRetries);
    host.Sleep(c.sleeps);
    r := c.result;
  }

  /** `_process_single_file`. */
  method ProcessSingleFile(host: Host, remote: Remote, cfg: Config) returns (r: Result<Report, Fault>)
    requires host.Valid()
    modifies host
    ensures host.Valid()
    ensures host.live == old(host.live)
    ensures Grew(old(host.leaked), host.leaked, if Leaks(remote, 0) then 1 else 0)
    ensures var c := Call(remote.respond(0), cfg.maxRetries);
      && (!remote.tempOk(0) ==>
            (r == Failure(TempFileFailed)
             && host.progress == old(host.progress) + [30.0]
             && host.sleeps == old(host.sleeps)))
      && (remote.tempOk(0) ==> host.sleeps == old(host.sleeps) + c.sleeps)
      && (remote.tempOk(0) && c.result.Success? ==>
            (r == Success(Report(c.result.value, 1, None))
             && host.progress == old(host.progress) + [30.0, 60.0, 100.0]))
      && (remote.tempOk(0) && c.result.Failure? ==>
            (r == Failure(ApiFailed(c.result.error))
             && host.progress == old(host.progress) + [30.0, 60.0]))
  {
    host.ReportProgress(30.0);
    var temp := host.CreateTemp(remote.tempOk(0), remote.tempCreated(0));
    if temp.None? {
      host.RemoveTemp(temp);
      return Failure(TempFileFailed);
    }
    host.ReportProgress(60.0);
    var transcript := CallWhisperApi(host, remote.respond(0), cfg.maxRetries);
    host.RemoveTemp(temp);
    if transcript.Failure? {
      return Failure(ApiFailed(transcript.error));
    }
    host.ReportProgress(100.0);
    r := Success(Report(transcript.value, 1, None));
  }

  /** Whether window `i` yields a transcript: its temporary file is written and the
      remote call ends with a transcript. */
  predicate Succeeds(remote: Remote, maxRetries: nat, i: nat)
  {
    remote.tempOk(i) && Call(remote.respond(i), maxRetries).result.Success?
  }

  function TranscriptOf(remote: Remote, maxRetries: nat, i: nat): string
    requires Succeeds(remote, maxRetries, i)
  {
    Call(remote.respond(i), maxRetries).result.value
  }

  /** What window `i` contributes: its piece when it succeeds, nothing otherwise. */
  function Survivor(remote: Remote, maxRetries: nat, i: nat, w: Window): seq<Piece>
  {
    if Succeeds(remote, maxRetries, i)
    then [Piece(TranscriptOf(remote, maxRetries, i), w.startMs, w.endMs, w.durationMs)]
    else []
  }

  /** The pieces the split path keeps from the given windows: one per window that
      succeeds, in window order; the others are skipped. */
  function Survivors(remote: Remote, maxRetries: nat, ws: seq<Window>): (ps: seq<Piece>)
    ensures |ps| <= |ws|
  {
    if ws == [] then []
    else Survivors(remote, maxRetries, ws[..|ws| - 1]) + Survivor(remote, maxRetries, |ws| - 1, ws[|ws| - 1])
  }

  /** The waits of window `i`: none when its temporary file cannot be written. */
  function WindowSleeps(remote: Remote, maxRetries: nat, i: nat): seq<nat>
  {
    if remote.tempOk(i) then Call(remote.respond(i), maxRetries).sleeps else []
  }

  /** All the waits of the split path: those of every window whose temporary file was
      written, in window order. */
  function SleepsOf(remote: Remote, maxRetries: nat, n: nat): seq<nat>
  {
    if n == 0 then []
    else SleepsOf(remote, maxRetries, n - 1) + WindowSleeps(remote, maxRetries, n - 1)
  }

  /** The progress value reported before window `i` of `n`. */
  function RampAt(n: nat, i: nat): real
    requires i < n
  {
    25.0 + (i as real / n as real) * 60.0
  }

  /** The progress values of the per-window loop: 25 + (i / n) * 60 for i = 0 .. n - 1. */
  function Ramp(n: nat): (ps: seq<real>)
    ensures |ps| == n
  {
    seq(n, i requires 0 <= i < n => RampAt(n, i))
  }

  /** The body of the `try` for window `i`: write its temporary file, call the service,
      remove the file whatever the outcome, and keep the transcript on success. */
  method ProcessWindow(host: Host, remote: Remote, maxRetries: nat, i: nat, w: Window)
    returns (kept: seq<Piece>)
    requires host.Valid()
    modifies host
    ensures host.Valid()
    ensures kept == Survivor(remote, maxRetries, i, w)
    ensures host.sleeps == old(host.sleeps) + WindowSleeps(remote, maxRetries, i)
    ensures host.progress == old(host.progress) && host.live == old(host.live)
    ensures Grew(old(host.leaked), host.leaked, if Leaks(remote, i) then 1 else 0)
  {
    kept := [];
    var temp := host.CreateTemp(remote.tempOk(i), remote.tempCreated(i));
    if temp.Some? {
      var text := CallWhisperApi(host, remote.respond(i), maxRetries);
      if text.Success? {
        kept := [Piece(text.value, w.startMs, w.endMs, w.durationMs)];
      }
      host.RemoveTemp(temp);
    }
  }

  /** The waits of one more window follow those of the windows before it. */
  lemma SleepsStep(start: seq<nat>, remote: Remote, maxRetries: nat, i: nat)
    ensures start + SleepsOf(remote, maxRetries, i + 1)
            == (start + SleepsOf(remote, maxRetries, i)) + WindowSleeps(remote, maxRetries, i)
  {
  }

  /** The files left behind by one more window add to those of the windows before it. */
  lemma LeakStep(start: set<nat>, mid: set<nat>, after: set<nat>, remote: Remote, i: nat)
    requires Grew(start, mid, LeakCount(remote, i))
    requires Grew(mid, after, if Leaks(remote, i) then 1 else 0)
    ensures Grew(start, after, LeakCount(remote, i + 1))
  {
  }

  lemma RampStep(total: nat, i: nat)
    requires i < total
    ensures Ramp(total)[..i + 1] == Ramp(total)[..i] + [RampAt(total, i)]
  {
  }

  lemma SurvivorsStep(remote: Remote, maxRetries: nat, ws: seq<Window>, i: nat)
    requires i < |ws|
    ensures Survivors(remote, maxRetries, ws[..i + 1])
            == Survivors(remote, maxRetries, ws[..i]) + Survivor(remote, maxRetries, i, ws[i])
  {
    assert ws[..i + 1][..i] == ws[..i];
  }

  /** One pass of the loop: report the progress for window `i` of `total`, then process
      the window. */
  method ReportAndProcess(host: Host, remote: Remote, maxRetries: nat, total: nat, i: nat, w: Window)
    returns (kept: seq<Piece>)
    requires i < total && host.Valid()
    modifies host
    ensures host.Valid() && host.live == old(host.live)
    ensures Grew(old(host.leaked), host.leaked, if Leaks(remote, i) then 1 else 0)
    ensures kept == Survivor(remote, maxRetries, i, w)
    ensures host.progress == old(host.progress) + [RampAt(total, i)]
    ensures host.sleeps == old(host.sleeps) + WindowSleeps(remote, maxRetries, i)
  {
    host.ReportProgress(RampAt(total, i));
    kept := ProcessWindow(host, remote, maxRetries, i, w);
  }

  /** The `for i, chunk in enumerate(chunks)` loop of `_process_large_file`: report the
      progress for window i, then process it. */
  method TranscribeWindows(host: Host, remote: Remote, maxRetries: nat, chunks: seq<Window>)
    returns (transcripts: seq<Piece>)
    requires host.Valid()
    modifies host
    ensures host.Valid()
    ensures host.live == old(host.live)
    ensures Grew(old(host.leaked), host.leaked, LeakCount(remote, |chunks|))
    ensures transcripts == Survivors(remote, maxRetries, chunks)
    ensures host.progress == old(host.progress) + Ramp(|chunks|)
    ensures host.sleeps == old(host.sleeps) + SleepsOf(remote, maxRetries, |chunks|)
  {
    transcripts := [];
    var total := |chunks|;
    ghost var ramp := Ramp(total);
    for i := 0 to total
      invariant host.Valid() && host.live == old(host.live)
      invariant Grew(old(host.leaked), host.leaked, LeakCount(remote, i))
      invariant transcripts == Survivors(remote, maxRetries, chunks[..i])
      invariant host.progress == old(host.progress) + ramp[..i]
      invariant host.sleeps == old(host.sleeps) + SleepsOf(remote, maxRetries, i)
    {
      transcripts := AdvanceWindow(host, remote, maxRetries, chunks, i, transcripts,
                                   old(host.progress), old(host.sleeps), old(host.leaked));
    }
    assert chunks[..total] == chunks;
    assert ramp[..total] == ramp;
  }

  /** The loop of `TranscribeWindows` carried from window `i` to window `i + 1`, with the
      progress, waits and files left behind measured from the values before the loop. */
  method AdvanceWindow(host: Host, remote: Remote, maxRetries: nat, chunks: seq<Window>, i: nat,
                       transcripts: seq<Piece>, ghost progress0: seq<real>, ghost sleeps0: seq<nat>,
                       ghost leaked0: set<nat>)
    returns (next: seq<Piece>)
    requires i < |chunks| && host.Valid()
    requires transcripts == Survivors(remote, maxRetries, chunks[..i])
    requires host.progress == progress0 + Ramp(|chunks|)[..i]
    requires host.sleeps == sleeps0 + SleepsOf(remote, maxRetries, i)
    requires Grew(leaked0, host.leaked, LeakCount(remote, i))
    modifies host
    ensures host.Valid() && host.live == old(host.live)
    ensures next == Survivors(remote, maxRetries, chunks[..i + 1])
    ensures host.progress == progress0 + Ramp(|chunks|)[..i + 1]
    ensures host.sleeps == sleeps0 + SleepsOf(remote, maxRetries, i + 1)
    ensures Grew(leaked0, host.leaked, LeakCount(remote, i + 1))
  {
    ghost var leakedBefore := host.leaked;
    var kept := ReportAndProcess(host, remote, maxRetries, |chunks|, i, chunks[i]);
    LeakStep(leaked0, leakedBefore, host.leaked, remote, i);
    RampStep(|chunks|, i);
    SurvivorsStep(remote, maxRetries, chunks, i);
    SleepsStep(sleeps0, remote, maxRetries, i);
    next := transcripts + kept;
  }

  /** `_process_large_file`. It never raises: a window that fails is skipped, and a file
      that cannot be cut gives no windows and an empty merge. */
  method ProcessLargeFile(host: Host, format: string, remote: Remote, cfg: Config) returns (report: Report)
    requires host.Valid()
    modifies host
    ensures host.Valid()
    ensures host.live == old(host.live)
    ensures Grew(old(host.leaked), host.leaked, LeakCount(remote, |Cut(remote.decodedMs, cfg.chunkSeconds)|))
    ensures var ws := Cut(remote.decodedMs, cfg.chunkSeconds);
      && report.chunkCount == |ws|
      && report.chunksProcessed == Some(|Survivors(remote, cfg.maxRetries, ws)|)
      && report.transcript == Merged(Survivors(remote, cfg.maxRetries, ws), format)
      && host.progress == old(host.progress) + [20.0, 25.0] + Ramp(|ws|) + [90.0]
      && host.sleeps == old(host.sleeps) + SleepsOf(remote, cfg.maxRetries, |ws|)
  {
    host.ReportProgress(20.0);
    var chunks := ChunkAudioFile(remote.decodedMs, cfg.chunkSeconds);
    host.ReportProgress(25.0);
    ghost var begun := host.progress;
    assert begun == old(host.progress) + [20.0, 25.0];
    var transcripts := TranscribeWindows(host, remote, cfg.maxRetries, chunks);
    host.ReportProgress(90.0);
    assert host.progress == begun + Ramp(|chunks|) + [90.0];
    var merged;
    if format == "text" {
      merged := Join(" ", Texts(transcripts));
      MergedPlainText(transcripts);
    } else {
      merged := MergeTimestampedTranscripts(transcripts, format);
    }
    report := Report(merged, |chunks|, Some(|transcripts|));
  }

  /** What `_process_single_file` returns: a temporary file that cannot be written and a
      remote call that gives up are failures; otherwise the transcript is the whole file's. */
  function SingleFileOutcome(remote: Remote, cfg: Config): Result<Report, Fault>
  {
    var c := Call(remote.respond(0), cfg.maxRetries);
    if !remote.tempOk(0) then Failure(TempFileFailed)
    else if c.result.Failure? then Failure(ApiFailed(c.result.error))
    else Success(Report(c.result.value, 1, None))
  }

  /** The progress values `_process_single_file` reports: 30 always, 60 once the temporary
      file is written, 100 once the transcript is back. */
  function SingleFileProgress(remote: Remote, cfg: Config): seq<real>
  {
    if !remote.tempOk(0) then [30.0]
    else if Call(remote.respond(0), cfg.maxRetries).result.Failure? then [30.0, 60.0]
    else [30.0, 60.0, 100.0]
  }

  /** What `_process_large_file` returns: one window per cut, the survivors merged. */
  function LargeFileReport(remote: Remote, cfg: Config, format: string): Report
  {
    var ws := Cut(remote.decodedMs, cfg.chunkSeconds);
    var ps := Survivors(remote, cfg.maxRetries, ws);
    Report(Merged(ps, format), |ws|, Some(|ps|))
  }

  /** The result of the processing after validation, by the path the size selects. */
  function Transcription(size: nat, format: string, remote: Remote, cfg: Config): Result<Report, Fault>
  {
    if ShouldChunkFile(SizeInMb(size), cfg.thresholdMb) then Success(LargeFileReport(remote, cfg, format))
    else SingleFileOutcome(remote, cfg)
  }

  /** The progress values reported after validation, by path. */
  function TranscriptionProgress(size: nat, remote: Remote, cfg: Config): seq<real>
  {
    if ShouldChunkFile(SizeInMb(size), cfg.thresholdMb)
    then [20.0, 25.0] + Ramp(|Cut(remote.decodedMs, cfg.chunkSeconds)|) + [90.0]
    else SingleFileProgress(remote, cfg)
  }

  /** The waits after validation, by path: every written window's on the split path, the
      whole file's call on the single path when its temporary file is written. */
  function TranscriptionSleeps(size: nat, remote: Remote, cfg: Config): seq<nat>
  {
    if ShouldChunkFile(SizeInMb(size), cfg.thresholdMb)
    then SleepsOf(remote, cfg.maxRetries, |Cut(remote.decodedMs, cfg.chunkSeconds)|)
    else if remote.tempOk(0) then Call(remote.respond(0), cfg.maxRetries).sleeps
    else []
  }

  /** How many files are left behind after validation, by path: one per window whose
      write fails after its file was created, or one for the whole file. */
  function TranscriptionLeaks(size: nat, remote: Remote, cfg: Config): nat
  {
    if ShouldChunkFile(SizeInMb(size), cfg.thresholdMb)
    then LeakCount(remote, |Cut(remote.decodedMs, cfg.chunkSeconds)|)
    else if Leaks(remote, 0) then 1
    else 0
  }

  /** `process_audio_file` with the given configuration: a rejected file raises before any
      progress is reported; otherwise 10 is reported and the size decides the path. */
  method ProcessAudioFile(host: Host, data: seq<byte>, filename: string, format: string,
                          remote: Remote, cfg: Config) returns (r: Result<Report, Fault>)
    requires host.Valid()
    modifies host
    ensures host.Valid()
    ensures host.live == old(host.live)
    ensures SecurityVerdict(data, filename).Rejected? ==>
      && r == Failure(Unsafe(SecurityVerdict(data, filename).reason))
      && host.progress == old(host.progress) && host.sleeps == old(host.sleeps)
      && host.leaked == old(host.leaked)
    ensures SecurityVerdict(data, filename).Accepted? ==>
      && r == Transcription(|data|, format, remote, cfg)
      && Grew(old(host.leaked), host.leaked, TranscriptionLeaks(|data|, remote, cfg))
      && host.progress == old(host.progress) + [10.0] + TranscriptionProgress(|data|, remote, cfg)
      && host.sleeps == old(host.sleeps) + TranscriptionSleeps(|data|, remote, cfg)
  {
    var verdict := ValidateFileSecurity(data, filename);
    if verdict.Rejected? {
      return Failure(Unsafe(verdict.reason));
    }
    host.ReportProgress(10.0);
    ghost var started := host.progress;
    r := TranscribeAccepted(host, |data|, format, remote, cfg);
    assert host.progress == started + TranscriptionProgress(|data|, remote, cfg);
  }

  /** The part of `process_audio_file` after the validation: the size decides the path. */
  method TranscribeAccepted(host: Host, size: nat, format: string, remote: Remote, cfg: Config)
    returns (r: Result<Report, Fault>)
    requires host.Valid()
    modifies host
    ensures host.Valid()
    ensures host.live == old(host.live)
    ensures r == Transcription(size, format, remote, cfg)
    ensures Grew(old(host.leaked), host.leaked, TranscriptionLeaks(size, remote, cfg))
    ensures host.progress == old(host.progress) + TranscriptionProgress(size, remote, cfg)
    ensures host.sleeps == old(host.sleeps) + TranscriptionSleeps(size, remote, cfg)
  {
    ghost var before := host.progress;
    if ShouldChunkFile(SizeInMb(size), cfg.thresholdMb) {
      var report := ProcessLargeFile(host, format, remote, cfg);
      r := Success(report);
      SplitPath(size, format, remote, cfg);
      Regroup(before, [20.0, 25.0], Ramp(|Cut(remote.decodedMs, cfg.chunkSeconds)|), [90.0]);
    } else {
      r := ProcessSingleFile(host, remote, cfg);
      SinglePath(size, format, remote, cfg);
    }
  }

  lemma Regroup(a: seq<real>, b: seq<real>, c: seq<real>, d: seq<real>)
    ensures a + b + c + d == a + (b + c + d)
  {
  }

  lemma SplitPath(size: nat, format: string, remote: Remote, cfg: Config)
    requires ShouldChunkFile(SizeInMb(size), cfg.thresholdMb)
    ensures Transcription(size, format, remote, cfg) == Success(LargeFileReport(remote, cfg, format))
    ensures TranscriptionProgress(size, remote, cfg)
            == [20.0, 25.0] + Ramp(|Cut(remote.decodedMs, cfg.chunkSeconds)|) + [90.0]
    ensures TranscriptionSleeps(size, remote, cfg)
            == SleepsOf(remote, cfg.maxRetries, |Cut(remote.decodedMs, cfg.chunkSeconds)|)
    ensures TranscriptionLeaks(size, remote, cfg) == LeakCount(remote, |Cut(remote.decodedMs, cfg.chunkSeconds)|)
  {
  }

  lemma SinglePath(size: nat, format: string, remote: Remote, cfg: Config)
    requires !ShouldChunkFile(SizeInMb(size), cfg.thresholdMb)
    ensures Transcription(size, format, remote, cfg) == SingleFileOutcome(remote, cfg)
    ensures TranscriptionProgress(size, remote, cfg) == SingleFileProgress(remote, cfg)
    ensures TranscriptionSleeps(size, remote, cfg)
            == if remote.tempOk(0) then Call(remote.respond(0), cfg.maxRetries).sleeps else []
    ensures TranscriptionLeaks(size, remote, cfg) == if Leaks(remote, 0) then 1 else 0
  {
  }

  /** The shape of the outcome on each path: the split path always succeeds and counts the
      windows it kept; the single path succeeds exactly when its temporary file is written
      and the call returns a transcript, which is then the report's text, and it reports
      100 only then. */
  lemma TranscriptionShape(size: nat, format: string, remote: Remote, cfg: Config)
    ensures var t := Transcription(size, format, remote, cfg);
      && (ShouldChunkFile(SizeInMb(size), cfg.thresholdMb) ==>
            t.Success? && t.value.chunksProcessed.Some?
            && t.value.chunkCount == |Cut(remote.decodedMs, cfg.chunkSeconds)|
            && t.value.chunksProcessed.value <= t.value.chunkCount
            && 100.0 !in TranscriptionProgress(size, remote, cfg))
    ensures var t := Transcription(size, format, remote, cfg);
      var c := Call(remote.respond(0), cfg.maxRetries);
      && (!ShouldChunkFile(SizeInMb(size), cfg.thresholdMb) ==>
            (t.Success? <==> remote.tempOk(0) && c.result.Success?)
            && (t.Success? ==> t.value == Report(c.result.value, 1, None))
            && (100.0 in TranscriptionProgress(size, remote, cfg) <==> t.Success?))
  {
    if ShouldChunkFile(SizeInMb(size), cfg.thresholdMb) {
      SplitProgressNeverCompletes(|Cut(remote.decodedMs, cfg.chunkSeconds)|);
    }
  }

  /** A file the validator accepts is at most 25 MiB, so with the shipped 25 MB threshold
      it never takes the split path. */
  lemma SplitPathUnreachable(data: seq<byte>, filename: string)
    requires SecurityVerdict(data, filename).Accepted?
    ensures !ShouldChunkFile(SizeInMb(|data|), Shipped.thresholdMb)
  {
    ShouldChunkIffOverThreshold(|data|, 25);
  }

  /** The app.py entry point: the shipped configuration under `error_handler`, so every
      failure is `None`. An accepted file always takes the single-file path, so a result
      exists exactly when its temporary file is written and the remote call returns a
      transcript, and the result carries that transcript. */
  method ProcessAudioFileLive(host: Host, data: seq<byte>, filename: string, format: string,
                              remote: Remote) returns (r: Option<Report>)
    requires host.Valid()
    modifies host
    ensures host.Valid()
    ensures host.live == old(host.live)
    ensures Grew(old(host.leaked), host.leaked,
                 if SecurityVerdict(data, filename).Accepted? && Leaks(remote, 0) then 1 else 0)
    ensures var c := Call(remote.respond(0), Shipped.maxRetries);
      r.Some? <==> SecurityVerdict(data, filename).Accepted? && remote.tempOk(0) && c.result.Success?
    ensures r.Some? ==> r.value == Report(Call(remote.respond(0), Shipped.maxRetries).result.value, 1, None)
    ensures r.Some? ==> host.progress == old(host.progress) + [10.0, 30.0, 60.0, 100.0]
    ensures SecurityVerdict(data, filename).Accepted? && remote.tempOk(0) ==>
      host.sleeps == old(host.sleeps) + Call(remote.respond(0), Shipped.maxRetries).sleeps
    ensures host.progress == old(host.progress)
      + (if SecurityVerdict(data, filename).Accepted? then [10.0] + SingleFileProgress(remote, Shipped) else [])
    ensures host.sleeps == old(host.sleeps)
      + (if SecurityVerdict(data, filename).Accepted? && remote.tempOk(0)
         then Call(remote.respond(0), Shipped.maxRetries).sleeps else [])
  {
    ghost var before := host.progress;
    var outcome;
    if SecurityVerdict(data, filename).Accepted? {
      SplitPathUnreachable(data, filename);
      SinglePath(|data|, format, remote, Shipped);
      outcome := ProcessAudioFile(host, data, filename, format, remote, Shipped);
      SingleFileShape(remote);
      CompletedProgress(before);
    } else {
      outcome := ProcessAudioFile(host, data, filename, format, remote, Shipped);
    }
    r := Guarded(outcome);
  }

  /** The single path with the shipped configuration: it succeeds exactly when the
      temporary file is written and the call returns a transcript, and then reports
      30, 60 and 100. */
  lemma SingleFileShape(remote: Remote)
    ensures var c := Call(remote.respond(0), Shipped.maxRetries);
      && (SingleFileOutcome(remote, Shipped).Success? <==> remote.tempOk(0) && c.result.Success?)
      && (SingleFileOutcome(remote, Shipped).Success? ==>
            SingleFileOutcome(remote, Shipped).value == Report(c.result.value, 1, None)
            && SingleFileProgress(remote, Shipped) == [30.0, 60.0, 100.0])
  {
  }

  lemma CompletedProgress(before: seq<real>)
    ensures before + [10.0] + [30.0, 60.0, 100.0] == before + [10.0, 30.0, 60.0, 100.0]
  {
  }

  /** No window leaves a file behind exactly when none of them is created and then
      fails its write. */
  lemma {:induction false} NoLeakIffNoFailedWrite(remote: Remote, n: nat)
    ensures LeakCount(remote, n) == 0 <==> forall i :: 0 <= i < n ==> !Leaks(remote, i)
  {
    if n > 0 {
      NoLeakIffNoFailedWrite(remote, n - 1);
    }
  }

  /** On the single path a file is left behind exactly when the run fails with
      `TempFileFailed` after the file was created; on the split path exactly when some
      window's write fails after its file was created. */
  lemma LeaksOnlyOnFailedWrites(size: nat, format: string, remote: Remote, cfg: Config)
    ensures !ShouldChunkFile(SizeInMb(size), cfg.thresholdMb) ==>
      (TranscriptionLeaks(size, remote, cfg) > 0 <==>
         Transcription(size, format, remote, cfg) == Failure(TempFileFailed) && remote.tempCreated(0))
    ensures ShouldChunkFile(SizeInMb(size), cfg.thresholdMb) ==>
      (TranscriptionLeaks(size, remote, cfg) > 0 <==>
         exists i :: 0 <= i < |Cut(remote.decodedMs, cfg.chunkSeconds)| && Leaks(remote, i))
  {
    NoLeakIffNoFailedWrite(remote, |Cut(remote.decodedMs, cfg.chunkSeconds)|);
  }

  /** The upload of a file that is created but cannot be written, as the code is written:
      the run fails with `TempFileFailed` and one file stays on disk. */
  method WriteFailureLeaks() returns (r: Result<Report, Fault>, left: nat)
    ensures r == Failure(TempFileFailed)
    ensures left == 1
  {
    var host := new Host();
    var remote := Remote((i: nat) => (n: nat) => Transcript(""), (i: nat) => false, (i: nat) => true, None);
    r := ProcessSingleFile(host, remote, Shipped);
    left := |host.leaked|;
  }

  /** The same failed write when the created file is removed before giving up: nothing
      stays on disk. */
  method WriteFailureRemoved() returns (h: Option<nat>, left: nat)
    ensures h.None?
    ensures left == 0
  {
    var host := new Host();
    h := host.CreateTempOrRemove(false, true);
    left := |host.leaked|;
  }

  lemma DivMonotone(a: real, b: real, d: real)
    requires 0.0 < d && a < b
    ensures a / d < b / d
  {
    assert b / d - a / d == (b - a) / d;
    assert (b - a) / d > 0.0;
  }

  /** The per-window progress values rise strictly and stay in [25, 85). */
  lemma RampRises(n: nat)
    ensures forall i, j :: 0 <= i < j < n ==> Ramp(n)[i] < Ramp(n)[j]
    ensures forall i :: 0 <= i < n ==> 25.0 <= Ramp(n)[i] < 85.0
  {
    var r := Ramp(n);
    forall i, j | 0 <= i < j < n
      ensures r[i] < r[j]
    {
      DivMonotone(i as real, j as real, n as real);
    }
    forall i | 0 <= i < n
      ensures 25.0 <= r[i] < 85.0
    {
      DivMonotone(i as real, n as real, n as real);
      assert n as real / n as real == 1.0;
      if i > 0 {
        DivMonotone(0.0, i as real, n as real);
      }
    }
  }

  /** On the split path the reported progress never falls, ends at 90 and never reaches
      100 (the value 25 is reported twice when there is at least one window). */
  lemma SplitProgressNeverCompletes(n: nat)
    ensures var p := [20.0, 25.0] + Ramp(n) + [90.0];
      && p[|p| - 1] == 90.0
      && (forall i, j :: 0 <= i < j < |p| ==> p[i] <= p[j])
      && 100.0 !in p
  {
    RampRises(n);
    var p := [20.0, 25.0] + Ramp(n) + [90.0];
    forall i, j | 0 <= i < j < |p|
      ensures p[i] <= p[j]
    {
      if 2 <= i && j < |p| - 1 {
        assert p[i] == Ramp(n)[i - 2] && p[j] == Ramp(n)[j - 2];
      } else if 2 <= i {
        assert p[i] == Ramp(n)[i - 2];
      } else if 2 <= j < |p| - 1 {
        assert p[j] == Ramp(n)[j - 2];
      }
    }
    forall i | 0 <= i < |p|
      ensures p[i] != 100.0
    {
      if 2 <= i < |p| - 1 {
        assert p[i] == Ramp(n)[i - 2];
      }
    }
  }

  /** The indices of the windows among the first `n` that succeed, in increasing order. */
  function SuccessIndices(remote: Remote, maxRetries: nat, n: nat): (idx: seq<nat>)
    ensures |idx| <= n
    ensures forall j :: 0 <= j < |idx| ==> idx[j] < n && Succeeds(remote, maxRetries, idx[j])
    ensures forall j, k :: 0 <= j < k < |idx| ==> idx[j] < idx[k]
    ensures forall i :: 0 <= i < n && Succeeds(remote, maxRetries, i) ==> i in idx
  {
    if n == 0 then []
    else SuccessIndices(remote, maxRetries, n - 1)
         + if Succeeds(remote, maxRetries, n - 1) then [n - 1] else []
  }

  /** The split path keeps exactly the windows that succeed, in window order: the j-th
      piece is the transcript and timing of the j-th succeeding window. */
  lemma {:induction false} SurvivorsAreSuccesses(remote: Remote, maxRetries: nat, ws: seq<Window>)
    ensures var idx := SuccessIndices(remote, maxRetries, |ws|);
      var ps := Survivors(remote, maxRetries, ws);
      && |ps| == |idx|
      && forall j :: 0 <= j < |ps| ==>
           idx[j] < |ws|
           && ps[j] == Piece(TranscriptOf(remote, maxRetries, idx[j]),
                             ws[idx[j]].startMs, ws[idx[j]].endMs, ws[idx[j]].durationMs)
    decreases |ws|
  {
    if ws != [] {
      var n := |ws| - 1;
      SurvivorsAreSuccesses(remote, maxRetries, ws[..n]);
      var idx := SuccessIndices(remote, maxRetries, |ws|);
      var prev := SuccessIndices(remote, maxRetries, n);
      var ps := Survivors(remote, maxRetries, ws);
      var before := Survivors(remote, maxRetries, ws[..n]);
      assert ps == before + Survivor(remote, maxRetries, n, ws[n]);
      forall j | 0 <= j < |ps|
        ensures idx[j] < |ws|
        ensures ps[j] == Piece(TranscriptOf(remote, maxRetries, idx[j]),
                               ws[idx[j]].startMs, ws[idx[j]].endMs, ws[idx[j]].durationMs)
      {
        if j < |before| {
          assert idx[j] == prev[j];
          assert ws[..n][prev[j]] == ws[prev[j]];
        }
      }
    }
  }

  /** A file that cannot be decoded is cut into nothing, and the split path still returns
      a report: no windows, none processed, and the merge of nothing. */
  lemma DecodeFailureIsNotAnError(remote: Remote, cfg: Config, format: string)
    requires remote.decodedMs.None?
    ensures Cut(remote.decodedMs, cfg.chunkSeconds) == []
    ensures Merged(Survivors(remote, cfg.maxRetries, []), format)
            == if format == "vtt" then "WEBVTT\n\n" else ""
  {
  }
}
