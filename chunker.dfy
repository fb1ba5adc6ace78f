/** `FileChunker` (utils.py): the decision to split a file and the fixed windows it is cut
    into. The decoded audio is represented only by its length in whole milliseconds; the
    bytes of each re-encoded window are not modelled, only its timing. */
module Chunker {
  import opened Wrappers

  /** `should_chunk_file`: split only when strictly above the threshold. */
  function ShouldChunkFile(fileSizeMb: real, thresholdMb: real): bool
  {
    fileSizeMb > thresholdMb
  }

  /** `len(file_bytes) / (1024 * 1024)`. */
  function SizeInMb(sizeBytes: nat): real
  {
    sizeBytes as real / 1048576.0
  }

  /** At byte level the decision is a strict comparison with the threshold in bytes, so a
      file of exactly the threshold is not split. */
  lemma ShouldChunkIffOverThreshold(sizeBytes: nat, thresholdMb: nat)
    ensures ShouldChunkFile(SizeInMb(sizeBytes), thresholdMb as real) <==> sizeBytes > thresholdMb * 1048576
    ensures sizeBytes == thresholdMb * 1048576 ==> !ShouldChunkFile(SizeInMb(sizeBytes), thresholdMb as real)
  {
    assert SizeInMb(sizeBytes) * 1048576.0 == sizeBytes as real;
  }

  /** One window of the cut, in milliseconds from the start of the audio. */
  datatype Window = Window(startMs: nat, endMs: nat, durationMs: nat)

  /** The windows of `range(start, total, len)`: each runs for `len` milliseconds except
      the last, which stops at the end of the audio. */
  function WindowsFrom(start: nat, total: nat, len: nat): seq<Window>
    requires len > 0
    decreases total - start
  {
    if start >= total then []
    else [Window(start, Min(start + len, total), Min(start + len, total) - start)]
         + WindowsFrom(start + len, total, len)
  }

  /** What `chunk_audio_file` returns: nothing when the audio could not be decoded (or the
      temporary copy could not be written) and nothing for a non-positive window length
      (`range` with step 0 raises, with a negative step it is empty); otherwise the windows
      over the whole decoded length. */
  function Cut(decodedMs: Option<nat>, chunkSeconds: int): seq<Window>
  {
    if decodedMs.None? || chunkSeconds <= 0 then []
    else WindowsFrom(0, decodedMs.value, chunkSeconds * 1000)
  }

  /** The shape of a cut of `total` milliseconds into windows of `len`: there are
      ceil(total / len) of them (stated without division), window k starts at k * len and
      ends at the smaller of (k + 1) * len and `total`, and its duration is end - start. */
  ghost predicate WindowLayout(ws: seq<Window>, total: nat, len: nat)
  {
    && (total == 0 ==> ws == [])
    && (total > 0 ==> |ws| >= 1 && (|ws| - 1) * len < total <= |ws| * len)
    && forall k :: 0 <= k < |ws| ==>
         && ws[k].startMs == k * len
         && ws[k].endMs == Min((k + 1) * len, total)
         && ws[k].durationMs == ws[k].endMs - ws[k].startMs
  }

  /** The layout of the windows from an arbitrary start, by induction on what is left. */
  lemma {:induction false} WindowsFromLayout(start: nat, total: nat, len: nat)
    requires len > 0
    ensures var ws := WindowsFrom(start, total, len);
      && (start >= total ==> ws == [])
      && (start < total ==> |ws| >= 1 && (|ws| - 1) * len < total - start <= |ws| * len)
      && forall k :: 0 <= k < |ws| ==>
           && ws[k].startMs == start + k * len
           && ws[k].endMs == Min(start + (k + 1) * len, total)
           && ws[k].durationMs == ws[k].endMs - ws[k].startMs
    decreases total - start
  {
    if start < total {
      var ws := WindowsFrom(start, total, len);
      var rest := WindowsFrom(start + len, total, len);
      WindowsFromLayout(start + len, total, len);
      assert ws == [ws[0]] + rest;
      assert |ws| == |rest| + 1;
      if start + len < total {
        assert (|rest| - 1) * len < total - start - len <= |rest| * len;
        assert (|ws| - 1) * len == |rest| * len;
        assert |ws| * len == |rest| * len + len;
      }
      forall k | 1 <= k < |ws|
        ensures ws[k].startMs == start + k * len
        ensures ws[k].endMs == Min(start + (k + 1) * len, total)
      {
        assert ws[k] == rest[k - 1];
        assert start + len + (k - 1) * len == start + k * len;
        assert start + len + k * len == start + (k + 1) * len;
      }
    }
  }

  lemma WindowsLayout(total: nat, len: nat)
    requires len > 0
    ensures WindowLayout(WindowsFrom(0, total, len), total, len)
  {
    WindowsFromLayout(0, total, len);
  }

  function SumDurations(ws: seq<Window>): nat
  {
    if ws == [] then 0 else ws[0].durationMs + SumDurations(ws[1..])
  }

  /** The windows tile the audio: each ends where the next starts, every window but the
      last is a full `len`, the last ends at `total` and is in (0, len], and the durations
      add up to `total - start`. */
  lemma {:induction false} WindowsTile(start: nat, total: nat, len: nat)
    requires len > 0 && start <= total
    ensures var ws := WindowsFrom(start, total, len);
      && SumDurations(ws) == total - start
      && (forall k :: 0 <= k < |ws| - 1 ==> ws[k].endMs == ws[k + 1].startMs && ws[k].durationMs == len)
      && (ws != [] ==> ws[0].startMs == start && ws[|ws| - 1].endMs == total
                       && 0 < ws[|ws| - 1].durationMs <= len)
    decreases total - start
  {
    if start < total {
      var w := WindowsFromStep(start, total, len);
      var rest := WindowsFrom(start + len, total, len);
      SumCons(w, rest);
      if start + len < total {
        WindowsTile(start + len, total, len);
        TileCons(w, rest, len);
      } else {
        assert rest == [];
      }
    }
  }

  /** The first window, and the windows after it. */
  lemma WindowsFromStep(start: nat, total: nat, len: nat) returns (w: Window)
    requires len > 0 && start < total
    ensures w == Window(start, Min(start + len, total), Min(start + len, total) - start)
    ensures WindowsFrom(start, total, len) == [w] + WindowsFrom(start + len, total, len)
  {
    w := Window(start, Min(start + len, total), Min(start + len, total) - start);
  }

  lemma SumCons(w: Window, rest: seq<Window>)
    ensures SumDurations([w] + rest) == w.durationMs + SumDurations(rest)
  {
    assert ([w] + rest)[1..] == rest;
  }

  /** A full window that ends where a tiling starts extends the tiling. */
  lemma TileCons(w: Window, rest: seq<Window>, len: nat)
    requires rest != [] && w.endMs == rest[0].startMs && w.durationMs == len
    requires forall k :: 0 <= k < |rest| - 1 ==> rest[k].endMs == rest[k + 1].startMs && rest[k].durationMs == len
    ensures var ws := [w] + rest;
      && (forall k :: 0 <= k < |ws| - 1 ==> ws[k].endMs == ws[k + 1].startMs && ws[k].durationMs == len)
      && ws[|ws| - 1] == rest[|rest| - 1]
  {
    var ws := [w] + rest;
    forall k | 1 <= k < |ws| - 1
      ensures ws[k].endMs == ws[k + 1].startMs && ws[k].durationMs == len
    {
      assert ws[k] == rest[k - 1] && ws[k + 1] == rest[k];
    }
  }

  /** `chunk_audio_file`: the `for` loop over `range(0, len(audio), chunk_length_ms)`. */
  method ChunkAudioFile(decodedMs: Option<nat>, chunkSeconds: int) returns (chunks: seq<Window>)
    ensures chunks == Cut(decodedMs, chunkSeconds)
    ensures decodedMs.None? || chunkSeconds <= 0 ==> chunks == []
    ensures decodedMs.Some? && chunkSeconds > 0 ==>
      WindowLayout(chunks, decodedMs.value, chunkSeconds * 1000) && SumDurations(chunks) == decodedMs.value
  {
    if decodedMs.None? || chunkSeconds <= 0 {
      return [];
    }
    var total := decodedMs.value;
    var chunkLengthMs := chunkSeconds * 1000;
    chunks := [];
    var i := 0;
    while i < total
      invariant chunks + WindowsFrom(i, total, chunkLengthMs) == WindowsFrom(0, total, chunkLengthMs)
      decreases total - i
    {
      var endMs := Min(i + chunkLengthMs, total);
      var w := WindowsFromStep(i, total, chunkLengthMs);
      assert chunks + WindowsFrom(i, total, chunkLengthMs)
          == (chunks + [w]) + WindowsFrom(i + chunkLengthMs, total, chunkLengthMs);
      chunks := chunks + [Window(i, endMs, endMs - i)];
      i := i + chunkLengthMs;
    }
    assert WindowsFrom(i, total, chunkLengthMs) == [];
    assert chunks == WindowsFrom(0, total, chunkLengthMs);
    WindowsLayout(total, chunkLengthMs);
    WindowsTile(0, total, chunkLengthMs);
  }

  /** 1000 seconds cut into 300-second windows: starts 0, 300, 600, 900 seconds and
      durations 300, 300, 300, 100 seconds. */
  lemma ThousandSecondsInFourWindows()
    ensures Cut(Some(1000000), 300) == [
      Window(0, 300000, 300000), Window(300000, 600000, 300000),
      Window(600000, 900000, 300000), Window(900000, 1000000, 100000)]
  {
    WindowsFromLayout(0, 1000000, 300000);
  }
}
