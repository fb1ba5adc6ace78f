/** The merge step of `TranscriptionProcessor` (utils.py, with an identical copy in app.py):
    `_seconds_to_srt_time`, `_seconds_to_vtt_time` and `_merge_timestamped_transcripts`.
    Times are whole milliseconds from the start of the audio. */
module Assembler {
  import opened Wrappers
  import opened Text

  /** One transcribed window: its text and its place in the audio. */
  datatype Piece = Piece(text: string, startMs: nat, endMs: nat, durationMs: nat)

  /** The four fields of a time stamp: `seconds // 3600`, `(seconds % 3600) // 60`,
      `seconds % 60` truncated, and the fraction of a second in truncated milliseconds. */
  function Fields(t: nat): (f: (nat, nat, nat, nat))
    ensures f.1 < 60 && f.2 < 60 && f.3 < 1000
    ensures f.0 * 3600000 + f.1 * 60000 + f.2 * 1000 + f.3 == t
  {
    FieldsAddUp(t);
    (t / 3600000, (t % 3600000) / 60000, (t % 60000) / 1000, t % 1000)
  }

  lemma FieldsAddUp(t: nat)
    ensures (t % 3600000) / 60000 < 60 && (t % 60000) / 1000 < 60
    ensures (t / 3600000) * 3600000 + ((t % 3600000) / 60000) * 60000
            + ((t % 60000) / 1000) * 1000 + t % 1000 == t
  {
    var h, r1 := t / 3600000, t % 3600000;
    var m, r2 := r1 / 60000, r1 % 60000;
    var s, r3 := r2 / 1000, r2 % 1000;
    DivModUnique(t, h * 60 + m, 60000, r2);
    DivModUnique(t, (h * 60 + m) * 60 + s, 1000, r3);
  }

  /** Division with remainder has only one answer. */
  lemma DivModUnique(t: int, q: int, d: int, r: int)
    requires d > 0 && 0 <= r < d && t == q * d + r
    ensures t / d == q && t % d == r
  {
    var q', r' := t / d, t % d;
    if q' < q { MulAtLeast(q - q', d); }
    if q < q' { MulAtLeast(q' - q, d); }
  }

  lemma MulAtLeast(a: int, d: int)
    requires a >= 1 && d > 0
    ensures a * d >= d
  {
  }

  /** `hh:mm:ss` followed by `sep` and `mmm`, each field zero-padded to at least 2, 2, 2
      and 3 digits (hours may take more). */
  function FormatTime(t: nat, sep: char): (s: string)
    ensures |s| >= 12
    ensures s[|s| - 4] == sep && s[|s| - 7] == ':' && s[|s| - 10] == ':'
  {
    FormatFields(Fields(t), sep)
  }

  function FormatFields(f: (nat, nat, nat, nat), sep: char): (s: string)
    requires f.1 < 60 && f.2 < 60 && f.3 < 1000
    ensures |s| >= 12
    ensures s[|s| - 4] == sep && s[|s| - 7] == ':' && s[|s| - 10] == ':'
  {
    PadNatExact(f.1, 2);
    PadNatExact(f.2, 2);
    PadNatExact(f.3, 3);
    PadNat(f.0, 2) + (":" + PadNat(f.1, 2) + ":" + PadNat(f.2, 2) + [sep] + PadNat(f.3, 3))
  }

  /** `_seconds_to_srt_time`: comma before the milliseconds. */
  function SrtTime(t: nat): string { FormatTime(t, ',') }

  /** `_seconds_to_vtt_time`: `secs:06.3f` prints the seconds as `ss.mmm`. */
  function VttTime(t: nat): string { FormatTime(t, '.') }

  /** Reads a time stamp back: hours are everything before the last ten characters. */
  function ParseTime(s: string, sep: char): Option<nat>
  {
    if |s| < 12 then None else ParseFields(s[..|s| - 10], s[|s| - 10..], sep)
  }

  /** The hours, then the fixed-width rest `:mm:ss` `sep` `mmm`. */
  function ParseFields(h: string, tail: string, sep: char): Option<nat>
    requires |tail| == 10
  {
    if tail[0] != ':' || tail[3] != ':' || tail[6] != sep then None
    else
      var m, sec, ms := tail[1..3], tail[4..6], tail[7..];
      if AllDigits(h) && AllDigits(m) && AllDigits(sec) && AllDigits(ms) then
        Some(Millis(ParseNat(h), ParseNat(m), ParseNat(sec), ParseNat(ms)))
      else None
  }

  /** The time in milliseconds of hours, minutes, seconds and milliseconds. */
  function Millis(h: nat, m: nat, sec: nat, ms: nat): nat
  {
    h * 3600000 + m * 60000 + sec * 1000 + ms
  }

  /** The printed fields add back up to the time: nothing is lost or rounded for a whole
      number of milliseconds. */
  lemma ParseFormatTime(t: nat, sep: char)
    ensures ParseTime(FormatTime(t, sep), sep) == Some(t)
  {
    var f := Fields(t);
    assert FormatTime(t, sep) == FormatFields(f, sep);
    ReadFieldValues(f, sep);
    assert Millis(f.0, f.1, f.2, f.3) == t;
  }

  /** The printed fields are read back as the numbers they print. */
  lemma ReadFieldValues(f: (nat, nat, nat, nat), sep: char)
    requires f.1 < 60 && f.2 < 60 && f.3 < 1000
    ensures ParseTime(FormatFields(f, sep), sep) == Some(Millis(f.0, f.1, f.2, f.3))
  {
    PadNatExact(f.1, 2);
    PadNatExact(f.2, 2);
    PadNatExact(f.3, 3);
    ParsePadNat(f.0, 2);
    ParsePadNat(f.1, 2);
    ParsePadNat(f.2, 2);
    ParsePadNat(f.3, 3);
    ReadFieldsBack(PadNat(f.0, 2), PadNat(f.1, 2), PadNat(f.2, 2), PadNat(f.3, 3), sep, f.0, f.1, f.2, f.3);
  }

  /** Any four digit strings of the printed widths are read back field by field. */
  lemma ReadFieldsBack(hh: string, mm: string, ss: string, mmm: string, sep: char, h: nat, m: nat, sec: nat, ms: nat)
    requires |hh| >= 2 && |mm| == 2 && |ss| == 2 && |mmm| == 3
    requires AllDigits(hh) && AllDigits(mm) && AllDigits(ss) && AllDigits(mmm)
    requires ParseNat(hh) == h && ParseNat(mm) == m && ParseNat(ss) == sec && ParseNat(mmm) == ms
    ensures ParseTime(hh + (":" + mm + ":" + ss + [sep] + mmm), sep) == Some(Millis(h, m, sec, ms))
  {
    var tail := ":" + mm + ":" + ss + [sep] + mmm;
    SplitAtTail(hh, tail);
    ReadTailBack(hh, tail, mm, ss, mmm, sep, h, m, sec, ms);
  }

  lemma SplitAtTail(hh: string, tail: string)
    requires |hh| >= 2 && |tail| == 10
    ensures ParseTime(hh + tail, ':') == ParseFields(hh, tail, ':')
    ensures forall sep :: ParseTime(hh + tail, sep) == ParseFields(hh, tail, sep)
  {
    var s := hh + tail;
    assert s[..|s| - 10] == hh && s[|s| - 10..] == tail;
  }

  lemma ReadTailBack(hh: string, tail: string, mm: string, ss: string, mmm: string, sep: char,
                     h: nat, m: nat, sec: nat, ms: nat)
    requires |mm| == 2 && |ss| == 2 && |mmm| == 3 && tail == ":" + mm + ":" + ss + [sep] + mmm
    requires AllDigits(hh) && AllDigits(mm) && AllDigits(ss) && AllDigits(mmm)
    requires ParseNat(hh) == h && ParseNat(mm) == m && ParseNat(ss) == sec && ParseNat(mmm) == ms
    ensures ParseFields(hh, tail, sep) == Some(Millis(h, m, sec, ms))
  {
    assert tail[0] == ':' && tail[3] == ':' && tail[6] == sep
        && tail[1..3] == mm && tail[4..6] == ss && tail[7..] == mmm by {
      TailParts(tail, mm, ss, mmm, sep);
    }
  }

  lemma TailParts(tail: string, mm: string, ss: string, mmm: string, sep: char)
    requires |mm| == 2 && |ss| == 2 && |mmm| == 3 && tail == ":" + mm + ":" + ss + [sep] + mmm
    ensures tail[0] == ':' && tail[3] == ':' && tail[6] == sep
    ensures tail[1..3] == mm && tail[4..6] == ss && tail[7..] == mmm
  {
  }

  /** Subtitle time stamps are ordered like the times they print. */
  lemma FormatTimeInjective(t1: nat, t2: nat, sep: char)
    requires FormatTime(t1, sep) == FormatTime(t2, sep)
    ensures t1 == t2
  {
    ParseFormatTime(t1, sep);
    ParseFormatTime(t2, sep);
  }

  /** One SRT cue, numbered `k`. */
  function SrtCue(k: nat, p: Piece): string
  {
    NatToString(k) + "\n" + SrtTime(p.startMs) + " --> " + SrtTime(p.endMs) + "\n" + p.text + "\n\n"
  }

  /** One WebVTT cue. */
  function VttCue(p: Piece): string
  {
    VttTime(p.startMs) + " --> " + VttTime(p.endMs) + "\n" + p.text + "\n\n"
  }

  /** The SRT cues: piece i is numbered i + 1, as `enumerate(transcripts, 1)` does. */
  function SrtCues(ps: seq<Piece>): (cues: seq<string>)
    ensures |cues| == |ps|
  {
    SrtCuesFrom(1, ps)
  }

  /** The SRT cues numbered from `k`. */
  function SrtCuesFrom(k: nat, ps: seq<Piece>): (cues: seq<string>)
    ensures |cues| == |ps|
    decreases |ps|
  {
    if ps == [] then [] else [SrtCue(k, ps[0])] + SrtCuesFrom(k + 1, ps[1..])
  }

  /** The WebVTT cues, one per piece, in order. */
  function VttCues(ps: seq<Piece>): (cues: seq<string>)
    ensures |cues| == |ps|
  {
    if ps == [] then [] else [VttCue(ps[0])] + VttCues(ps[1..])
  }

  /** Cue k of the SRT document is piece k's cue numbered k + 1: the number line, then the
      piece's start and end, then its text and a blank line (`SrtCue`). */
  lemma SrtCueLayout(ps: seq<Piece>, k: nat)
    requires k < |ps|
    ensures SrtCues(ps)[k] == SrtCue(k + 1, ps[k])
  {
    SrtCueAt(1, ps, k, k + 1);
  }

  lemma {:induction false} SrtCueAt(j: nat, ps: seq<Piece>, k: nat, n: nat)
    requires k < |ps| && n == j + k
    ensures SrtCuesFrom(j, ps)[k] == SrtCue(n, ps[k])
    decreases k
  {
    SrtCuesFromCons(j, ps);
    if k > 0 {
      SrtCueAt(j + 1, ps[1..], k - 1, n);
      IndexCons(SrtCue(j, ps[0]), SrtCuesFrom(j + 1, ps[1..]), k);
      assert ps[1..][k - 1] == ps[k];
    }
  }

  lemma SrtCuesFromCons(j: nat, ps: seq<Piece>)
    requires ps != []
    ensures SrtCuesFrom(j, ps) == [SrtCue(j, ps[0])] + SrtCuesFrom(j + 1, ps[1..])
  {
  }

  lemma IndexCons(x: string, rest: seq<string>, k: nat)
    requires 1 <= k <= |rest|
    ensures ([x] + rest)[k] == rest[k - 1]
  {
  }

  /** Cue k of the WebVTT cues is piece k's start and end, then its text and a blank
      line. */
  lemma {:induction false} VttCueLayout(ps: seq<Piece>, k: nat)
    requires k < |ps|
    ensures VttCues(ps)[k]
            == VttTime(ps[k].startMs) + " --> " + VttTime(ps[k].endMs) + "\n" + ps[k].text + "\n\n"
    decreases k
  {
    if k > 0 {
      VttCueLayout(ps[1..], k - 1);
    }
  }

  function Texts(ps: seq<Piece>): (ts: seq<string>)
    ensures |ts| == |ps| && forall i :: 0 <= i < |ps| ==> ts[i] == ps[i].text
  {
    if ps == [] then [] else [ps[0].text] + Texts(ps[1..])
  }

  /** What the merge produces for each format; any format other than `srt` and `vtt`
      falls back to the texts joined by single spaces. */
  function Merged(ps: seq<Piece>, format: string): string
  {
    if format == "srt" then Concat(SrtCues(ps))
    else if format == "vtt" then "WEBVTT\n\n" + Concat(VttCues(ps))
    else Join(" ", Texts(ps))
  }

  /** The split path joins plain text itself; the merge would do the same. */
  lemma MergedPlainText(ps: seq<Piece>)
    ensures Merged(ps, "text") == Join(" ", Texts(ps))
  {
    assert "text" != "srt" && "text" != "vtt";
  }

  /** The `for ...: result += cue` loops, starting from `prefix`. */
  method AppendCues(prefix: string, cues: seq<string>) returns (result: string)
    ensures result == prefix + Concat(cues)
  {
    result := prefix;
    for i := 0 to |cues|
      invariant result == prefix + Concat(cues[..i])
    {
      ConcatTake(cues, i);
      result := result + cues[i];
    }
    assert cues[..|cues|] == cues;
  }

  /** `_merge_timestamped_transcripts`. */
  method MergeTimestampedTranscripts(ps: seq<Piece>, format: string) returns (result: string)
    ensures result == Merged(ps, format)
  {
    if format == "srt" {
      result := AppendCues("", SrtCues(ps));
    } else if format == "vtt" {
      result := AppendCues("WEBVTT\n\n", VttCues(ps));
    } else {
      result := Join(" ", Texts(ps));
    }
  }

  // ---- reading a merged document back ---------------------------------------------

  /** A cue as a subtitle reader sees it: its two times and its text. */
  datatype Cue = Cue(startMs: nat, endMs: nat, text: string)

  function CueOf(p: Piece): Cue
  {
    Cue(p.startMs, p.endMs, p.text)
  }

  /** The text holds no blank line and does not end with a line break: every line break
      is followed, inside the text, by a character that is not one. Only such a text
      cannot end its cue early. */
  predicate NoBlankLine(text: string)
  {
    forall i :: 0 <= i < |text| && text[i] == '\n' ==> i + 1 < |text| && text[i + 1] != '\n'
  }

  /** Reads `start --> end` from a time line. */
  function ReadTimes(line: string, sep: char): Option<(nat, nat)>
  {
    var sp := IndexOf(line, ' ');
    if sp < 0 || !MatchAt(line, " --> ", sp) then None
    else
      match (ParseTime(line[..sp], sep), ParseTime(line[sp + 5..], sep))
      case (Some(st), Some(en)) => Some((st, en))
      case _ => None
  }

  /** Reads a time line, then the text up to the first blank line; answers the cue and
      what follows the blank line. */
  function ReadTimedCue(s: string, sep: char): (r: Option<(Cue, string)>)
    ensures r.Some? ==> |r.value.1| < |s|
  {
    var nl := IndexOf(s, '\n');
    if nl < 0 then None else ReadCueText(ReadTimes(s[..nl], sep), s[nl + 1..])
  }

  /** The text of a cue whose times were read: everything up to the first blank line. */
  function ReadCueText(times: Option<(nat, nat)>, body: string): (r: Option<(Cue, string)>)
    ensures r.Some? ==> |r.value.1| <= |body| - 2
  {
    var end := Find(body, "\n\n");
    if end < 0 || times.None? then None
    else Some((Cue(times.value.0, times.value.1, body[..end]), body[end + 2..]))
  }

  /** Reads an SRT document: cue after cue, a line holding the cue number, then the timed
      cue, until nothing is left. */
  function ReadSrt(doc: string): Option<seq<(nat, Cue)>>
    decreases |doc|
  {
    if doc == [] then Some([])
    else
      var nl := IndexOf(doc, '\n');
      if nl <= 0 || !AllDigits(doc[..nl]) then None
      else
        match ReadTimedCue(doc[nl + 1..], ',')
        case None => None
        case Some((cue, rest)) =>
          match ReadSrt(rest)
          case None => None
          case Some(more) => Some([(ParseNat(doc[..nl]), cue)] + more)
  }

  /** Reads the WebVTT cues that follow the header. */
  function ReadVttCues(doc: string): Option<seq<Cue>>
    decreases |doc|
  {
    if doc == [] then Some([])
    else
      match ReadTimedCue(doc, '.')
      case None => None
      case Some((cue, rest)) =>
        match ReadVttCues(rest)
        case None => None
        case Some(more) => Some([cue] + more)
  }

  /** Reads a WebVTT document: the header, then the cues. */
  function ReadVtt(doc: string): Option<seq<Cue>>
  {
    if |doc| >= 8 && doc[..8] == "WEBVTT\n\n" then ReadVttCues(doc[8..]) else None
  }

  lemma DigitsHaveNoBreak(s: string)
    requires AllDigits(s)
    ensures '\n' !in s && ' ' !in s
  {
  }

  /** A printed time holds no line break and no space. */
  lemma TimeHasNoBreak(t: nat, sep: char)
    requires sep == ',' || sep == '.'
    ensures '\n' !in FormatTime(t, sep) && ' ' !in FormatTime(t, sep)
  {
    var f := Fields(t);
    DigitsHaveNoBreak(PadNat(f.0, 2));
    DigitsHaveNoBreak(PadNat(f.1, 2));
    DigitsHaveNoBreak(PadNat(f.2, 2));
    DigitsHaveNoBreak(PadNat(f.3, 3));
    assert FormatTime(t, sep) == FormatFields(f, sep);
  }

  /** The first `c` of `a + [c] + b` is the one after `a` when `a` has none. */
  lemma IndexAfter(a: string, c: char, b: string)
    requires c !in a
    ensures IndexOf(a + [c] + b, c) == |a|
  {
    var s := a + [c] + b;
    assert s[|a|] == c;
    assert forall j :: 0 <= j < |a| ==> s[j] == a[j];
    forall m | |a| < m <= |s|
      ensures c in s[..m]
    {
      assert s[..m][|a|] == c;
    }
  }

  /** A time line made of two readable times around ` --> ` reads back as them. */
  lemma ReadTimesOf(a: string, b: string, sep: char, st: nat, en: nat)
    requires ' ' !in a && ParseTime(a, sep) == Some(st) && ParseTime(b, sep) == Some(en)
    ensures ReadTimes(a + " --> " + b, sep) == Some((st, en))
  {
    var line := a + " --> " + b;
    assert line == a + [' '] + ("--> " + b);
    IndexAfter(a, ' ', "--> " + b);
    assert line[|a|..|a| + 5] == " --> ";
    assert line[..|a|] == a && line[|a| + 5..] == b;
  }

  /** A printed time line reads back as its two times. */
  lemma ReadTimesBack(st: nat, en: nat, sep: char)
    requires sep == ',' || sep == '.'
    ensures ReadTimes(FormatTime(st, sep) + " --> " + FormatTime(en, sep), sep) == Some((st, en))
  {
    TimeHasNoBreak(st, sep);
    ParseFormatTime(st, sep);
    ParseFormatTime(en, sep);
    ReadTimesOf(FormatTime(st, sep), FormatTime(en, sep), sep, st, en);
  }

  /** No blank line starts inside a text that has none. */
  lemma NoBreakPairInside(text: string, rest: string, j: nat)
    requires NoBlankLine(text) && j < |text|
    ensures !MatchAt(text + "\n\n" + rest, "\n\n", j)
  {
    var body := text + "\n\n" + rest;
    assert body[j] == text[j];
    assert body[j..j + 2][0] == body[j] && body[j..j + 2][1] == body[j + 1];
    if text[j] == '\n' {
      assert body[j + 1] == text[j + 1];
    }
  }

  /** The first blank line after a text without one is the one that closes it. */
  lemma BlankLineAtEnd(text: string, rest: string)
    requires NoBlankLine(text)
    ensures Find(text + "\n\n" + rest, "\n\n") == |text|
  {
    var body := text + "\n\n" + rest;
    forall j | 0 <= j < |text|
      ensures !MatchAt(body, "\n\n", j)
    {
      NoBreakPairInside(text, rest, j);
    }
    assert body[|text|..|text| + 2] == "\n\n";
    assert MatchAt(body, "\n\n", |text|);
  }

  lemma ArrowLineHasNoBreak(a: string, b: string)
    requires '\n' !in a && '\n' !in b
    ensures '\n' !in a + " --> " + b
  {
  }

  /** A time line, a text without a blank line and the blank line closing it read back as
      one cue, and the reader resumes right after it. */
  lemma ReadTimedCueOf(line: string, text: string, rest: string, sep: char, st: nat, en: nat)
    requires '\n' !in line && ReadTimes(line, sep) == Some((st, en)) && NoBlankLine(text)
    ensures ReadTimedCue(line + "\n" + text + "\n\n" + rest, sep) == Some((Cue(st, en, text), rest))
  {
    var body := text + "\n\n" + rest;
    var s := line + "\n" + text + "\n\n" + rest;
    LineThenBody(line, text, rest);
    IndexAfter(line, '\n', body);
    BlankLineAtEnd(text, rest);
    TextThenRest(text, rest);
    ReadTimedCueStep(s, sep, |line|, |text|, st, en);
  }

  lemma LineThenBody(line: string, text: string, rest: string)
    ensures var s := line + "\n" + text + "\n\n" + rest;
      && s == line + ['\n'] + (text + "\n\n" + rest)
      && s[..|line|] == line && s[|line| + 1..] == text + "\n\n" + rest
  {
    var s := line + "\n" + text + "\n\n" + rest;
    assert s == line + ['\n'] + (text + "\n\n" + rest);
  }

  lemma TextThenRest(text: string, rest: string)
    ensures (text + "\n\n" + rest)[..|text|] == text && (text + "\n\n" + rest)[|text| + 2..] == rest
  {
  }

  /** `ReadTimedCue` once the line break, the blank line and the times are found. */
  lemma ReadTimedCueStep(s: string, sep: char, nl: nat, end: nat, st: nat, en: nat)
    requires nl < |s| && IndexOf(s, '\n') == nl
    requires Find(s[nl + 1..], "\n\n") == end && ReadTimes(s[..nl], sep) == Some((st, en))
    ensures ReadTimedCue(s, sep) == Some((Cue(st, en, s[nl + 1..][..end]), s[nl + 1..][end + 2..]))
  {
    ReadCueTextStep(ReadTimes(s[..nl], sep), s[nl + 1..], end, st, en);
  }

  lemma ReadCueTextStep(times: Option<(nat, nat)>, body: string, end: nat, st: nat, en: nat)
    requires Find(body, "\n\n") == end && times == Some((st, en))
    ensures ReadCueText(times, body) == Some((Cue(st, en, body[..end]), body[end + 2..]))
  {
  }

  /** A printed timed cue whose text has no blank line reads back as its times and text. */
  lemma ReadTimedCueBack(p: Piece, sep: char, rest: string)
    requires sep == ',' || sep == '.'
    requires NoBlankLine(p.text)
    ensures ReadTimedCue(FormatTime(p.startMs, sep) + " --> " + FormatTime(p.endMs, sep) + "\n"
                         + p.text + "\n\n" + rest, sep)
            == Some((CueOf(p), rest))
  {
    TimeHasNoBreak(p.startMs, sep);
    TimeHasNoBreak(p.endMs, sep);
    ReadTimesBack(p.startMs, p.endMs, sep);
    var line := FormatTime(p.startMs, sep) + " --> " + FormatTime(p.endMs, sep);
    ArrowLineHasNoBreak(FormatTime(p.startMs, sep), FormatTime(p.endMs, sep));
    ReadTimedCueOf(line, p.text, rest, sep, p.startMs, p.endMs);
  }

  /** A number line followed by a readable timed cue reads as that numbered cue, followed
      by what the rest of the document reads as. */
  lemma ReadSrtOf(num: string, timed: string, k: nat, cue: Cue, rest: string)
    requires |num| > 0 && AllDigits(num) && ParseNat(num) == k
    requires ReadTimedCue(timed, ',') == Some((cue, rest)) && ReadSrt(rest).Some?
    ensures ReadSrt(num + "\n" + timed) == Some([(k, cue)] + ReadSrt(rest).value)
  {
    var doc := num + "\n" + timed;
    DigitsHaveNoBreak(num);
    IndexAfter(num, '\n', timed);
    assert doc[..|num|] == num && doc[|num| + 1..] == timed;
  }

  lemma SrtCueParts(num: string, a: string, b: string, text: string, rest: string)
    ensures num + "\n" + a + " --> " + b + "\n" + text + "\n\n" + rest
            == num + "\n" + (a + " --> " + b + "\n" + text + "\n\n" + rest)
  {
  }

  /** One SRT cue reads back as its number, times and text, followed by what the rest of
      the document reads as. */
  lemma ReadSrtCue(k: nat, p: Piece, rest: string)
    requires NoBlankLine(p.text) && ReadSrt(rest).Some?
    ensures ReadSrt(SrtCue(k, p) + rest) == Some([(k, CueOf(p))] + ReadSrt(rest).value)
  {
    var num := NatToString(k);
    var a, b := SrtTime(p.startMs), SrtTime(p.endMs);
    SrtCueParts(num, a, b, p.text, rest);
    ParseNatToString(k);
    ReadTimedCueBack(p, ',', rest);
    ReadSrtOf(num, a + " --> " + b + "\n" + p.text + "\n\n" + rest, k, CueOf(p), rest);
  }

  /** The cues of the pieces, in order. */
  function CuesOf(ps: seq<Piece>): (cs: seq<Cue>)
    ensures |cs| == |ps|
  {
    seq(|ps|, i requires 0 <= i < |ps| => CueOf(ps[i]))
  }

  /** The cues of the pieces, numbered from `k`. */
  function NumberedCues(k: nat, ps: seq<Piece>): (cs: seq<(nat, Cue)>)
    ensures |cs| == |ps|
  {
    seq(|ps|, i requires 0 <= i < |ps| => (k + i, CueOf(ps[i])))
  }

  lemma NumberedCons(k: nat, ps: seq<Piece>)
    requires ps != []
    ensures NumberedCues(k, ps) == [(k, CueOf(ps[0]))] + NumberedCues(k + 1, ps[1..])
  {
    assert NumberedCues(k, ps)[1..] == NumberedCues(k + 1, ps[1..]);
  }

  lemma CuesCons(ps: seq<Piece>)
    requires ps != []
    ensures CuesOf(ps) == [CueOf(ps[0])] + CuesOf(ps[1..])
  {
    assert CuesOf(ps)[1..] == CuesOf(ps[1..]);
  }

  lemma SrtCuesCons(k: nat, ps: seq<Piece>)
    requires ps != []
    ensures Concat(SrtCuesFrom(k, ps)) == SrtCue(k, ps[0]) + Concat(SrtCuesFrom(k + 1, ps[1..]))
  {
    ConcatCons(SrtCue(k, ps[0]), SrtCuesFrom(k + 1, ps[1..]));
  }

  lemma VttCuesCons(ps: seq<Piece>)
    requires ps != []
    ensures Concat(VttCues(ps)) == VttCue(ps[0]) + Concat(VttCues(ps[1..]))
  {
    ConcatCons(VttCue(ps[0]), VttCues(ps[1..]));
  }

  /** One WebVTT cue reads back as its times and text. */
  lemma VttCueReadsBack(p: Piece, rest: string)
    requires NoBlankLine(p.text)
    ensures ReadTimedCue(VttCue(p) + rest, '.') == Some((CueOf(p), rest))
  {
    ReadTimedCueBack(p, '.', rest);
    CueParts(VttTime(p.startMs), VttTime(p.endMs), p.text, rest);
  }

  lemma ReadVttCuesStep(doc: string, cue: Cue, rest: string)
    requires ReadTimedCue(doc, '.') == Some((cue, rest)) && ReadVttCues(rest).Some?
    ensures ReadVttCues(doc) == Some([cue] + ReadVttCues(rest).value)
  {
  }

  lemma CueParts(a: string, b: string, text: string, rest: string)
    ensures (a + " --> " + b + "\n" + text + "\n\n") + rest == a + " --> " + b + "\n" + text + "\n\n" + rest
  {
  }

  lemma ConcatCons(x: string, rest: seq<string>)
    ensures Concat([x] + rest) == x + Concat(rest)
  {
    assert ([x] + rest)[1..] == rest;
  }

  /** SRT cues numbered from `k` read back as those numbers and the pieces' cues. */
  lemma {:induction false} ReadSrtCuesFrom(k: nat, ps: seq<Piece>)
    requires forall i :: 0 <= i < |ps| ==> NoBlankLine(ps[i].text)
    ensures ReadSrt(Concat(SrtCuesFrom(k, ps))) == Some(NumberedCues(k, ps))
    decreases |ps|
  {
    if ps == [] {
      assert SrtCuesFrom(k, ps) == [];
    } else {
      ReadSrtCuesFrom(k + 1, ps[1..]);
      SrtCuesCons(k, ps);
      ReadSrtCue(k, ps[0], Concat(SrtCuesFrom(k + 1, ps[1..])));
      NumberedCons(k, ps);
    }
  }

  /** A merged SRT document whose texts have no blank line reads back as the pieces, in
      order: cue i is numbered i + 1 and carries the piece's start, end and text. */
  lemma SrtReadsBack(ps: seq<Piece>)
    requires forall i :: 0 <= i < |ps| ==> NoBlankLine(ps[i].text)
    ensures var r := ReadSrt(Merged(ps, "srt"));
      && r.Some? && |r.value| == |ps|
      && forall i :: 0 <= i < |ps| ==> r.value[i] == (i + 1, Cue(ps[i].startMs, ps[i].endMs, ps[i].text))
  {
    MergedSrt(ps);
    ReadSrtCuesFrom(1, ps);
    NumberedFromOne(ps);
  }

  lemma MergedSrt(ps: seq<Piece>)
    ensures Merged(ps, "srt") == Concat(SrtCuesFrom(1, ps))
  {
  }

  lemma NumberedFromOne(ps: seq<Piece>)
    ensures forall i :: 0 <= i < |ps| ==>
      NumberedCues(1, ps)[i] == (i + 1, Cue(ps[i].startMs, ps[i].endMs, ps[i].text))
  {
  }

  /** WebVTT cues read back as the pieces' cues. */
  lemma {:induction false} ReadVttCuesBack(ps: seq<Piece>)
    requires forall i :: 0 <= i < |ps| ==> NoBlankLine(ps[i].text)
    ensures ReadVttCues(Concat(VttCues(ps))) == Some(CuesOf(ps))
    decreases |ps|
  {
    if ps == [] {
      assert VttCues(ps) == [];
    } else {
      var rest := Concat(VttCues(ps[1..]));
      ReadVttCuesBack(ps[1..]);
      VttCuesCons(ps);
      VttCueReadsBack(ps[0], rest);
      ReadVttCuesStep(VttCue(ps[0]) + rest, CueOf(ps[0]), rest);
      CuesCons(ps);
    }
  }

  /** A merged WebVTT document whose texts have no blank line reads back as the pieces'
      start, end and text, in order. */
  lemma VttReadsBack(ps: seq<Piece>)
    requires forall i :: 0 <= i < |ps| ==> NoBlankLine(ps[i].text)
    ensures var r := ReadVtt(Merged(ps, "vtt"));
      && r.Some? && |r.value| == |ps|
      && forall i :: 0 <= i < |ps| ==> r.value[i] == Cue(ps[i].startMs, ps[i].endMs, ps[i].text)
  {
    var doc := Merged(ps, "vtt");
    assert doc[..8] == "WEBVTT\n\n" && doc[8..] == Concat(VttCues(ps));
    ReadVttCuesBack(ps);
  }
}
