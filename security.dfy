/** The checks `SecurityManager` (utils.py) runs on uploaded audio and on API keys.
    File bytes are modelled as a sequence of `byte`; file names as strings. */
module Security {
  import opened Wrappers
  import opened Text

  newtype byte = b: int | 0 <= b < 256

  /** The hard ceiling on an upload: 25 MiB. */
  const MaxFileBytes: nat := 25 * 1024 * 1024

  const AllowedExtensions: seq<string> := [".mp3", ".wav", ".m4a", ".mp4", ".flac", ".ogg"]

  /** The container signatures in the order the source tries them:
      ID3 (MP3), RIFF (WAV), three zero bytes (MP4/M4A), fLaC, OggS. */
  const MagicNumbers: seq<seq<byte>> := [
    [0x49, 0x44, 0x33],
    [0x52, 0x49, 0x46, 0x46],
    [0x00, 0x00, 0x00],
    [0x66, 0x4C, 0x61, 0x43],
    [0x4F, 0x67, 0x67, 0x53]
  ]

  /** Why a file was refused; the source renders each as a message string. */
  datatype Rejection =
    | TooLarge(sizeBytes: nat)
    | UnsupportedExtension(ext: string)
    | NotAudio

  datatype Verdict = Accepted | Rejected(reason: Rejection)

  /** `os.path.splitext` (POSIX): the extension starts at the last dot of the last path
      component, provided something other than dots precedes it in that component. */
  function SplitExt(p: string): (parts: (string, string))
    ensures parts.0 + parts.1 == p
    ensures parts.1 == [] || (parts.1[0] == '.' && '/' !in parts.1 && '.' !in parts.1[1..])
  {
    var sepIndex := LastIndexOf(p, '/');
    var dotIndex := LastIndexOf(p, '.');
    if dotIndex > sepIndex && exists i :: sepIndex + 1 <= i < dotIndex && p[i] != '.' then
      assert p[dotIndex..][1..] == p[dotIndex + 1..];
      assert p[..dotIndex] + p[dotIndex..] == p;
      (p[..dotIndex], p[dotIndex..])
    else
      (p, "")
  }

  /** The extension the validator looks at: that of the lower-cased name. */
  function LoweredExtension(filename: string): string
  {
    SplitExt(Lower(filename)).1
  }

  predicate IsStartedBy(data: seq<byte>, magic: seq<byte>) {
    |magic| <= |data| && data[..|magic|] == magic
  }

  /** The first eight bytes start with one of the known signatures. */
  predicate HasAudioSignature(data: seq<byte>) {
    var head := data[..Min(8, |data|)];
    exists k :: 0 <= k < |MagicNumbers| && IsStartedBy(head, MagicNumbers[k])
  }

  /** The magic-number scan: the loop over the signatures that stops at the first match. */
  method SniffAudio(data: seq<byte>) returns (isValidAudio: bool)
    ensures isValidAudio == HasAudioSignature(data)
  {
    var fileStart := data[..Min(8, |data|)];
    isValidAudio := false;
    var k := 0;
    while k < |MagicNumbers|
      invariant 0 <= k <= |MagicNumbers|
      invariant isValidAudio <==> exists j :: 0 <= j < k && IsStartedBy(fileStart, MagicNumbers[j])
    {
      if IsStartedBy(fileStart, MagicNumbers[k]) {
        isValidAudio := true;
        break;
      }
      k := k + 1;
    }
  }

  /** What `validate_file_security` decides: size first, then extension, then signature. */
  function SecurityVerdict(data: seq<byte>, filename: string): (v: Verdict)
    ensures v == Accepted <==>
      |data| <= MaxFileBytes && LoweredExtension(filename) in AllowedExtensions && HasAudioSignature(data)
    ensures |data| > MaxFileBytes ==> v == Rejected(TooLarge(|data|))
    ensures |data| <= MaxFileBytes && LoweredExtension(filename) !in AllowedExtensions ==>
      v == Rejected(UnsupportedExtension(LoweredExtension(filename)))
    ensures v == Rejected(NotAudio) <==>
      |data| <= MaxFileBytes && LoweredExtension(filename) in AllowedExtensions && !HasAudioSignature(data)
  {
    if |data| > MaxFileBytes then Rejected(TooLarge(|data|))
    else if LoweredExtension(filename) !in AllowedExtensions then
      Rejected(UnsupportedExtension(LoweredExtension(filename)))
    else if !HasAudioSignature(data) then Rejected(NotAudio)
    else Accepted
  }

  /** `SecurityManager.validate_file_security`. */
  method ValidateFileSecurity(data: seq<byte>, filename: string) returns (v: Verdict)
    ensures v == SecurityVerdict(data, filename)
  {
    if |data| > MaxFileBytes {
      return Rejected(TooLarge(|data|));
    }
    var fileExt := LoweredExtension(filename);
    if fileExt !in AllowedExtensions {
      return Rejected(UnsupportedExtension(fileExt));
    }
    var isValidAudio := SniffAudio(data);
    if !isValidAudio {
      return Rejected(NotAudio);
    }
    return Accepted;
  }

  /** Only the first bytes matter: looking at the first eight is the same as asking
      whether the whole buffer starts with a signature (every signature is shorter). */
  lemma {:induction false} SignatureOnlyReadsHead(data: seq<byte>)
    ensures HasAudioSignature(data) <==>
      exists k :: 0 <= k < |MagicNumbers| && IsStartedBy(data, MagicNumbers[k])
  {
    var head := data[..Min(8, |data|)];
    forall k | 0 <= k < |MagicNumbers|
      ensures IsStartedBy(head, MagicNumbers[k]) <==> IsStartedBy(data, MagicNumbers[k])
    {
      var m := MagicNumbers[k];
      assert |m| <= 4;
      if |m| <= |data| { assert head[..|m|] == data[..|m|]; }
    }
  }

  /** An oversized file gets the size reason whatever its name, an `.exe` included. */
  lemma OversizedExeGetsSizeReason(data: seq<byte>, filename: string)
    requires |data| > MaxFileBytes && LoweredExtension(filename) == ".exe"
    ensures SecurityVerdict(data, filename) == Rejected(TooLarge(|data|))
  {
  }

  /** The extension of a name with one dot, no slash and nothing to lower-case. */
  lemma {:induction false} SimpleExtension(name: string, dot: nat)
    requires 0 < dot < |name|
    requires forall i :: 0 <= i < |name| ==> 'a' <= name[i] <= 'z' || '0' <= name[i] <= '9' || i == dot
    requires name[dot] == '.'
    ensures LoweredExtension(name) == name[dot..]
  {
    LowerIdentity(name);
    assert '/' !in name;
    var d := LastIndexOf(name, '.');
    assert d == dot;
  }

  lemma {:induction false} LowerIdentity(s: string)
    requires forall i :: 0 <= i < |s| ==> 'a' <= s[i] <= 'z' || '0' <= s[i] <= '9' || s[i] == '.'
    ensures Lower(s) == s
    decreases |s|
  {
    if s != [] {
      var t := s[1..];
      LowerIdentity(t);
      LowerCharKeeps(s[0]);
      assert Lower(s) == LowerChar(s[0]) + Lower(t);
      assert s == [s[0]] + t;
    }
  }

  lemma LowerCharKeeps(c: char)
    requires 'a' <= c <= 'z' || '0' <= c <= '9' || c == '.'
    ensures LowerChar(c) == [c]
  {
  }

  /** No signature is as short as the empty buffer. */
  lemma EmptyHasNoSignature()
    ensures !HasAudioSignature([])
  {
    forall k | 0 <= k < |MagicNumbers| ensures !IsStartedBy([], MagicNumbers[k]) {
      assert |MagicNumbers[k]| > 0;
    }
  }

  /** An empty buffer with an allowed name fails only at the signature check. */
  lemma EmptyBufferFailsAtSignature(filename: string)
    requires LoweredExtension(filename) in AllowedExtensions
    ensures SecurityVerdict([], filename) == Rejected(NotAudio)
  {
    EmptyHasNoSignature();
  }

  /** A file of acceptable size whose extension is `.exe` is refused for its type. */
  lemma ExeRejectedForType(data: seq<byte>, filename: string)
    requires |data| <= MaxFileBytes && LoweredExtension(filename) == ".exe"
    ensures SecurityVerdict(data, filename) == Rejected(UnsupportedExtension(".exe"))
  {
  }

  // ---- API keys and file names ---------------------------------------------------

  /** `SecurityManager.validate_api_key`: non-empty, `sk-` prefix, at least 20 characters. */
  function ValidateApiKey(apiKey: string): (ok: bool)
    ensures ok ==> StartsWith(apiKey, "sk-") && |apiKey| >= 20
    ensures StartsWith(apiKey, "sk-") && |apiKey| >= 20 ==> ok
  {
    apiKey != [] && StartsWith(apiKey, "sk-") && |apiKey| >= 20
  }

  /** `SecurityManager.mask_api_key`: short keys become `***`, others keep only their first
      eight and last four characters around `...`. */
  function MaskApiKey(apiKey: string): (masked: string)
    ensures |apiKey| < 8 ==> masked == "***"
    ensures |apiKey| >= 8 ==>
      |masked| == 15 && masked[..8] == apiKey[..8] && masked[8..11] == "..." &&
      masked[11..] == apiKey[|apiKey| - 4..]
  {
    if apiKey == [] || |apiKey| < 8 then "***"
    else apiKey[..8] + "..." + apiKey[|apiKey| - 4..]
  }

  /** A key the validator accepts is always long enough to be masked, the mask keeps its
      `sk-` prefix, and at least eight of its characters are hidden. */
  lemma ValidKeyMask(apiKey: string)
    requires ValidateApiKey(apiKey)
    ensures StartsWith(MaskApiKey(apiKey), "sk-")
    ensures |apiKey| - 12 >= 8
  {
    var m := MaskApiKey(apiKey);
    assert m[..3] == m[..8][..3] == apiKey[..8][..3] == apiKey[..3];
  }

  const DangerousChars: string := "<>:\"/\\|?*"

  /** What the replacement loop makes of one character. */
  function SafeChar(c: char): char
  {
    if c in DangerousChars then '_' else c
  }

  /** `str.replace(c, '_')` for a single character `c`. */
  function ReplaceChar(s: string, c: char): (r: string)
    ensures |r| == |s|
    ensures forall i :: 0 <= i < |s| ==> r[i] == (if s[i] == c then '_' else s[i])
  {
    seq(|s|, i requires 0 <= i < |s| => if s[i] == c then '_' else s[i])
  }

  /** Every character of the name after the replacement loop. */
  function Cleaned(s: string): (r: string)
    ensures |r| == |s|
    ensures forall i :: 0 <= i < |s| ==> r[i] == SafeChar(s[i])
  {
    seq(|s|, i requires 0 <= i < |s| => SafeChar(s[i]))
  }

  /** `SecurityManager.sanitize_filename`: every dangerous character becomes `_`; a name over
      100 characters keeps the first 90 characters of its stem and its whole extension. */
  method SanitizeFilename(filename: string) returns (r: string)
    ensures forall i :: 0 <= i < |r| ==> r[i] !in DangerousChars
    ensures |filename| <= 100 ==> r == Cleaned(filename)
    ensures |filename| > 100 ==>
      r == SplitExt(Cleaned(filename)).0[..Min(90, |SplitExt(Cleaned(filename)).0|)] + SplitExt(Cleaned(filename)).1
  {
    r := ReplaceDangerous(filename);
    if |r| > 100 {
      var parts := SplitExt(r);
      TruncatedStaysSafe(r, Min(90, |parts.0|));
      r := parts.0[..Min(90, |parts.0|)] + parts.1;
    }
  }

  /** The replacement loop: one `str.replace` per dangerous character. */
  method ReplaceDangerous(filename: string) returns (r: string)
    ensures r == Cleaned(filename)
  {
    r := filename;
    var k := 0;
    while k < |DangerousChars|
      invariant 0 <= k <= |DangerousChars|
      invariant |r| == |filename|
      invariant forall i :: 0 <= i < |r| ==>
        r[i] == if filename[i] in DangerousChars[..k] then '_' else filename[i]
    {
      var next := ReplaceChar(r, DangerousChars[k]);
      ReplaceStep(filename, r, k, next);
      r := next;
      k := k + 1;
    }
    assert DangerousChars[..k] == DangerousChars;
    assert r == Cleaned(filename);
  }

  /** One pass of the replacement loop adds the next dangerous character to those replaced. */
  lemma ReplaceStep(filename: string, r: string, k: nat, next: string)
    requires k < |DangerousChars| && |r| == |filename|
    requires forall i :: 0 <= i < |r| ==>
      r[i] == if filename[i] in DangerousChars[..k] then '_' else filename[i]
    requires next == ReplaceChar(r, DangerousChars[k])
    ensures |next| == |filename|
    ensures forall i :: 0 <= i < |next| ==>
      next[i] == if filename[i] in DangerousChars[..k + 1] then '_' else filename[i]
  {
    assert DangerousChars[..k + 1] == DangerousChars[..k] + [DangerousChars[k]];
  }

  /** Cutting the stem of a safe name leaves it safe. */
  lemma TruncatedStaysSafe(s: string, n: nat)
    requires forall i :: 0 <= i < |s| ==> s[i] !in DangerousChars
    requires n <= |SplitExt(s).0|
    ensures forall i :: 0 <= i < |SplitExt(s).0[..n] + SplitExt(s).1| ==>
      (SplitExt(s).0[..n] + SplitExt(s).1)[i] !in DangerousChars
  {
    var parts := SplitExt(s);
    var t := parts.0[..n] + parts.1;
    forall i | 0 <= i < |t| ensures t[i] !in DangerousChars {
      if i < n {
        assert t[i] == s[i];
      } else {
        assert t[i] == s[|parts.0| + i - n];
      }
    }
  }
}
