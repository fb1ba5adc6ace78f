/** The upload tab's own logic (upload_tab.py) and the speaking-speed scale of utils.py:
    the size and format check of an uploaded file, the statistics added to an AI analysis
    and the colour lookups. Numbers that are floats in the source are `real` here, so the
    model computes exactly where the source rounds. */
module Upload {
  import opened Wrappers
  import opened Text
  import opened Collections
  import Security

  // ---- _validate_file --------------------------------------------------------------------

  /** `ALLOWED_FORMATS` (config.py): extensions without the dot. */
  const AllowedFormats: seq<string> := ["mp3", "wav", "m4a", "mp4"]

  /** `FILE_SIZE_LIMITS["max_file_size"]` (config.py). */
  const MaxUploadBytes: nat := 25 * 1024 * 1024

  datatype UploadProblem = FileTooLarge | UnsupportedFormat

  /** `os.path.splitext(name)[1].lower()[1:]`. */
  function UploadExtension(name: string): string
  {
    var ext := Lower(Security.SplitExt(name).1);
    if ext == [] then [] else ext[1..]
  }

  /** `_validate_file`: `None` when the file may be transcribed; the size is checked
      before the format. */
  function ValidateUpload(name: string, size: nat): (r: Option<UploadProblem>)
    ensures r == None <==> size <= MaxUploadBytes && UploadExtension(name) in AllowedFormats
    ensures size > MaxUploadBytes ==> r == Some(FileTooLarge)
    ensures r == Some(UnsupportedFormat) <==> size <= MaxUploadBytes && UploadExtension(name) !in AllowedFormats
  {
    if size > MaxUploadBytes then Some(FileTooLarge)
    else if UploadExtension(name) !in AllowedFormats then Some(UnsupportedFormat)
    else None
  }

  predicate IsLowerAlnum(s: string)
  {
    forall i :: 0 <= i < |s| ==> 'a' <= s[i] <= 'z' || '0' <= s[i] <= '9'
  }

  /** For a plain lower-case name both validators see the same extension, one with and
      one without its dot. */
  lemma PlainNameExtensions(stem: string, ext: string)
    requires stem != [] && IsLowerAlnum(stem) && IsLowerAlnum(ext)
    ensures Security.LoweredExtension(stem + "." + ext) == "." + ext
    ensures UploadExtension(stem + "." + ext) == ext
  {
    PlainNameChars(stem, ext);
    PlainNameSplit(stem + "." + ext, |stem|);
    AfterStem(stem, ext);
    DottedLower(ext);
  }

  lemma AfterStem(stem: string, ext: string)
    ensures (stem + "." + ext)[|stem|..] == "." + ext
    ensures ("." + ext)[1..] == ext
  {
  }

  lemma PlainNameSplit(name: string, dot: nat)
    requires 0 < dot < |name| && name[dot] == '.'
    requires forall i :: 0 <= i < |name| ==> 'a' <= name[i] <= 'z' || '0' <= name[i] <= '9' || i == dot
    ensures Security.LoweredExtension(name) == name[dot..]
    ensures Security.SplitExt(name).1 == name[dot..]
  {
    Security.SimpleExtension(name, dot);
    Security.LowerIdentity(name);
  }

  lemma DottedLower(ext: string)
    requires IsLowerAlnum(ext)
    ensures Lower("." + ext) == "." + ext
  {
    var d := "." + ext;
    forall i | 0 <= i < |d| ensures 'a' <= d[i] <= 'z' || '0' <= d[i] <= '9' || d[i] == '.' {
      if i > 0 { assert d[i] == ext[i - 1]; }
    }
    Security.LowerIdentity(d);
  }

  lemma PlainNameChars(stem: string, ext: string)
    requires IsLowerAlnum(stem) && IsLowerAlnum(ext)
    ensures forall i :: 0 <= i < |stem + "." + ext| ==>
              'a' <= (stem + "." + ext)[i] <= 'z' || '0' <= (stem + "." + ext)[i] <= '9' || i == |stem|
    ensures (stem + "." + ext)[|stem|] == '.'
  {
    var name := stem + "." + ext;
    forall i | 0 <= i < |name|
      ensures 'a' <= name[i] <= 'z' || '0' <= name[i] <= '9' || i == |stem|
    {
      if i > |stem| { assert name[i] == ext[i - |stem| - 1]; }
      else if i < |stem| { assert name[i] == stem[i]; }
    }
  }

  /** FLAC and Ogg are accepted by the security validator but not by the upload check. */
  lemma ListedForSecurityOnly(ext: string)
    requires ext == "flac" || ext == "ogg"
    ensures "." + ext in Security.AllowedExtensions && ext !in AllowedFormats
  {
    if ext == "flac" {
      assert "." + ext == Security.AllowedExtensions[4];
    } else {
      assert "." + ext == Security.AllowedExtensions[5];
    }
  }

  /** A FLAC or Ogg file of allowed size with a valid signature passes the security
      validator but is refused by the upload check. */
  lemma SecurityAcceptsWhatUploadRefuses(data: seq<Security.byte>, stem: string, ext: string)
    requires ext == "flac" || ext == "ogg"
    requires stem != [] && IsLowerAlnum(stem)
    requires |data| <= MaxUploadBytes && Security.HasAudioSignature(data)
    ensures Security.SecurityVerdict(data, stem + "." + ext) == Security.Accepted
    ensures ValidateUpload(stem + "." + ext, |data|) == Some(UnsupportedFormat)
  {
    var name := stem + "." + ext;
    PlainNameExtensions(stem, ext);
    ListedForSecurityOnly(ext);
  }

  // ---- text statistics -------------------------------------------------------------------

  function CountNonBlank(pieces: seq<string>): (n: nat)
    ensures n <= |pieces|
  {
    if pieces == [] then 0
    else (if IsBlank(pieces[0]) then 0 else 1) + CountNonBlank(pieces[1..])
  }

  /** `len([s for s in text.split('.') if s.strip()])`. */
  function SentenceCount(text: string): nat
  {
    CountNonBlank(SplitOn(text, '.'))
  }

  /** Only dots and whitespace: nothing that makes a sentence. */
  predicate OnlyDotsAndSpaces(text: string)
  {
    forall i :: 0 <= i < |text| ==> IsSpace(text[i]) || text[i] == '.'
  }

  /** There is no sentence exactly when the text holds nothing but dots and whitespace. */
  lemma {:induction false} NoSentenceIffOnlyDots(text: string)
    ensures SentenceCount(text) == 0 <==> OnlyDotsAndSpaces(text)
    decreases |text|
  {
    var i := IndexOf(text, '.');
    if i < 0 {
      SentencesWithoutDot(text);
    } else {
      SentencesAtDot(text, i);
      NoSentenceIffOnlyDots(text[i + 1..]);
      SplitAtDot(text, i);
    }
  }

  /** A text without a dot is one piece, a sentence unless it is blank. */
  lemma SentencesWithoutDot(text: string)
    requires '.' !in text
    ensures SentenceCount(text) == if IsBlank(text) then 0 else 1
    ensures OnlyDotsAndSpaces(text) <==> IsBlank(text)
  {
    assert SplitOn(text, '.') == [text];
    if !IsBlank(text) {
      var j :| 0 <= j < |text| && !IsSpace(text[j]);
      assert text[j] != '.';
    }
  }

  /** The first dot ends the first piece; the count goes on after it. */
  lemma SentencesAtDot(text: string, i: nat)
    requires i < |text| && i == IndexOf(text, '.')
    ensures SentenceCount(text) == (if IsBlank(text[..i]) then 0 else 1) + SentenceCount(text[i + 1..])
  {
    var head, rest := text[..i], SplitOn(text[i + 1..], '.');
    assert SplitOn(text, '.') == [head] + rest;
    assert ([head] + rest)[1..] == rest;
  }

  /** A text split at a dot holds only dots and whitespace exactly when the part before is
      blank and the part after holds only dots and whitespace. */
  lemma SplitAtDot(text: string, i: nat)
    requires i < |text| && text[i] == '.' && '.' !in text[..i]
    ensures OnlyDotsAndSpaces(text) <==> IsBlank(text[..i]) && OnlyDotsAndSpaces(text[i + 1..])
  {
    var head, rest := text[..i], text[i + 1..];
    if OnlyDotsAndSpaces(text) {
      forall j | 0 <= j < |head| ensures IsSpace(head[j]) {
        assert head[j] == text[j];
        assert head[j] in text[..i];
      }
      forall j | 0 <= j < |rest| ensures IsSpace(rest[j]) || rest[j] == '.' {
        assert rest[j] == text[i + 1 + j];
      }
    }
    if IsBlank(head) && OnlyDotsAndSpaces(rest) {
      forall j | 0 <= j < |text| ensures IsSpace(text[j]) || text[j] == '.' {
        if j < i { assert text[j] == head[j]; }
        else if j > i { assert text[j] == rest[j - i - 1]; }
      }
    }
  }

  /** `words_per_minute`: the word count over the length in minutes, 0 without a positive
      length. */
  function WordsPerMinute(wordCount: nat, durationSeconds: real): (wpm: real)
    ensures durationSeconds <= 0.0 ==> wpm == 0.0
    ensures durationSeconds > 0.0 ==> wpm * durationSeconds == 60.0 * wordCount as real
    ensures wpm >= 0.0
  {
    var minutes := if durationSeconds > 0.0 then durationSeconds / 60.0 else 0.0;
    if minutes > 0.0 then
      var wpm := wordCount as real / minutes;
      assert wpm * minutes == wordCount as real;
      wpm
    else 0.0
  }

  /** `content_quality['speech_rate']`. */
  function SpeechRate(wpm: real): (rate: string)
    ensures rate == "Normal" <==> 120.0 <= wpm <= 180.0
    ensures rate == "Hızlı" <==> wpm > 180.0
    ensures rate == "Yavaş" <==> wpm < 120.0
  {
    if 120.0 <= wpm <= 180.0 then "Normal" else if wpm > 180.0 then "Hızlı" else "Yavaş"
  }

  /** `content_quality['audio_quality']`, from the average level in dB. */
  function AudioQuality(avgDb: real): (quality: string)
    ensures quality == "Yüksek" <==> avgDb > -12.0
    ensures quality == "Orta" <==> -20.0 < avgDb <= -12.0
    ensures quality == "Düşük" <==> avgDb <= -20.0
  {
    if avgDb > -12.0 then "Yüksek" else if avgDb > -20.0 then "Orta" else "Düşük"
  }

  /** `get_speech_speed_category` (utils.py), on a finer scale than `SpeechRate`. */
  function SpeedCategory(wpm: real): (category: string)
    ensures category == "🐌 Yavaş" <==> wpm < 120.0
    ensures category == "🚶 Normal" <==> 120.0 <= wpm < 160.0
    ensures category == "🏃 Hızlı" <==> 160.0 <= wpm < 200.0
    ensures category == "🏃‍♂️ Çok Hızlı" <==> wpm >= 200.0
  {
    if wpm < 120.0 then "🐌 Yavaş"
    else if wpm < 160.0 then "🚶 Normal"
    else if wpm < 200.0 then "🏃 Hızlı"
    else "🏃‍♂️ Çok Hızlı"
  }

  /** The two scales disagree: 170 words a minute is "Normal" for the analysis and
      "Hızlı" (fast) for the speed category. */
  lemma ScalesDisagree()
    ensures SpeechRate(170.0) == "Normal" && SpeedCategory(170.0) == "🏃 Hızlı"
  {
  }

  // ---- word frequency --------------------------------------------------------------------

  const Stopwords: set<string> := {
    "ve", "bir", "bu", "da", "de", "ile", "için", "olan", "olarak",
    "var", "yok", "gibi", "kadar", "daha", "çok", "az", "ya", "ya da",
    "ama", "fakat", "ancak", "lakin", "hem", "ise", "eğer", "şayet",
    "ki", "mi", "mı", "mu", "mü", "ne", "nasıl", "neden", "niçin",
    "ben", "sen", "o", "biz", "siz", "onlar", "şu"}

  const Punctuation: set<char> := {'.', ',', '!', '?', ';', ':', '"', '(', ')', '[', ']', '{', '}'}

  /** `word.lower().strip('.,!?;:"()[]{}')`. */
  function CleanWord(word: string): string
  {
    StripChars(Lower(word), Punctuation)
  }

  predicate Counted(word: string)
  {
    |CleanWord(word)| > 2 && CleanWord(word) !in Stopwords
  }

  /** The cleaned words that are counted, in order. */
  function Kept(words: seq<string>): (clean: seq<string>)
    ensures |clean| <= |words|
    ensures forall k :: 0 <= k < |clean| ==> |clean[k]| > 2 && clean[k] !in Stopwords
  {
    if words == [] then []
    else
      var last := words[|words| - 1];
      Kept(words[..|words| - 1]) + (if Counted(last) then [CleanWord(last)] else [])
  }

  /** The words kept from a prefix of the text are a prefix of those kept from all of it. */
  lemma {:induction false} KeptPrefix(words: seq<string>, i: nat)
    requires i <= |words|
    ensures Kept(words[..i]) <= Kept(words)
    decreases |words|
  {
    if i < |words| {
      var init := words[..|words| - 1];
      assert init[..i] == words[..i];
      KeptPrefix(init, i);
    } else {
      assert words[..i] == words;
    }
  }

  /** Every counted word is kept, cleaned, at the position given by the counted words
      before it. */
  lemma KeptWord(words: seq<string>, i: nat)
    requires i < |words| && Counted(words[i])
    ensures |Kept(words[..i])| < |Kept(words)|
    ensures Kept(words)[|Kept(words[..i])|] == CleanWord(words[i])
  {
    assert words[..i + 1][..i] == words[..i];
    assert Kept(words[..i + 1]) == Kept(words[..i]) + [CleanWord(words[i])];
    KeptPrefix(words, i + 1);
  }

  /** A counted word comes after every earlier counted word in the kept list. */
  lemma KeptInOrder(words: seq<string>, i: nat, j: nat)
    requires i < j <= |words| && Counted(words[i])
    ensures |Kept(words[..i])| < |Kept(words[..j])|
  {
    var pre := words[..j];
    assert pre[..i] == words[..i] && pre[i] == words[i];
    KeptWord(pre, i);
  }

  /** Every kept word is the cleaned form of a counted word, the one with exactly `k`
      counted words before it. */
  lemma {:induction false} KeptFrom(words: seq<string>, k: nat)
    requires k < |Kept(words)|
    ensures exists i {:trigger CleanWord(words[i])} :: 0 <= i < |words| && Counted(words[i]) && |Kept(words[..i])| == k
                        && Kept(words)[k] == CleanWord(words[i])
    decreases |words|
  {
    var n := |words|;
    var init := words[..n - 1];
    if k < |Kept(init)| {
      KeptFrom(init, k);
      var i :| 0 <= i < |init| && Counted(init[i]) && |Kept(init[..i])| == k
               && Kept(init)[k] == CleanWord(init[i]);
      KeptFromEarlier(words, init, k, i);
    } else {
      KeptFromLast(words, init, k);
    }
  }

  /** A kept word past those of all but the last word is the last word's. */
  lemma KeptFromLast(words: seq<string>, init: seq<string>, k: nat)
    requires words != [] && init == words[..|words| - 1]
    requires |Kept(init)| <= k < |Kept(words)|
    ensures Counted(words[|words| - 1]) && |Kept(words[..|words| - 1])| == k
            && Kept(words)[k] == CleanWord(words[|words| - 1])
  {
    KeptLast(words);
  }

  /** A kept word traced back in all but the last word is traced back in all of them. */
  lemma KeptFromEarlier(words: seq<string>, init: seq<string>, k: nat, i: nat)
    requires words != [] && init == words[..|words| - 1] && i < |init|
    requires Counted(init[i]) && |Kept(init[..i])| == k && k < |Kept(init)|
    requires Kept(init)[k] == CleanWord(init[i])
    ensures Counted(words[i]) && |Kept(words[..i])| == k && k < |Kept(words)|
            && Kept(words)[k] == CleanWord(words[i])
  {
    assert init[..i] == words[..i];
    KeptPrefix(words, |words| - 1);
  }

  /** Each step of `Kept` adds the last word's cleaned form when it is counted. */
  lemma KeptLast(words: seq<string>)
    requires words != []
    ensures var init := words[..|words| - 1];
            var last := words[|words| - 1];
            Kept(words) == if Counted(last) then Kept(init) + [CleanWord(last)] else Kept(init)
  {
  }

  /** The `for word in words` loop that builds `clean_words`. */
  method CleanWords(words: seq<string>) returns (clean: seq<string>)
    ensures clean == Kept(words)
  {
    clean := [];
    for i := 0 to |words|
      invariant clean == Kept(words[..i])
    {
      assert words[..i + 1][..i] == words[..i];
      if Counted(words[i]) {
        clean := clean + [CleanWord(words[i])];
      }
    }
    assert words[..|words|] == words;
  }

  /** How often `w` occurs in `ws`: the word's entry in the `Counter`. */
  function Count(ws: seq<string>, w: string): nat
  {
    multiset(ws)[w]
  }

  /** The distinct words in order of first occurrence: the keys of a `Counter`. */
  function FirstSeen(ws: seq<string>): (r: seq<string>)
    ensures Distinct(r)
    ensures forall w :: w in r <==> w in ws
    ensures |r| <= |ws|
  {
    if ws == [] then []
    else
      var p := FirstSeen(ws[..|ws| - 1]);
      var w := ws[|ws| - 1];
      assert ws == ws[..|ws| - 1] + [w];
      if w in p then p else p + [w]
  }

  /** `len(set(clean_words))` is the number of distinct words. */
  lemma UniqueCount(ws: seq<string>)
    ensures |Elements(ws)| == |FirstSeen(ws)|
  {
    DistinctCard(FirstSeen(ws));
    assert Elements(ws) == Elements(FirstSeen(ws));
  }

  /** The first candidate with the highest count. */
  function BestIndex(cands: seq<string>, ws: seq<string>): (i: nat)
    requires cands != []
    ensures i < |cands|
    ensures forall j :: 0 <= j < |cands| ==> Count(ws, cands[j]) <= Count(ws, cands[i])
    ensures forall j :: 0 <= j < i ==> Count(ws, cands[j]) < Count(ws, cands[i])
    decreases |cands|
  {
    if |cands| == 1 then 0
    else
      var k := BestIndex(cands[1..], ws) + 1;
      if Count(ws, cands[0]) >= Count(ws, cands[k]) then 0 else k
  }

  /** `w` is one of the words listed in `r`. */
  predicate Listed(r: seq<(string, nat)>, w: string)
  {
    exists k :: 0 <= k < |r| && r[k].0 == w
  }

  /** No word appears twice in `r`. */
  predicate DistinctWords(r: seq<(string, nat)>)
  {
    forall a, b :: 0 <= a < b < |r| ==> r[a].0 != r[b].0
  }

  /** The candidates without the one at `i`. */
  function RemoveAt(xs: seq<string>, i: nat): (r: seq<string>)
    requires i < |xs| && Distinct(xs)
    ensures |r| == |xs| - 1 && Distinct(r)
    ensures forall x :: x in r <==> x in xs && x != xs[i]
  {
    var r := xs[..i] + xs[i + 1..];
    forall a, b | 0 <= a < b < |r| ensures r[a] != r[b] {
      var a' := if a < i then a else a + 1;
      var b' := if b < i then b else b + 1;
      assert r[a] == xs[a'] && r[b] == xs[b'];
    }
    forall x ensures x in r <==> x in xs && x != xs[i] {
      if x in r {
        var j :| 0 <= j < |r| && r[j] == x;
        var j' := if j < i then j else j + 1;
        assert r[j] == xs[j'];
      }
      if x in xs && x != xs[i] {
        var j :| 0 <= j < |xs| && xs[j] == x;
        if j < i { assert r[j] == x; } else { assert r[j - 1] == x; }
      }
    }
    r
  }

  /** What `most_common` promises of its list `r` over the candidate words: each entry is
      a candidate with its count, no word twice, counts non-increasing, and no candidate
      left out counts more than a listed word. */
  predicate Ranked(r: seq<(string, nat)>, cands: seq<string>, ws: seq<string>)
  {
    && (forall k :: 0 <= k < |r| ==> r[k].0 in cands && r[k].1 == Count(ws, r[k].0))
    && DistinctWords(r)
    && NonIncreasing(r)
    && (forall c :: c in cands && !Listed(r, c) ==> CountsAtLeast(r, Count(ws, c)))
  }

  /** `most_common(n)` over the candidates: repeatedly the first remaining candidate with
      the highest count, which is the order of a stable sort by decreasing count. */
  function MostCommonOf(cands: seq<string>, ws: seq<string>, n: nat): (r: seq<(string, nat)>)
    requires Distinct(cands)
    ensures |r| == Min(n, |cands|)
    ensures Ranked(r, cands, ws)
    ensures n >= |cands| ==> forall c :: c in cands ==> Listed(r, c)
    decreases n
  {
    if n == 0 || cands == [] then []
    else
      var i := BestIndex(cands, ws);
      var rest := MostCommonOf(RemoveAt(cands, i), ws, n - 1);
      var r := [(cands[i], Count(ws, cands[i]))] + rest;
      RankedCons(cands, ws, i, rest);
      assert n >= |cands| ==> forall c :: c in cands ==> Listed(r, c) by {
        if n >= |cands| {
          ListsAllCons(cands, i, Count(ws, cands[i]), rest);
        }
      }
      r
  }

  /** A list naming all the other candidates, with the picked one in front, names them all. */
  lemma ListsAllCons(cands: seq<string>, i: nat, count: nat, rest: seq<(string, nat)>)
    requires Distinct(cands) && i < |cands|
    requires forall c :: c in RemoveAt(cands, i) ==> Listed(rest, c)
    ensures forall c :: c in cands ==> Listed([(cands[i], count)] + rest, c)
  {
    var r := [(cands[i], count)] + rest;
    forall c | c in cands ensures Listed(r, c) {
      if c == cands[i] {
        assert r[0].0 == c;
      } else {
        assert c in RemoveAt(cands, i);
        var k :| 0 <= k < |rest| && rest[k].0 == c;
        assert r[k + 1] == rest[k];
      }
    }
  }

  /** Putting the best candidate in front of a ranking of the others ranks all of them. */
  lemma RankedCons(cands: seq<string>, ws: seq<string>, i: nat, rest: seq<(string, nat)>)
    requires Distinct(cands) && i < |cands| && i == BestIndex(cands, ws)
    requires Ranked(rest, RemoveAt(cands, i), ws)
    ensures Ranked([(cands[i], Count(ws, cands[i]))] + rest, cands, ws)
  {
    var top := (cands[i], Count(ws, cands[i]));
    var others := RemoveAt(cands, i);
    var r := [top] + rest;
    InOthers(cands, i, rest, ws);
    forall k | 0 <= k < |r| ensures r[k].0 in cands && r[k].1 == Count(ws, r[k].0) {
      if k > 0 { assert r[k] == rest[k - 1]; }
    }
    DistinctCons(top, rest, others);
    BestAboveRest(cands, ws, i, rest);
    ConsNonIncreasing(top, rest);
    forall c | c in cands && !Listed(r, c) ensures CountsAtLeast(r, Count(ws, c)) {
      LeftOutOfRest(top, rest, c);
      BestBeats(cands, ws, c);
      TopThenRest(top, rest, Count(ws, c));
    }
  }

  /** The words ranked among the others are candidates other than the one picked. */
  lemma InOthers(cands: seq<string>, i: nat, rest: seq<(string, nat)>, ws: seq<string>)
    requires Distinct(cands) && i < |cands|
    requires forall k :: 0 <= k < |rest| ==> rest[k].0 in RemoveAt(cands, i) && rest[k].1 == Count(ws, rest[k].0)
    ensures cands[i] !in RemoveAt(cands, i)
    ensures forall k :: 0 <= k < |rest| ==> rest[k].0 in cands && rest[k].1 == Count(ws, rest[k].0)
  {
  }

  lemma DistinctCons(top: (string, nat), rest: seq<(string, nat)>, words: seq<string>)
    requires top.0 !in words && DistinctWords(rest)
    requires forall k :: 0 <= k < |rest| ==> rest[k].0 in words
    ensures DistinctWords([top] + rest)
  {
    var r := [top] + rest;
    forall a, b | 0 <= a < b < |r| ensures r[a].0 != r[b].0 {
      assert r[b] == rest[b - 1];
      if a > 0 { assert r[a] == rest[a - 1]; }
    }
  }

  /** Counts never go up along the list. */
  predicate NonIncreasing(r: seq<(string, nat)>)
  {
    forall k, l :: 0 <= k < l < |r| ==> r[k].1 >= r[l].1
  }

  /** Every entry of `r` is counted at most `c` times. */
  predicate CountsAtMost(r: seq<(string, nat)>, c: nat)
  {
    forall k :: 0 <= k < |r| ==> r[k].1 <= c
  }

  /** Every entry of `r` is counted at least `c` times. */
  predicate CountsAtLeast(r: seq<(string, nat)>, c: nat)
  {
    forall k :: 0 <= k < |r| ==> c <= r[k].1
  }

  lemma BestAboveRest(cands: seq<string>, ws: seq<string>, i: nat, rest: seq<(string, nat)>)
    requires i < |cands| && i == BestIndex(cands, ws)
    requires forall k :: 0 <= k < |rest| ==> rest[k].0 in cands && rest[k].1 == Count(ws, rest[k].0)
    ensures CountsAtMost(rest, Count(ws, cands[i]))
  {
    forall k | 0 <= k < |rest| ensures rest[k].1 <= Count(ws, cands[i]) {
      BestBeats(cands, ws, rest[k].0);
    }
  }

  lemma ConsNonIncreasing(top: (string, nat), rest: seq<(string, nat)>)
    requires CountsAtMost(rest, top.1) && NonIncreasing(rest)
    ensures NonIncreasing([top] + rest)
  {
    var r := [top] + rest;
    forall k, l | 0 <= k < l < |r| ensures r[k].1 >= r[l].1 {
      assert r[l] == rest[l - 1];
      if k > 0 { assert r[k] == rest[k - 1]; }
    }
  }

  lemma BestBeats(cands: seq<string>, ws: seq<string>, w: string)
    requires cands != [] && w in cands
    ensures Count(ws, w) <= Count(ws, cands[BestIndex(cands, ws)])
  {
    var j :| 0 <= j < |cands| && cands[j] == w;
  }

  /** A word missing from a list is not its head and is missing from its tail. */
  lemma LeftOutOfRest(top: (string, nat), rest: seq<(string, nat)>, w: string)
    requires !Listed([top] + rest, w)
    ensures w != top.0 && !Listed(rest, w)
  {
    forall k | 0 <= k < |rest| ensures rest[k].0 != w {
      assert ([top] + rest)[k + 1] == rest[k];
    }
    assert ([top] + rest)[0] == top;
  }

  lemma TopThenRest(top: (string, nat), rest: seq<(string, nat)>, c: nat)
    requires c <= top.1 && CountsAtLeast(rest, c)
    ensures CountsAtLeast([top] + rest, c)
  {
    forall k | 0 <= k < |[top] + rest| ensures c <= ([top] + rest)[k].1 {
      if k > 0 { assert ([top] + rest)[k] == rest[k - 1]; }
    }
  }

  /** `Counter(clean_words).most_common(10)`: at most ten entries, each a counted word
      with its count, no word twice, counts non-increasing, and no word left out more
      frequent than a listed one. */
  function MostCommon(clean: seq<string>): (r: seq<(string, nat)>)
    ensures |r| <= 10 && (|r| < 10 ==> forall w :: w in clean ==> Listed(r, w))
    ensures forall k :: 0 <= k < |r| ==> r[k].0 in clean && r[k].1 == Count(clean, r[k].0)
    ensures DistinctWords(r) && NonIncreasing(r)
    ensures forall w :: w in clean && !Listed(r, w) ==> CountsAtLeast(r, Count(clean, w))
  {
    MostCommonOf(FirstSeen(clean), clean, 10)
  }

  /** `vocabulary_richness`: distinct words over counted words (at least one). */
  function Richness(clean: seq<string>): (v: real)
    ensures 0.0 <= v <= 1.0
    ensures clean != [] ==> v > 0.0
  {
    var u := |FirstSeen(clean)|;
    var n := Max(|clean|, 1);
    assert clean != [] ==> (clean[0] in FirstSeen(clean) && u > 0);
    RatioAtMostOne(u, n);
    u as real / n as real
  }

  lemma RatioAtMostOne(a: nat, b: nat)
    requires 0 < b && a <= b
    ensures 0.0 <= a as real / b as real <= 1.0
    ensures a > 0 ==> a as real / b as real > 0.0
  {
    var q := a as real / b as real;
    assert q * b as real == a as real;
  }

  // ---- _enhance_ai_analysis --------------------------------------------------------------

  /** A value read from `audio_info`: absent (the default is used), a number, or something
      that cannot be compared with or divided by a number. */
  datatype Reading = Missing | Value(v: real) | NotComparable

  datatype AudioInfo = AudioInfo(
    duration: Reading,
    avgDb: Reading,
    fileSizeBytes: Reading,
    sampleRate: Option<int>,
    channels: Option<int>)

  /** The entries of the analysis dictionary: what was there before (not inspected here)
      and the four records the enhancement adds. */
  datatype Entry =
    | Given(text: string)
    | TextStatistics(wordCount: nat, characterCount: nat, sentenceCount: nat,
                     averageWordsPerSentence: real, wordsPerMinute: real, readingTimeMinutes: real)
    | AudioMetadata(durationSeconds: real, durationMinutes: real, fileSizeMb: real,
                    sampleRate: int, channels: int, avgDb: real)
    | ContentQuality(speechRate: string, audioQuality: string)
    | WordFrequency(mostCommonWords: seq<(string, nat)>, uniqueWordCount: nat, vocabularyRichness: real)

  /** Comparing or dividing a value that is not a number raises before the dictionary is
      updated. */
  predicate Raises(audio: AudioInfo)
  {
    audio.duration.NotComparable? || audio.avgDb.NotComparable? || audio.fileSizeBytes.NotComparable?
  }

  function Reading0(r: Reading, default: real): real
    requires !r.NotComparable?
  {
    match r
    case Missing => default
    case Value(v) => v
  }

  function Statistics(text: string, audio: AudioInfo): Entry
    requires !Raises(audio)
  {
    var wordCount := |Words(text)|;
    var sentences := SentenceCount(text);
    TextStatistics(wordCount, |text|, sentences,
                   wordCount as real / Max(sentences, 1) as real,
                   WordsPerMinute(wordCount, Reading0(audio.duration, 0.0)),
                   wordCount as real / 200.0)
  }

  function Metadata(audio: AudioInfo): Entry
    requires !Raises(audio)
  {
    var d := Reading0(audio.duration, 0.0);
    AudioMetadata(d, if d > 0.0 then d / 60.0 else 0.0,
                  Reading0(audio.fileSizeBytes, 0.0) / 1048576.0,
                  match audio.sampleRate case None => 0 case Some(s) => s,
                  match audio.channels case None => 1 case Some(c) => c,
                  Reading0(audio.avgDb, -50.0))
  }

  function Quality(text: string, audio: AudioInfo): Entry
    requires !Raises(audio)
  {
    ContentQuality(SpeechRate(WordsPerMinute(|Words(text)|, Reading0(audio.duration, 0.0))),
                   AudioQuality(Reading0(audio.avgDb, -50.0)))
  }

  function Frequency(clean: seq<string>): Entry
  {
    WordFrequency(MostCommon(clean), |FirstSeen(clean)|, Richness(clean))
  }

  /** The keys the enhancement adds. */
  function NewKeys(text: string): set<string>
  {
    {"text_statistics", "audio_metadata", "content_quality"}
    + (if |Words(text)| > 10 then {"word_frequency"} else {})
  }

  /** The dictionary passed to `update`. */
  function Updates(text: string, audio: AudioInfo): map<string, Entry>
    requires !Raises(audio)
  {
    map["text_statistics" := Statistics(text, audio),
        "audio_metadata" := Metadata(audio),
        "content_quality" := Quality(text, audio)]
  }

  /** What `update` and the word-frequency step write into the dictionary. */
  function Additions(text: string, audio: AudioInfo): map<string, Entry>
    requires !Raises(audio)
  {
    var base := Updates(text, audio);
    if |Words(text)| > 10 then base["word_frequency" := Frequency(Kept(Words(text)))] else base
  }

  lemma SetAfterUpdate<K, V>(m: map<K, V>, u: map<K, V>, k: K, v: V)
    ensures (m + u)[k := v] == m + u[k := v]
  {
  }

  /** The enhancement adds exactly its own keys and leaves every other entry as it was. */
  lemma AdditionsOnlyAdd(entries: map<string, Entry>, text: string, audio: AudioInfo)
    requires !Raises(audio)
    ensures (entries + Additions(text, audio)).Keys == entries.Keys + NewKeys(text)
    ensures forall k :: k in entries && k !in NewKeys(text) ==> (entries + Additions(text, audio))[k] == entries[k]
  {
    assert Additions(text, audio).Keys == NewKeys(text);
  }

  /** Word frequencies are present exactly for texts of more than ten words. */
  lemma FrequencyOnlyForLongTexts(entries: map<string, Entry>, text: string, audio: AudioInfo)
    requires !Raises(audio) && "word_frequency" !in entries
    ensures "word_frequency" in entries + Additions(text, audio) <==> |Words(text)| > 10
  {
    AdditionsOnlyAdd(entries, text, audio);
  }

  /** The analysis dictionary, updated in place. */
  class AnalysisRecord {
    var entries: map<string, Entry>

    constructor (initial: map<string, Entry>)
      ensures entries == initial
    {
      entries := initial;
    }

    /** `_enhance_ai_analysis`: on an exception nothing is added and the dictionary comes
        back unchanged; otherwise the statistics, metadata and quality records are added,
        and the word frequencies for texts of more than ten words. */
    method Enhance(text: string, audio: AudioInfo)
      modifies this
      ensures Raises(audio) ==> entries == old(entries)
      ensures !Raises(audio) ==> entries == old(entries) + Additions(text, audio)
    {
      if Raises(audio) {
        return;
      }
      var words := Words(text);
      ghost var before := entries;
      entries := entries + Updates(text, audio);
      if |words| > 10 {
        var clean := CleanWords(words);
        SetAfterUpdate(before, Updates(text, audio), "word_frequency", Frequency(clean));
        entries := entries["word_frequency" := Frequency(clean)];
      }
    }
  }

  // ---- colours ---------------------------------------------------------------------------

  const Grey := "linear-gradient(135deg, #6b7280, #4b5563)"
  const Green := "linear-gradient(135deg, #10b981, #047857)"
  const Red := "linear-gradient(135deg, #ef4444, #dc2626)"
  const Orange := "linear-gradient(135deg, #f59e0b, #d97706)"

  const EmotionColors: map<string, string> := map[
    "Pozitif" := Green,
    "Negatif" := Red,
    "Nötr" := Grey,
    "Mutlu" := Orange,
    "Üzgün" := "linear-gradient(135deg, #3b82f6, #1d4ed8)",
    "Öfkeli" := "linear-gradient(135deg, #ef4444, #991b1b)",
    "Heyecanlı" := "linear-gradient(135deg, #8b5cf6, #7c3aed)",
    "Sakin" := "linear-gradient(135deg, #06b6d4, #0891b2)",
    "Gergin" := "linear-gradient(135deg, #f97316, #ea580c)",
    "Rahat" := "linear-gradient(135deg, #22c55e, #16a34a)"]

  /** `_get_emotion_color`: the listed gradient, grey for anything else. */
  function EmotionColor(emotion: string): (color: string)
    ensures emotion !in EmotionColors ==> color == Grey
    ensures emotion in EmotionColors ==> color == EmotionColors[emotion]
  {
    if emotion in EmotionColors then EmotionColors[emotion] else Grey
  }

  /** An unknown emotion looks neutral. */
  lemma UnknownLooksNeutral(emotion: string)
    requires emotion !in EmotionColors
    ensures EmotionColor(emotion) == EmotionColor("Nötr")
  {
  }

  /** `_get_sentiment_color`: green from 0.5 up, red from -0.5 down, orange between. */
  function SentimentColor(score: real): (color: string)
    ensures color == Green <==> score >= 0.5
    ensures color == Red <==> score <= -0.5
    ensures color == Orange <==> -0.5 < score < 0.5
  {
    if score >= 0.5 then Green else if score <= -0.5 then Red else Orange
  }
}
