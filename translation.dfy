/** `TranslationHelper` (export_utils.py): the Turkish/English guess, the skeleton of the
    translation call — its fall-backs and the fixed-size split of long texts — and the
    keyword-list translation of the exporters. The chat service is a function from the
    user message to the reply text, `None` standing for a missing reply or any exception;
    the pauses between calls are not modelled. */
module Translation {
  import opened Wrappers
  import opened Text

  // ---- language guess ------------------------------------------------------------------

  const TurkishChars: seq<char> := ['ç', 'ğ', 'ı', 'ş', 'ü', 'ö', 'Ç', 'Ğ', 'İ', 'Ş', 'Ü', 'Ö']

  const TurkishWords: seq<string> := [
    "bir", "bu", "şu", "o", "ben", "sen", "biz", "siz", "onlar", "var", "yok", "için",
    "ile", "kadar", "gibi", "çok", "az", "büyük", "küçük"]

  predicate HasTurkishChar(text: string)
  {
    exists i :: 0 <= i < |text| && text[i] in TurkishChars
  }

  /** `sum(1 for word in words if word in lowered)`: a listed word counts when it occurs
      anywhere in the text, inside another word included. */
  function CountContained(words: seq<string>, lowered: string): (n: nat)
    ensures n <= |words|
  {
    if words == [] then 0
    else (if Contains(lowered, words[0]) then 1 else 0) + CountContained(words[1..], lowered)
  }

  /** `count / total > 0.1`, compared exactly: more than a tenth. */
  predicate MoreThanATenth(count: nat, total: nat)
  {
    total > 0 && 10 * count > total
  }

  /** `detect_language`: "tr" when the text has a Turkish letter, or when more than a tenth
      of its whitespace-separated words is matched by listed words; "en" otherwise. */
  function DetectLanguage(text: string): (lang: string)
    ensures lang == "tr" || lang == "en"
    ensures HasTurkishChar(text) ==> lang == "tr"
    ensures !HasTurkishChar(text) && CountContained(TurkishWords, Lower(text)) == 0 ==> lang == "en"
    ensures !HasTurkishChar(text) && |Words(Lower(text))| == 0 ==> lang == "en"
    ensures !HasTurkishChar(text) ==>
      (lang == "tr" <==> |Words(Lower(text))| > 0
                         && 10 * CountContained(TurkishWords, Lower(text)) > |Words(Lower(text))|)
  {
    var lowered := Lower(text);
    if HasTurkishChar(text) then "tr"
    else if MoreThanATenth(CountContained(TurkishWords, lowered), |Words(lowered)|) then "tr"
    else "en"
  }

  /** The tenth is a strict bound: one matched listed word among ten words leaves the
      text English, one among nine makes it Turkish, under either way of counting. */
  lemma OneInTenIsNotEnough(text: string)
    requires !HasTurkishChar(text)
    ensures CountContained(TurkishWords, Lower(text)) == 1 ==>
      (|Words(Lower(text))| == 10 ==> DetectLanguage(text) == "en")
      && (|Words(Lower(text))| == 9 ==> DetectLanguage(text) == "tr")
    ensures CountWhole(TurkishWords, Words(Lower(text))) == 1 ==>
      (|Words(Lower(text))| == 10 ==> DetectLanguageWholeWords(text) == "en")
      && (|Words(Lower(text))| == 9 ==> DetectLanguageWholeWords(text) == "tr")
  {
  }

  /** Empty or whitespace-only text without Turkish letters is English. */
  lemma BlankTextIsEnglish(text: string)
    requires IsBlank(Lower(text)) && !HasTurkishChar(text)
    ensures DetectLanguage(text) == "en"
  {
    BlankHasNoWords(Lower(text));
  }

  lemma {:induction false} BlankHasNoWords(s: string)
    requires IsBlank(s)
    ensures Words(s) == []
    decreases |s|
  {
    if s != [] {
      BlankHasNoWords(s[1..]);
    }
  }

  /** The listed word "o" is a single letter, so any two-word text without Turkish letters
      that contains an "o" anywhere counts as Turkish. */
  lemma OInsideAWordMakesTurkish(text: string)
    requires !HasTurkishChar(text)
    requires Contains(Lower(text), "o") && |Words(Lower(text))| == 2
    ensures DetectLanguage(text) == "tr"
  {
    ContainedCountsAtLeastOne(TurkishWords, Lower(text), 3);
  }

  lemma {:induction false} ContainedCountsAtLeastOne(words: seq<string>, lowered: string, j: nat)
    requires j < |words| && Contains(lowered, words[j])
    ensures CountContained(words, lowered) >= 1
    decreases j
  {
    if j > 0 && !Contains(lowered, words[0]) {
      ContainedCountsAtLeastOne(words[1..], lowered, j - 1);
    }
  }

  /** `sum(1 for word in words if word in lowered.split())`: a listed word counts only
      when it is one of the text's words. */
  function CountWhole(words: seq<string>, tokens: seq<string>): (n: nat)
    ensures n <= |words|
  {
    if words == [] then 0
    else (if words[0] in tokens then 1 else 0) + CountWhole(words[1..], tokens)
  }

  /** The guess with whole-word matching. */
  function DetectLanguageWholeWords(text: string): (lang: string)
    ensures lang == "tr" || lang == "en"
    ensures HasTurkishChar(text) ==> lang == "tr"
    ensures !HasTurkishChar(text) && CountWhole(TurkishWords, Words(Lower(text))) == 0 ==> lang == "en"
    ensures !HasTurkishChar(text) ==>
      (lang == "tr" <==> |Words(Lower(text))| > 0
                         && 10 * CountWhole(TurkishWords, Words(Lower(text))) > |Words(Lower(text))|)
  {
    var tokens := Words(Lower(text));
    if HasTurkishChar(text) then "tr"
    else if MoreThanATenth(CountWhole(TurkishWords, tokens), |tokens|) then "tr"
    else "en"
  }

  lemma {:induction false} NoListedTokenCountsZero(words: seq<string>, tokens: seq<string>)
    requires forall j :: 0 <= j < |words| ==> words[j] !in tokens
    ensures CountWhole(words, tokens) == 0
    decreases |words|
  {
    if words != [] {
      NoListedTokenCountsZero(words[1..], tokens);
    }
  }

  /** With whole-word matching a text none of whose words is listed, and without Turkish
      letters, is English, however many listed words hide inside its words. */
  lemma WholeWordsIgnoreInnerMatches(text: string)
    requires !HasTurkishChar(text)
    requires forall j :: 0 <= j < |TurkishWords| ==> TurkishWords[j] !in Words(Lower(text))
    ensures DetectLanguageWholeWords(text) == "en"
  {
    NoListedTokenCountsZero(TurkishWords, Words(Lower(text)));
  }

  /** "hello world": English, reported as Turkish by the substring count ("o" occurs in
      "hello"), and as English by the whole-word count. */
  lemma HelloWorld()
    ensures DetectLanguage("hello world") == "tr"
    ensures DetectLanguageWholeWords("hello world") == "en"
  {
    HelloWorldWords();
    HelloWorldHasO();
    HelloWorldAscii();
    AsciiHasNoTurkishChar("hello world");
    OInsideAWordMakesTurkish("hello world");
    HelloWorldNotListed();
    WholeWordsIgnoreInnerMatches("hello world");
  }

  lemma HelloWorldAscii()
    ensures forall i :: 0 <= i < |"hello world"| ==> IsAsciiLowerOrSpace("hello world"[i])
  {
    var s := "hello world";
    forall i | 0 <= i < |s|
      ensures IsAsciiLowerOrSpace(s[i])
    {
      assert s[i] in "helo wrd";
    }
  }

  lemma HelloWorldWords()
    ensures Words(Lower("hello world")) == ["hello", "world"]
  {
    HelloWorldLower();
    HelloWorldSplit();
    HelloWorldLetters();
    WordsOfTwo("hello", "world");
  }

  lemma HelloWorldLower()
    ensures Lower("hello world") == "hello world"
  {
    HelloWorldAscii();
    LowerOfAsciiLower("hello world");
  }

  lemma HelloWorldSplit()
    ensures "hello world" == "hello" + " " + "world"
  {
  }

  lemma HelloWorldLetters()
    ensures forall i :: 0 <= i < |"hello"| ==> !IsSpace("hello"[i])
    ensures forall i :: 0 <= i < |"world"| ==> !IsSpace("world"[i])
  {
    LettersAreNotSpace("hello");
    LettersAreNotSpace("world");
  }

  lemma LettersAreNotSpace(w: string)
    requires forall i :: 0 <= i < |w| ==> w[i] in "dehlorw"
    ensures forall i :: 0 <= i < |w| ==> !IsSpace(w[i])
  {
    forall i | 0 <= i < |w| ensures !IsSpace(w[i]) {
      assert 'a' <= w[i] <= 'z';
    }
  }

  lemma HelloWorldHasO()
    ensures Contains(Lower("hello world"), "o")
  {
    HelloWorldAscii();
    LowerOfAsciiLower("hello world");
    LetterMakesContains("hello world", 4);
  }

  lemma LetterMakesContains(s: string, i: nat)
    requires i < |s|
    ensures Contains(s, [s[i]])
  {
    assert MatchAt(s, [s[i]], i);
  }

  lemma HelloWorldNotListed()
    ensures forall j :: 0 <= j < |TurkishWords| ==> TurkishWords[j] !in ["hello", "world"]
  {
    assert "hello" !in TurkishWords;
    assert "world" !in TurkishWords;
  }

  lemma AsciiHasNoTurkishChar(s: string)
    requires forall i :: 0 <= i < |s| ==> IsAsciiLowerOrSpace(s[i])
    ensures !HasTurkishChar(s)
  {
    forall i | 0 <= i < |s|
      ensures s[i] !in TurkishChars
    {
      assert s[i] < '\U{80}';
    }
  }

  predicate IsAsciiLowerOrSpace(c: char) { 'a' <= c <= 'z' || c == ' ' }

  lemma {:induction false} LowerOfAsciiLower(s: string)
    requires forall i :: 0 <= i < |s| ==> IsAsciiLowerOrSpace(s[i])
    ensures Lower(s) == s
    decreases |s|
  {
    if s != [] {
      LowerOfAsciiLower(s[1..]);
    }
  }

  // ---- translation ---------------------------------------------------------------------

  /** The chat service: the reply's text for a user message, `None` when there is no
      usable reply or the call raises. */
  type Chat = string -> Option<string>

  const LongTextLimit := 15000
  const PieceSize := 4000

  /** The instruction for each target; any other target gets the English one. */
  function PromptFor(target: string): string
  {
    if target == "tr" then
      "Translate the following English text to Turkish. Preserve formatting and provide only the translation without any explanations:"
    else if target == "auto" then
      "Detect the language and translate to the opposite (Turkish↔English). Preserve formatting and provide only the translation:"
    else
      "Translate the following Turkish text to English. Preserve formatting and provide only the translation without any explanations:"
  }

  function UserMessage(text: string, target: string): string
  {
    PromptFor(target) + "\n\nText to translate:\n" + text
  }

  /** `[text[i:i+size] for i in range(0, len(text), size)]`. */
  function FixedPieces(text: string, size: nat): (ps: seq<string>)
    requires size > 0
    ensures forall k :: 0 <= k < |ps| ==> 0 < |ps[k]| <= size
    ensures forall k :: 0 <= k < |ps| - 1 ==> |ps[k]| == size
    ensures text != [] <==> ps != []
    decreases |text|
  {
    if text == [] then []
    else if |text| <= size then [text]
    else [text[..size]] + FixedPieces(text[size..], size)
  }

  /** The pieces put back together give the text. */
  lemma {:induction false} FixedPiecesConcat(text: string, size: nat)
    requires size > 0
    ensures Concat(FixedPieces(text, size)) == text
    decreases |text|
  {
    if |text| > size {
      FixedPiecesConcat(text[size..], size);
      assert text == text[..size] + text[size..];
    }
  }

  /** One call to the service: the stripped reply, or the text itself when there is no
      reply or the reply is blank. */
  function TranslateOnce(text: string, target: string, chat: Chat): (r: string)
    ensures chat(UserMessage(text, target)).None? ==> r == text
    ensures chat(UserMessage(text, target)).Some? ==>
      var reply := Strip(chat(UserMessage(text, target)).value);
      r == if reply == [] then text else reply
  {
    match chat(UserMessage(text, target))
    case None => text
    case Some(content) =>
      var t := Strip(content);
      if t == [] then text else t
  }

  /** `translate_text` on a text of at most 15000 characters, the client being present. */
  function TranslateShort(text: string, target: string, chat: Chat): string
  {
    if IsBlank(text) then text else TranslateOnce(text, target, chat)
  }

  function TranslateAll(pieces: seq<string>, target: string, chat: Chat): (ts: seq<string>)
    ensures |ts| == |pieces|
    ensures forall k :: 0 <= k < |pieces| ==> ts[k] == TranslateShort(pieces[k], target, chat)
  {
    if pieces == [] then [] else [TranslateShort(pieces[0], target, chat)] + TranslateAll(pieces[1..], target, chat)
  }

  /** `translate_text`: no client, or a blank text, gives the text back; a text over
      15000 characters is translated 4000 characters at a time and the pieces are joined
      by single spaces; otherwise one call decides. */
  function Translated(text: string, target: string, client: Option<Chat>): string
  {
    if client.None? || IsBlank(text) then text
    else if |text| > LongTextLimit then Join(" ", TranslateAll(FixedPieces(text, PieceSize), target, client.value))
    else TranslateOnce(text, target, client.value)
  }

  /** `translate_text`, with the loop over the pieces of a long text; each piece goes
      through `translate_text` again. */
  method TranslateText(text: string, target: string, client: Option<Chat>) returns (r: string)
    ensures r == Translated(text, target, client)
    decreases |text|, 1
  {
    if client.None? {
      return text;
    }
    if IsBlank(text) {
      return text;
    }
    if |text| > LongTextLimit {
      r := TranslateLong(text, target, client.value);
      return;
    }
    r := TranslateOnce(text, target, client.value);
  }

  /** The long-text branch of `translate_text`: the pieces translated in order and joined
      by single spaces. */
  method TranslateLong(text: string, target: string, chat: Chat) returns (r: string)
    requires |text| > LongTextLimit
    ensures r == Join(" ", TranslateAll(FixedPieces(text, PieceSize), target, chat))
    decreases |text|, 0
  {
    var chunks := FixedPieces(text, PieceSize);
    var translatedChunks := TranslateEach(chunks, target, chat);
    r := Join(" ", translatedChunks);
  }

  /** The loop of the long-text branch: each piece through `translate_text`, in order. */
  method TranslateEach(chunks: seq<string>, target: string, chat: Chat) returns (ts: seq<string>)
    requires forall k :: 0 <= k < |chunks| ==> |chunks[k]| <= PieceSize
    ensures ts == TranslateAll(chunks, target, chat)
    decreases LongTextLimit, 3
  {
    ts := [];
    for i := 0 to |chunks|
      invariant |ts| == i
      invariant forall k :: 0 <= k < i ==> ts[k] == TranslateShort(chunks[k], target, chat)
    {
      var translatedChunk := TranslatePiece(chunks[i], target, chat);
      ts := ts + [translatedChunk];
    }
    AllTranslated(chunks, ts, target, chat);
  }

  /** One piece of a long text, through `translate_text` again. */
  method TranslatePiece(piece: string, target: string, chat: Chat) returns (t: string)
    requires |piece| <= LongTextLimit
    ensures t == TranslateShort(piece, target, chat)
    decreases |piece|, 2
  {
    t := TranslateText(piece, target, Some(chat));
    ShortTranslated(piece, target, chat);
  }

  /** A piece short enough for one call is translated by that one call. */
  lemma ShortTranslated(text: string, target: string, chat: Chat)
    requires |text| <= LongTextLimit
    ensures Translated(text, target, Some(chat)) == TranslateShort(text, target, chat)
  {
  }

  /** Piecewise agreement with TranslateShort is TranslateAll. */
  lemma AllTranslated(pieces: seq<string>, ts: seq<string>, target: string, chat: Chat)
    requires |ts| == |pieces|
    requires forall k :: 0 <= k < |pieces| ==> ts[k] == TranslateShort(pieces[k], target, chat)
    ensures ts == TranslateAll(pieces, target, chat)
  {
  }

  /** A service that never answers leaves a short text unchanged, and a long one cut into
      its 4000-character pieces with a space between each. */
  lemma SilentServiceKeepsText(text: string, target: string, chat: Chat)
    requires forall m :: chat(m) == None
    ensures |text| <= LongTextLimit || IsBlank(text) ==> Translated(text, target, Some(chat)) == text
    ensures |text| > LongTextLimit && !IsBlank(text) ==>
      Translated(text, target, Some(chat)) == Join(" ", FixedPieces(text, PieceSize))
  {
    if |text| > LongTextLimit && !IsBlank(text) {
      var pieces := FixedPieces(text, PieceSize);
      var ts := TranslateAll(pieces, target, chat);
      forall k | 0 <= k < |pieces|
        ensures ts[k] == pieces[k]
      {
        assert chat(UserMessage(pieces[k], target)) == None;
      }
      assert ts == pieces;
    }
  }

  // ---- keyword list --------------------------------------------------------------------

  /** The keyword list after translation: the first five translated, the rest kept. */
  function KeywordsAfterTranslation(keywords: seq<string>, target: string, client: Option<Chat>): (r: seq<string>)
    ensures |r| == |keywords|
    ensures forall i :: 0 <= i < |keywords| && i < 5 ==> r[i] == Translated(keywords[i], target, client)
    ensures forall i :: 5 <= i < |keywords| ==> r[i] == keywords[i]
  {
    seq(|keywords|, i requires 0 <= i < |keywords| =>
      if i < 5 then Translated(keywords[i], target, client) else keywords[i])
  }

  /** The keyword translation of the exporters: the first five keywords go through
      `translate_text` one by one, the others are appended as they are. */
  method TranslateKeywords(keywords: seq<string>, target: string, client: Option<Chat>)
    returns (translated: seq<string>)
    ensures translated == KeywordsAfterTranslation(keywords, target, client)
  {
    var toTranslate := if |keywords| > 5 then keywords[..5] else keywords;
    translated := TranslateEachKeyword(toTranslate, target, client);
    KeywordsAssembled(keywords, target, client, translated);
    if |keywords| > 5 {
      translated := translated + keywords[5..];
    }
  }

  /** The loop over the keywords to translate: each through `translate_text`, in order. */
  method TranslateEachKeyword(keywords: seq<string>, target: string, client: Option<Chat>)
    returns (translated: seq<string>)
    ensures |translated| == |keywords|
    ensures forall j :: 0 <= j < |keywords| ==> translated[j] == Translated(keywords[j], target, client)
  {
    translated := [];
    for i := 0 to |keywords|
      invariant |translated| == i
      invariant forall j :: 0 <= j < i ==> translated[j] == Translated(keywords[j], target, client)
    {
      var t := TranslateText(keywords[i], target, client);
      translated := translated + [t];
    }
  }

  /** The first (up to) five translated, followed by the untouched rest, is the list after
      translation. */
  lemma KeywordsAssembled(keywords: seq<string>, target: string, client: Option<Chat>, firsts: seq<string>)
    requires |firsts| == if |keywords| > 5 then 5 else |keywords|
    requires forall j :: 0 <= j < |firsts| ==> firsts[j] == Translated(keywords[j], target, client)
    ensures (if |keywords| > 5 then firsts + keywords[5..] else firsts)
      == KeywordsAfterTranslation(keywords, target, client)
  {
    var want := KeywordsAfterTranslation(keywords, target, client);
    var got := if |keywords| > 5 then firsts + keywords[5..] else firsts;
    forall i | 0 <= i < |want| ensures got[i] == want[i] {
      if i >= 5 { assert got[i] == keywords[i]; }
    }
  }
}
