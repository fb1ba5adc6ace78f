/** The string logic of youtube_transcriber.py: pulling the video id out of a link,
    validating a link, and rendering a video length as minutes and seconds.
    `urlparse` and `parse_qs` are modelled as far as the `v` query value depends on them. */
module YouTube {
  import opened Wrappers
  import opened Text

  const WatchMark := "youtube.com/watch"
  const ShortMark := "youtu.be/"
  const EmbedMark := "youtube.com/embed/"

  // ---- urlparse ------------------------------------------------------------------------

  /** `url.lstrip()` over the C0 controls and space, as `urlsplit` does first. */
  function DropLeadingControls(s: string): (r: string)
    ensures |r| <= |s| && r == s[|s| - |r|..]
    ensures r != [] ==> r[0] > ' '
    decreases |s|
  {
    if s != [] && s[0] <= ' ' then DropLeadingControls(s[1..]) else s
  }

  /** Tab, carriage return and line feed, which `urlsplit` deletes wherever they are. */
  predicate Unsafe(c: char) { c == '\t' || c == '\r' || c == '\n' }

  function RemoveUnsafe(s: string): (r: string)
    ensures |r| <= |s|
    ensures forall i :: 0 <= i < |r| ==> !Unsafe(r[i])
  {
    if s == [] then [] else (if Unsafe(s[0]) then [] else [s[0]]) + RemoveUnsafe(s[1..])
  }

  predicate IsAsciiLetter(c: char) { 'a' <= c <= 'z' || 'A' <= c <= 'Z' }

  predicate IsSchemeChar(c: char) { IsAsciiLetter(c) || IsDigit(c) || c == '+' || c == '-' || c == '.' }

  /** The URL after its scheme: the text before the first ':' is a scheme when it starts
      with an ASCII letter and uses only scheme characters. */
  function AfterScheme(u: string): string
  {
    var i := IndexOf(u, ':');
    if i > 0 && IsAsciiLetter(u[0]) && (forall j :: 0 <= j < i ==> IsSchemeChar(u[j])) then u[i + 1..]
    else u
  }

  predicate IsNetlocEnd(c: char) { c == '/' || c == '?' || c == '#' }

  /** The first position at or after `i` holding '/', '?' or '#', or the length. */
  function NetlocEnd(s: string, i: nat): (e: nat)
    requires i <= |s|
    ensures i <= e <= |s|
    ensures e < |s| ==> IsNetlocEnd(s[e])
    ensures forall j :: i <= j < e ==> !IsNetlocEnd(s[j])
    decreases |s| - i
  {
    if i == |s| || IsNetlocEnd(s[i]) then i else NetlocEnd(s, i + 1)
  }

  /** `urlsplit` raises `ValueError` when the network location has one square bracket
      without the other. */
  predicate BracketsUnbalanced(netloc: string)
  {
    ('[' in netloc) != (']' in netloc)
  }

  /** The query of the part after the network location: before the first '#', after the
      first '?', and empty without a '?'. */
  function QueryPart(s: string): string
  {
    AfterFirst(BeforeFirst(s, '#'), '?')
  }

  /** `urlparse(url).query`, `None` standing for the `ValueError`. */
  function Query(url: string): (q: Option<string>)
  {
    var rest := AfterScheme(RemoveUnsafe(DropLeadingControls(url)));
    if StartsWith(rest, "//") then
      var e := NetlocEnd(rest, 2);
      if BracketsUnbalanced(rest[2..e]) then None else Some(QueryPart(rest[e..]))
    else Some(QueryPart(rest))
  }

  // ---- parse_qs ------------------------------------------------------------------------

  /** `parse_qs` reads '+' as a space. */
  function PlusToSpace(s: string): (r: string)
    ensures |r| == |s|
    ensures forall i :: 0 <= i < |s| ==> r[i] == (if s[i] == '+' then ' ' else s[i])
  {
    seq(|s|, i requires 0 <= i < |s| => if s[i] == '+' then ' ' else s[i])
  }

  /** A field `name=value` with a non-empty value: the only kind `parse_qs` keeps, since it
      drops fields without '=' and fields with a blank value. */
  predicate KeptField(field: string, name: string)
  {
    '=' in field && AfterFirst(field, '=') != [] && PlusToSpace(BeforeFirst(field, '=')) == name
  }

  /** `parse_qs(query).get(name, [None])[0]` over the '&'-separated fields: a value exists
      exactly when some field is kept under `name`, and it is the value of the first one. */
  function FirstValue(fields: seq<string>, name: string): (r: Option<string>)
    ensures r.Some? <==> exists k :: 0 <= k < |fields| && KeptField(fields[k], name)
    ensures r.Some? ==> r.value != []
    ensures r.Some? ==> exists k :: 0 <= k < |fields| && KeptField(fields[k], name)
                                    && (forall j :: 0 <= j < k ==> !KeptField(fields[j], name))
                                    && PlusToSpace(AfterFirst(fields[k], '=')) == r.value
  {
    if fields == [] then None
    else
      var f := fields[0];
      if KeptField(f, name) then Some(PlusToSpace(AfterFirst(f, '=')))
      else
        var r := FirstValue(fields[1..], name);
        ShiftedFields(fields, name, r);
        r
  }

  /** Looking past a first field that is not kept shifts every index by one. */
  lemma ShiftedFields(fields: seq<string>, name: string, r: Option<string>)
    requires fields != [] && !KeptField(fields[0], name)
    requires r.Some? ==> exists k :: 0 <= k < |fields[1..]| && KeptField(fields[1..][k], name)
                                    && (forall j :: 0 <= j < k ==> !KeptField(fields[1..][j], name))
                                    && PlusToSpace(AfterFirst(fields[1..][k], '=')) == r.value
    ensures (exists k :: 0 <= k < |fields| && KeptField(fields[k], name)) <==>
            (exists k :: 0 <= k < |fields[1..]| && KeptField(fields[1..][k], name))
    ensures r.Some? ==>
              exists k :: 0 <= k < |fields| && KeptField(fields[k], name)
                          && (forall j :: 0 <= j < k ==> !KeptField(fields[j], name))
                          && PlusToSpace(AfterFirst(fields[k], '=')) == r.value
  {
    var tail := fields[1..];
    if exists k :: 0 <= k < |fields| && KeptField(fields[k], name) {
      var k :| 0 <= k < |fields| && KeptField(fields[k], name);
      assert tail[k - 1] == fields[k];
    }
    if r.Some? {
      var k :| 0 <= k < |tail| && KeptField(tail[k], name)
               && (forall j :: 0 <= j < k ==> !KeptField(tail[j], name))
               && PlusToSpace(AfterFirst(tail[k], '=')) == r.value;
      assert fields[k + 1] == tail[k];
      forall j | 0 <= j < k + 1 ensures !KeptField(fields[j], name) {
        if j > 0 { assert fields[j] == tail[j - 1]; }
      }
    }
  }

  function QueryValue(query: string, name: string): Option<string>
  {
    FirstValue(SplitOn(query, '&'), name)
  }

  // ---- extract_youtube_id / validate_youtube_url ----------------------------------------

  /** `piece.split('?')[0]`: `id` is the start of `piece` up to its first '?', or all of
      `piece` when it has none. */
  predicate CutAtQuestionMark(piece: string, id: string)
  {
    id <= piece && '?' !in id && (|id| < |piece| ==> piece[|id|] == '?')
  }

  /** `extract_youtube_id`: a watch link gives its first `v` value; otherwise a short link
      or an embed link gives the text after the last marker up to the first '?'; anything
      else, and a link `urlparse` rejects, gives `None`. */
  function ExtractId(url: string): (r: Option<string>)
    ensures Contains(url, WatchMark) && Query(url).None? ==> r.None?
    ensures Contains(url, WatchMark) && Query(url).Some? ==> r == QueryValue(Query(url).value, "v")
    ensures !Contains(url, WatchMark) && Contains(url, ShortMark) ==>
              r.Some? && CutAtQuestionMark(LastPiece(url, ShortMark), r.value)
              && !Contains(r.value, ShortMark)
    ensures !Contains(url, WatchMark) && !Contains(url, ShortMark) && Contains(url, EmbedMark) ==>
              r.Some? && CutAtQuestionMark(LastPiece(url, "embed/"), r.value)
              && !Contains(r.value, "embed/")
    ensures !Contains(url, WatchMark) && !Contains(url, ShortMark) && !Contains(url, EmbedMark) ==> r.None?
  {
    if Contains(url, WatchMark) then
      match Query(url)
      case None => None
      case Some(q) => QueryValue(q, "v")
    else if Contains(url, ShortMark) then
      var piece := LastPiece(url, ShortMark);
      NotContainedInPrefix(piece, ShortMark);
      Some(BeforeFirst(piece, '?'))
    else if Contains(url, EmbedMark) then
      var piece := LastPiece(url, "embed/");
      NotContainedInPrefix(piece, "embed/");
      Some(BeforeFirst(piece, '?'))
    else None
  }

  /** The cut is determined by the piece: at most one text fits it. */
  lemma {:induction false} CutIsUnique(piece: string, a: string, b: string)
    requires CutAtQuestionMark(piece, a) && CutAtQuestionMark(piece, b)
    ensures a == b
  {
  }

  /** A prefix of a text that does not contain `sub` does not contain it either. */
  lemma NotContainedInPrefix(s: string, sub: string)
    requires !Contains(s, sub)
    ensures forall p :: p <= s ==> !Contains(p, sub)
  {
    forall p, i | p <= s && 0 <= i <= |p| - |sub| && MatchAt(p, sub, i)
      ensures false
    {
      assert s[i..i + |sub|] == p[i..i + |sub|];
      assert MatchAt(s, sub, i);
    }
  }

  datatype UrlProblem = NotAYouTubeUrl | BadIdFormat

  function ProblemText(p: UrlProblem): string
  {
    match p
    case NotAYouTubeUrl => "Geçerli bir YouTube URL'si değil"
    case BadIdFormat => "YouTube video ID formatı hatalı"
  }

  /** `validate_youtube_url`: the id is accepted when it is present and 11 characters
      long; a missing or empty id is "not a YouTube link", any other length a format error. */
  function ValidateUrl(url: string): (r: Result<string, UrlProblem>)
    ensures r.Success? <==> ExtractId(url).Some? && |ExtractId(url).value| == 11
    ensures r.Success? ==> r.value == ExtractId(url).value
    ensures r == Failure(NotAYouTubeUrl) <==> ExtractId(url).None? || ExtractId(url).value == []
    ensures r == Failure(BadIdFormat) <==>
              ExtractId(url).Some? && ExtractId(url).value != [] && |ExtractId(url).value| != 11
  {
    match ExtractId(url)
    case None => Failure(NotAYouTubeUrl)
    case Some(id) =>
      if id == [] then Failure(NotAYouTubeUrl)
      else if |id| != 11 then Failure(BadIdFormat)
      else Success(id)
  }

  // ---- concrete link shapes ------------------------------------------------------------

  /** The characters of a YouTube video id. */
  predicate IsIdChar(c: char) { IsAsciiLetter(c) || IsDigit(c) || c == '-' || c == '_' }

  predicate IsId(id: string) { forall i :: 0 <= i < |id| ==> IsIdChar(id[i]) }

  /** If `sub` has a character `s` lacks, `s` does not contain `sub`. */
  lemma MissingCharBlocksMatch(s: string, sub: string, k: nat)
    requires k < |sub| && sub[k] !in s
    ensures !Contains(s, sub)
  {
    forall i | 0 <= i <= |s| - |sub| ensures !MatchAt(s, sub, i) {
      assert s[i..i + |sub|][k] == s[i + k];
    }
  }

  /** The position of the first `c`, recognised from its defining property. */
  lemma IndexOfIs(s: string, c: char, k: nat)
    requires k < |s| && s[k] == c && c !in s[..k]
    ensures IndexOf(s, c) == k
  {
  
  }

  lemma RemoveUnsafeKeeps(s: string)
    requires forall i :: 0 <= i < |s| ==> !Unsafe(s[i])
    ensures RemoveUnsafe(s) == s
  {
  }

  lemma {:induction false} NetlocEndAt(s: string, i: nat, e: nat)
    requires i <= e < |s| && IsNetlocEnd(s[e])
    requires forall j :: i <= j < e ==> !IsNetlocEnd(s[j])
    ensures NetlocEnd(s, i) == e
    decreases e - i
  {
    if i < e {
      NetlocEndAt(s, i + 1, e);
    }
  }

  /** For `https://<host>/<path>?<query>` with no stray delimiters, `urlparse` finds the
      query. */
  lemma HttpsQuery(host: string, path: string, query: string)
    requires forall i :: 0 <= i < |host| ==> !IsNetlocEnd(host[i]) && !Unsafe(host[i]) && host[i] != '[' && host[i] != ']'
    requires forall i :: 0 <= i < |path| ==> path[i] != '?' && path[i] != '#' && !Unsafe(path[i])
    requires forall i :: 0 <= i < |query| ==> query[i] != '#' && !Unsafe(query[i])
    ensures Query("https://" + host + "/" + path + "?" + query) == Some(query)
  {
    var tail := "/" + path + "?" + query;
    var rest := "//" + host + tail;
    var url := "https://" + host + "/" + path + "?" + query;
    assert url == "https" + ":" + rest;
    forall i | 0 <= i < |tail| ensures !Unsafe(tail[i]) && tail[i] != '#' {
      if i >= 1 + |path| + 1 {
        assert tail[i] == query[i - (1 + |path| + 1)];
      } else if i >= 1 {
        assert i == 1 + |path| || tail[i] == path[i - 1];
      }
    }
    forall i | 0 <= i < |rest| ensures !Unsafe(rest[i]) {
      if i >= 2 + |host| {
        assert rest[i] == tail[i - (2 + |host|)];
      } else if i >= 2 {
        assert rest[i] == host[i - 2];
      }
    }
    SchemeSkipped("https", rest);
    NetlocOfRest(host, tail);
    PathQuery(path, query);
    QueryAfterNetloc(url, rest, 2 + |host|);
  }

  lemma QueryAfterNetloc(url: string, rest: string, e: nat)
    requires AfterScheme(RemoveUnsafe(DropLeadingControls(url))) == rest
    requires StartsWith(rest, "//") && 2 <= e <= |rest| && NetlocEnd(rest, 2) == e
    requires !BracketsUnbalanced(rest[2..e])
    ensures Query(url) == Some(QueryPart(rest[e..]))
  {
  }

  /** A scheme of scheme characters starting with a letter is skipped with its ':'. */
  lemma SchemeSkipped(scheme: string, rest: string)
    requires scheme != [] && IsAsciiLetter(scheme[0])
    requires forall i :: 0 <= i < |scheme| ==> IsSchemeChar(scheme[i])
    requires forall i :: 0 <= i < |rest| ==> !Unsafe(rest[i])
    ensures AfterScheme(RemoveUnsafe(DropLeadingControls(scheme + ":" + rest))) == rest
  {
    var url := scheme + ":" + rest;
    SchemeUrlClean(scheme, rest);
    SchemeColon(scheme, rest);
    SchemeFound(url, |scheme|);
  }

  lemma SchemeUrlClean(scheme: string, rest: string)
    requires scheme != [] && IsAsciiLetter(scheme[0])
    requires forall i :: 0 <= i < |scheme| ==> IsSchemeChar(scheme[i])
    requires forall i :: 0 <= i < |rest| ==> !Unsafe(rest[i])
    ensures RemoveUnsafe(DropLeadingControls(scheme + ":" + rest)) == scheme + ":" + rest
  {
    var url := scheme + ":" + rest;
    SchemeIsClean(scheme);
    CleanConcat(scheme, ":");
    CleanConcat(scheme + ":", rest);
    assert url[0] == scheme[0];
    CleanUrl(url);
  }

  lemma SchemeIsClean(scheme: string)
    requires forall i :: 0 <= i < |scheme| ==> IsSchemeChar(scheme[i])
    ensures Clean(scheme)
  {
  }

  predicate Clean(s: string) { forall i :: 0 <= i < |s| ==> !Unsafe(s[i]) }

  lemma CleanConcat(a: string, b: string)
    requires Clean(a) && Clean(b)
    ensures Clean(a + b)
  {
    forall i | 0 <= i < |a + b| ensures !Unsafe((a + b)[i]) {
      if i >= |a| { assert (a + b)[i] == b[i - |a|]; }
    }
  }

  /** A URL with nothing to strip is left as it is. */
  lemma CleanUrl(url: string)
    requires url != [] && url[0] > ' '
    requires forall i :: 0 <= i < |url| ==> !Unsafe(url[i])
    ensures RemoveUnsafe(DropLeadingControls(url)) == url
  {
    RemoveUnsafeKeeps(url);
  }

  lemma SchemeColon(scheme: string, rest: string)
    requires forall i :: 0 <= i < |scheme| ==> IsSchemeChar(scheme[i])
    ensures var url := scheme + ":" + rest;
            IndexOf(url, ':') == |scheme| && url[|scheme| + 1..] == rest
            && forall j :: 0 <= j < |scheme| ==> IsSchemeChar(url[j])
  {
    var url := scheme + ":" + rest;
    assert url[..|scheme|] == scheme;
    IndexOfIs(url, ':', |scheme|);
    assert url[|scheme| + 1..] == rest;
  }

  lemma SchemeFound(u: string, i: nat)
    requires 0 < i < |u| && IndexOf(u, ':') == i && IsAsciiLetter(u[0])
    requires forall j :: 0 <= j < i ==> IsSchemeChar(u[j])
    ensures AfterScheme(u) == u[i + 1..]
  {
  }

  lemma {:induction false} RemoveUnsafeAppend(a: string, b: string)
    ensures RemoveUnsafe(a + b) == RemoveUnsafe(a) + RemoveUnsafe(b)
    decreases |a|
  {
    if a == [] {
      assert a + b == b;
    } else {
      assert (a + b)[0] == a[0];
      assert (a + b)[1..] == a[1..] + b;
      RemoveUnsafeAppend(a[1..], b);
    }
  }

  /** After `//` the network location runs up to the first '/'. */
  lemma NetlocOfRest(host: string, tail: string)
    requires forall i :: 0 <= i < |host| ==> !IsNetlocEnd(host[i]) && host[i] != '[' && host[i] != ']'
    requires tail != [] && tail[0] == '/'
    ensures var rest := "//" + host + tail;
            StartsWith(rest, "//") && NetlocEnd(rest, 2) == 2 + |host|
            && !BracketsUnbalanced(rest[2..2 + |host|]) && rest[2 + |host|..] == tail
  {
    var rest := "//" + host + tail;
    assert rest[..2] == "//";
    assert rest[2 + |host|] == '/';
    forall j | 2 <= j < 2 + |host| ensures !IsNetlocEnd(rest[j]) {
      assert rest[j] == host[j - 2];
    }
    NetlocEndAt(rest, 2, 2 + |host|);
    assert rest[2..2 + |host|] == host;
    assert rest[2 + |host|..] == tail;
  }

  /** The query of `/<path>?<query>`. */
  lemma PathQuery(path: string, query: string)
    requires forall i :: 0 <= i < |path| ==> path[i] != '?' && path[i] != '#'
    requires forall i :: 0 <= i < |query| ==> query[i] != '#'
    ensures QueryPart("/" + path + "?" + query) == query
  {
    var tail := "/" + path + "?" + query;
    forall i | 0 <= i < |tail| ensures tail[i] != '#' {
      if i >= 1 + |path| + 1 {
        assert tail[i] == query[i - (1 + |path| + 1)];
      } else if i >= 1 {
        assert i == 1 + |path| || tail[i] == path[i - 1];
      }
    }
    assert BeforeFirst(tail, '#') == tail;
    assert tail[..1 + |path|] == "/" + path;
    IndexOfIs(tail, '?', 1 + |path|);
    assert tail[1 + |path| + 1..] == query;
  }

  /** `v=<id>` as the whole query gives the id. */
  lemma VQuery(id: string)
    requires id != [] && IsId(id)
    ensures QueryValue("v=" + id, "v") == Some(id)
  {
    var q := "v=" + id;
    assert '&' !in q by {
      forall i | 0 <= i < |q| ensures q[i] != '&' {
        if i >= 2 { assert q[i] == id[i - 2]; }
      }
    }
    assert SplitOn(q, '&') == [q];
    IndexOfIs(q, '=', 1);
    assert q[..1] == "v";
    assert q[2..] == id;
    assert PlusToSpace("v") == "v";
    assert PlusToSpace(id) == id;
  }

  /** A standard watch link gives its id back. */
  lemma WatchLinkId(id: string)
    requires id != [] && IsId(id)
    ensures ExtractId("https://www.youtube.com/watch?v=" + id) == Some(id)
  {
    WatchLinkMarked(id);
    WatchLinkQuery(id);
    VQuery(id);
  }

  lemma WatchLinkMarked(id: string)
    ensures Contains("https://www.youtube.com/watch?v=" + id, WatchMark)
  {
    assert MatchAt("https://www.youtube.com/watch?v=" + id, WatchMark, 12);
  }

  lemma WatchLinkQuery(id: string)
    requires IsId(id)
    ensures Query("https://www.youtube.com/watch?v=" + id) == Some("v=" + id)
  {
    var q := "v=" + id;
    assert "https://www.youtube.com/watch?v=" + id == "https://" + "www.youtube.com" + "/" + "watch" + "?" + q;
    IdQueryPlain(id);
    HttpsQuery("www.youtube.com", "watch", q);
  }

  lemma IdQueryPlain(id: string)
    requires IsId(id)
    ensures forall i :: 0 <= i < |"v=" + id| ==> ("v=" + id)[i] != '#' && !Unsafe(("v=" + id)[i])
  {
    var q := "v=" + id;
    forall i | 0 <= i < |q| ensures q[i] != '#' && !Unsafe(q[i]) {
      if i >= 2 { assert q[i] == id[i - 2]; }
    }
  }

  /** ... and passes validation when it has 11 characters. */
  lemma WatchLinkValid(id: string)
    requires |id| == 11 && IsId(id)
    ensures ValidateUrl("https://www.youtube.com/watch?v=" + id) == Success(id)
  {
    WatchLinkId(id);
  }

  /** A host with an unclosed '[' makes `urlparse` raise, and the id is `None`. */
  lemma UnclosedBracketGivesNone(id: string)
    requires IsId(id)
    ensures ExtractId("https://[youtube.com/watch?v=" + id) == None
  {
    BracketLinkMarked(id);
    BracketLinkRaises(id);
  }

  lemma BracketLinkRaises(id: string)
    requires IsId(id)
    ensures Query("https://[youtube.com/watch?v=" + id) == None
  {
    var rest := "//[youtube.com/watch?v=" + id;
    BracketLinkRest(id);
    BracketRestPrefix(id);
    BracketNetloc(rest);
    QueryRaises("https://[youtube.com/watch?v=" + id, rest, 14);
  }

  /** Past its scheme, the bracketed link is its `//` part, nothing removed. */
  lemma BracketLinkRest(id: string)
    requires IsId(id)
    ensures AfterScheme(RemoveUnsafe(DropLeadingControls("https://[youtube.com/watch?v=" + id)))
      == "//[youtube.com/watch?v=" + id
  {
    var rest := "//[youtube.com/watch?v=" + id;
    assert "https://[youtube.com/watch?v=" + id == "https" + ":" + rest;
    BracketRestClean(id);
    SchemeSkipped("https", rest);
  }

  lemma BracketRestPrefix(id: string)
    ensures |"//[youtube.com/watch?v=" + id| >= 15
    ensures ("//[youtube.com/watch?v=" + id)[..15] == "//[youtube.com/"
  {
  }

  lemma BracketRestClean(id: string)
    requires IsId(id)
    ensures forall i :: 0 <= i < |"//[youtube.com/watch?v=" + id| ==> !Unsafe(("//[youtube.com/watch?v=" + id)[i])
  {
    var rest := "//[youtube.com/watch?v=" + id;
    IdQueryPlain(id);
    forall i | 0 <= i < |rest| ensures !Unsafe(rest[i]) {
      if i >= 21 { assert rest[i] == ("v=" + id)[i - 21]; }
    }
  }

  lemma BracketNetloc(rest: string)
    requires |rest| >= 15 && rest[..15] == "//[youtube.com/"
    ensures StartsWith(rest, "//") && NetlocEnd(rest, 2) == 14 && BracketsUnbalanced(rest[2..14])
  {
    assert rest[..2] == rest[..15][..2];
    forall j | 2 <= j < 14 ensures !IsNetlocEnd(rest[j]) {
      assert rest[j] == rest[..15][j];
    }
    assert rest[14] == rest[..15][14];
    NetlocEndAt(rest, 2, 14);
    assert rest[2..14] == rest[..15][2..14];
  }

  lemma QueryRaises(url: string, rest: string, e: nat)
    requires AfterScheme(RemoveUnsafe(DropLeadingControls(url))) == rest
    requires StartsWith(rest, "//") && 2 <= e <= |rest| && NetlocEnd(rest, 2) == e
    requires BracketsUnbalanced(rest[2..e])
    ensures Query(url) == None
  {
  }

  lemma BracketLinkMarked(id: string)
    ensures Contains("https://[youtube.com/watch?v=" + id, WatchMark)
  {
    assert MatchAt("https://[youtube.com/watch?v=" + id, WatchMark, 9);
  }

  /** Share-link parameters: id characters, '=' and '&'. */
  predicate IsParams(params: string)
  {
    forall i :: 0 <= i < |params| ==> IsIdChar(params[i]) || params[i] == '=' || params[i] == '&'
  }

  /** A share link `https://youtu.be/<id>?<params>` gives the id. */
  lemma ShortLinkId(id: string, params: string)
    requires IsId(id) && IsParams(params)
    ensures ExtractId("https://youtu.be/" + id + "?" + params) == Some(id)
  {
    var after := id + "?" + params;
    var url := "https://youtu.be/" + after;
    assert url == "https://youtu.be/" + id + "?" + params;
    NoDotAfter(id, params);
    ShortLinkMarks(after);
    IdEndsAtQuestionMark(id, params);
    ShortLinkExtract(url, after);
  }

  /** A share link without a '.' after its marker holds no watch marker, and its last
      piece is what follows the marker. */
  lemma ShortLinkMarks(after: string)
    requires '.' !in after
    ensures !Contains("https://youtu.be/" + after, WatchMark)
    ensures Contains("https://youtu.be/" + after, ShortMark)
    ensures LastPiece("https://youtu.be/" + after, ShortMark) == after
  {
    OnlyDotOfShortLink(after);
    NoWatchMarkInShortLink("https://youtu.be/" + after);
    ShortLinkPiece(after);
  }

  lemma IdEndsAtQuestionMark(id: string, params: string)
    requires IsId(id)
    ensures BeforeFirst(id + "?" + params, '?') == id
  {
    var after := id + "?" + params;
    assert after[..|id|] == id;
    IndexOfIs(after, '?', |id|);
  }

  lemma ShortLinkExtract(url: string, after: string)
    requires !Contains(url, WatchMark) && Contains(url, ShortMark)
    requires LastPiece(url, ShortMark) == after
    ensures ExtractId(url) == Some(BeforeFirst(after, '?'))
  {
  }

  lemma NoDotAfter(id: string, params: string)
    requires IsId(id) && IsParams(params)
    ensures '.' !in id + "?" + params && '/' !in id + "?" + params
  {
    var after := id + "?" + params;
    forall i | 0 <= i < |after| ensures after[i] != '.' && after[i] != '/' {
      if i > |id| { assert after[i] == params[i - |id| - 1]; }
      else if i < |id| { assert after[i] == id[i]; }
    }
  }

  /** The only '.' of a share link is the one in "youtu.be". */
  lemma OnlyDotOfShortLink(after: string)
    requires '.' !in after
    ensures forall i :: 0 <= i < |"https://youtu.be/" + after| && ("https://youtu.be/" + after)[i] == '.' ==> i == 13
  {
    var url := "https://youtu.be/" + after;
    forall i | 0 <= i < |url| && i != 13 ensures url[i] != '.' {
      if i >= 17 { assert url[i] == after[i - 17]; }
    }
  }

  /** The watch marker's '.' would have to be the share link's only one, at position 13. */
  lemma NoWatchMarkInShortLink(url: string)
    requires |url| >= 17 && url[..17] == "https://youtu.be/"
    requires forall i :: 0 <= i < |url| && url[i] == '.' ==> i == 13
    ensures !Contains(url, WatchMark)
  {
    forall i | 0 <= i <= |url| - |WatchMark| ensures !MatchAt(url, WatchMark, i) {
      if i == 6 {
        assert url[6] == url[..17][6];
        assert url[i..i + |WatchMark|][0] != WatchMark[0];
      } else {
        assert url[i..i + |WatchMark|][7] != WatchMark[7];
      }
    }
  }

  /** Cutting a share link at its marker leaves what follows it. */
  lemma ShortLinkPiece(after: string)
    requires '.' !in after
    ensures Contains("https://youtu.be/" + after, ShortMark)
    ensures LastPiece("https://youtu.be/" + after, ShortMark) == after
  {
    var url := "https://youtu.be/" + after;
    OnlyDotOfShortLink(after);
    assert MatchAt(url, ShortMark, 8);
    forall j | 0 <= j < 8 ensures !MatchAt(url, ShortMark, j) {
      assert url[j..j + |ShortMark|][5] != ShortMark[5];
    }
    assert Find(url, ShortMark) == 8;
    assert url[8 + |ShortMark|..] == after;
    MissingCharBlocksMatch(after, ShortMark, 5);
  }

  const EmbedPrefix := "https://www.youtube.com/embed/"

  /** An embed link `https://www.youtube.com/embed/<id>?<params>` gives the id. */
  lemma EmbedLinkId(id: string, params: string)
    requires IsId(id) && IsParams(params)
    ensures ExtractId(EmbedPrefix + id + "?" + params) == Some(id)
  {
    var after := id + "?" + params;
    var url := EmbedPrefix + after;
    assert url == EmbedPrefix + id + "?" + params;
    NoDotAfter(id, params);
    EmbedLinkMarks(after);
    IdEndsAtQuestionMark(id, params);
    EmbedLinkExtract(url, after);
  }

  lemma EmbedLinkExtract(url: string, after: string)
    requires !Contains(url, WatchMark) && !Contains(url, ShortMark) && Contains(url, EmbedMark)
    requires LastPiece(url, "embed/") == after
    ensures ExtractId(url) == Some(BeforeFirst(after, '?'))
  {
  }

  /** An embed link with no '.' or '/' after its marker holds neither the watch nor the
      short marker, and its last piece is what follows "embed/". */
  lemma EmbedLinkMarks(after: string)
    requires '.' !in after && '/' !in after
    ensures !Contains(EmbedPrefix + after, WatchMark)
    ensures !Contains(EmbedPrefix + after, ShortMark)
    ensures Contains(EmbedPrefix + after, EmbedMark)
    ensures LastPiece(EmbedPrefix + after, "embed/") == after
  {
    var url := EmbedPrefix + after;
    EmbedLinkDots(after);
    EmbedNoWatchMark(url);
    EmbedNoShortMark(url);
    assert MatchAt(url, EmbedMark, 12) by { assert url[..30] == EmbedPrefix; }
    EmbedLinkPiece(after);
  }

  /** The only dots of an embed link are the two in "www.youtube.com". */
  lemma EmbedLinkDots(after: string)
    requires '.' !in after
    ensures forall i :: 0 <= i < |EmbedPrefix + after| && (EmbedPrefix + after)[i] == '.' ==> i == 11 || i == 19
  {
    var url := EmbedPrefix + after;
    forall i | 0 <= i < |url| && i != 11 && i != 19 ensures url[i] != '.' {
      if i >= 30 { assert url[i] == after[i - 30]; }
    }
  }

  lemma EmbedNoWatchMark(url: string)
    requires |url| >= 30 && url[..30] == EmbedPrefix
    requires forall i :: 0 <= i < |url| && url[i] == '.' ==> i == 11 || i == 19
    ensures !Contains(url, WatchMark)
  {
    forall i | 0 <= i <= |url| - |WatchMark| ensures !MatchAt(url, WatchMark, i) {
      if i == 4 {
        assert url[4] == url[..30][4];
        assert url[i..i + |WatchMark|][0] != WatchMark[0];
      } else if i == 12 {
        assert url[24] == url[..30][24];
        assert url[i..i + |WatchMark|][12] != WatchMark[12];
      } else {
        assert url[i..i + |WatchMark|][7] != WatchMark[7];
      }
    }
  }

  lemma EmbedNoShortMark(url: string)
    requires |url| >= 30 && url[..30] == EmbedPrefix
    requires forall i :: 0 <= i < |url| && url[i] == '.' ==> i == 11 || i == 19
    ensures !Contains(url, ShortMark)
  {
    forall i | 0 <= i <= |url| - |ShortMark| ensures !MatchAt(url, ShortMark, i) {
      if i == 6 || i == 14 {
        assert url[i] == url[..30][i];
        assert url[i..i + |ShortMark|][0] != ShortMark[0];
      } else {
        assert url[i..i + |ShortMark|][5] != ShortMark[5];
      }
    }
  }

  /** Cutting an embed link at "embed/" leaves what follows it. */
  lemma EmbedLinkPiece(after: string)
    requires '/' !in after
    ensures LastPiece(EmbedPrefix + after, "embed/") == after
  {
    var url := EmbedPrefix + after;
    assert url[..30] == EmbedPrefix;
    assert MatchAt(url, "embed/", 24) by { assert url[24..30] == url[..30][24..30]; }
    forall j | 0 <= j < 24 ensures !MatchAt(url, "embed/", j) {
      assert url[j] == url[..30][j];
      if j == 18 {
        assert url[19] == url[..30][19];
        assert url[j..j + 6][1] != "embed/"[1];
      } else {
        assert url[j..j + 6][0] != "embed/"[0];
      }
    }
    assert Find(url, "embed/") == 24;
    assert url[24 + 6..] == after;
    MissingCharBlocksMatch(after, "embed/", 5);
  }

  // ---- get_video_info ------------------------------------------------------------------

  /** `yt.length or 0` rendered as `minutes:seconds` with two-digit seconds, or
      "Bilinmiyor" (unknown) for a zero or missing length. */
  function DurationText(length: Option<nat>): (s: string)
    ensures s == "Bilinmiyor" <==> length.None? || length.value == 0
  {
    var d := match length case None => 0 case Some(n) => n;
    if d == 0 then "Bilinmiyor"
    else
      var s := NatToString(d / 60) + ":" + PadNat(d % 60, 2);
      var sec := PadNat(d % 60, 2);
      assert s[|s| - 1] == sec[|sec| - 1];
      s
  }

  /** For a positive length the text reads back: the minutes before the ':' times sixty
      plus the two-digit seconds after it give the length again. */
  lemma DurationReadsBack(d: nat)
    requires d > 0
    ensures var s := DurationText(Some(d));
            var m := BeforeFirst(s, ':');
            var sec := AfterFirst(s, ':');
            AllDigits(m) && AllDigits(sec) && |sec| == 2 && ParseNat(m) * 60 + ParseNat(sec) == d
  {
    var m := NatToString(d / 60);
    var sec := PadNat(d % 60, 2);
    var s := m + ":" + sec;
    assert DurationText(Some(d)) == s;
    assert ':' !in m by {
      forall i | 0 <= i < |m| ensures m[i] != ':' { assert IsDigit(m[i]); }
    }
    assert s[..|m|] == m;
    IndexOfIs(s, ':', |m|);
    assert s[|m| + 1..] == sec;
    ParseNatToString(d / 60);
    ParsePadNat(d % 60, 2);
    PadNatExact(d % 60, 2);
  }

  /** Different lengths are shown differently. */
  lemma DurationTextInjective(a: nat, b: nat)
    requires DurationText(Some(a)) == DurationText(Some(b))
    ensures a == b
  {
    if a > 0 && b > 0 {
      DurationReadsBack(a);
      DurationReadsBack(b);
    }
  }
}
