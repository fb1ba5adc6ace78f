/** The pure text handling inside the exporters (export_utils.py): the splitting of a long
    transcript over several spreadsheet cells, the truncation of over-long analysis texts,
    the three-column keyword grid of the PDF report and the Turkish-letter fallback used
    there when no Unicode font could be loaded. The workbook and PDF objects themselves are
    not modelled; a sheet column is the sequence of texts written into it. */
module ExcelExport {
  import opened Text

  /** The spreadsheet's cell limit, in characters. */
  const MaxCell: nat := 32767

  /** `text.rfind('\n\n', 0, end)`: the start of the last paragraph break lying wholly
      before `end`, or -1. */
  function LastBreakBefore(s: string, end: nat): (r: int)
    ensures r == -1 || (0 <= r && r + 2 <= end)
    ensures r >= 0 ==> MatchAt(s, "\n\n", r)
    ensures forall j :: r < j && j + 2 <= end ==> !MatchAt(s, "\n\n", j)
    decreases end
  {
    if end < 2 then -1
    else if MatchAt(s, "\n\n", end - 2) then end - 2
    else LastBreakBefore(s, end - 1)
  }

  /** Where the splitter cuts a text that does not fit: at the last paragraph break before
      the limit, otherwise at the limit itself. */
  function CutPoint(s: string): (cut: nat)
    requires |s| > MaxCell
    ensures cut <= MaxCell
    ensures cut == MaxCell || MatchAt(s, "\n\n", cut)
    ensures forall j :: cut < j && j + 2 <= MaxCell ==> !MatchAt(s, "\n\n", j)
    ensures cut == MaxCell ==> forall j :: 0 <= j && j + 2 <= MaxCell ==> !MatchAt(s, "\n\n", j)
  {
    var b := LastBreakBefore(s, MaxCell);
    if b == -1 then MaxCell else b
  }

  /** What is left after a cut: the rest of the text with its leading whitespace removed.
      It is always shorter than the text, even when the cut is at position 0. */
  function Remainder(s: string): (rest: string)
    requires |s| > MaxCell
    ensures |rest| < |s|
  {
    var cut := CutPoint(s);
    var r := LStrip(s[cut..]);
    assert |r| < |s| by {
      if cut == 0 {
        assert MatchAt(s, "\n\n", 0);
        assert s[0] == "\n\n"[0];
      }
    }
    r
  }

  /** The texts the splitter's loop writes, one per cell. */
  function Pieces(s: string): (parts: seq<string>)
    ensures forall k :: 0 <= k < |parts| ==> |parts[k]| <= MaxCell
    ensures s != [] ==> parts != []
    decreases |s|
  {
    if s == [] then []
    else if |s| <= MaxCell then [s]
    else [s[..CutPoint(s)]] + Pieces(Remainder(s))
  }

  /** The transcript column: one cell when the text fits, the splitter's pieces otherwise. */
  function TranscriptCells(text: string): (cells: seq<string>)
    ensures forall k :: 0 <= k < |cells| ==> |cells[k]| <= MaxCell
    ensures |text| <= MaxCell ==> cells == [text]
  {
    if |text| > MaxCell then Pieces(text) else [text]
  }

  /** The splitter: a `while` loop that appends a piece and carries on with what is left. */
  method SplitTranscript(text: string) returns (cells: seq<string>)
    ensures cells == TranscriptCells(text)
  {
    if |text| <= MaxCell {
      return [text];
    }
    cells := [];
    var rest := text;
    while rest != []
      invariant cells + Pieces(rest) == Pieces(text)
      decreases |rest|
    {
      if |rest| <= MaxCell {
        cells := cells + [rest];
        break;
      }
      var cut := CutPoint(rest);
      var next := Remainder(rest);
      PiecesAfterCut(cells, rest, cut, next);
      cells := cells + [rest[..cut]];
      rest := next;
    }
  }

  /** A text that does not fit is its first piece followed by the pieces of what is left. */
  lemma LongPieces(s: string) returns (cut: nat, rest: string)
    requires |s| > MaxCell
    ensures cut <= MaxCell && rest == LStrip(s[cut..]) && |rest| < |s|
    ensures Pieces(s) == [s[..cut]] + Pieces(rest)
  {
    cut, rest := CutPoint(s), Remainder(s);
  }

  /** The loop's step: moving the first piece into the written cells keeps the split. */
  lemma PiecesAfterCut(cells: seq<string>, rest: string, cut: nat, next: string)
    requires |rest| > MaxCell && cut == CutPoint(rest) && next == Remainder(rest)
    ensures cells + Pieces(rest) == (cells + [rest[..cut]]) + Pieces(next)
  {
    var c, r := LongPieces(rest);
    AppendCons(cells, rest[..cut], Pieces(next));
  }

  lemma AppendCons(cells: seq<string>, head: string, parts: seq<string>)
    ensures cells + ([head] + parts) == (cells + [head]) + parts
  {
  }

  lemma ConcatCons(head: string, parts: seq<string>)
    ensures Concat([head] + parts) == head + Concat(parts)
  {
    assert ([head] + parts)[1..] == parts;
  }

  /** Splitting loses nothing but whitespace: the non-whitespace characters of the cells,
      read in order, are those of the text. */
  lemma {:induction false} PiecesKeepText(s: string)
    ensures NonSpace(Concat(Pieces(s))) == NonSpace(s)
    decreases |s|
  {
    if |s| > MaxCell {
      var cut, rest := LongPieces(s);
      PiecesKeepText(rest);
      KeepAcrossCut(s, cut, Pieces(rest));
    } else if s != [] {
      SingleConcat(s);
    }
  }

  /** The step of PiecesKeepText: the stripped whitespace at a cut is all that is lost. */
  lemma KeepAcrossCut(s: string, cut: nat, ps: seq<string>)
    requires cut <= |s|
    requires NonSpace(Concat(ps)) == NonSpace(LStrip(s[cut..]))
    ensures NonSpace(Concat([s[..cut]] + ps)) == NonSpace(s)
  {
    var head := s[..cut];
    ConcatCons(head, ps);
    NonSpaceAppend(head, Concat(ps));
    NonSpaceLStrip(s[cut..]);
    NonSpaceAppend(head, s[cut..]);
    assert head + s[cut..] == s;
  }

  lemma SingleConcat(s: string)
    ensures Concat([s]) == s
  {
    assert [s][1..] == [];
  }

  lemma {:induction false} NonSpaceLStrip(s: string)
    ensures NonSpace(LStrip(s)) == NonSpace(s)
    decreases |s|
  {
    if s != [] && IsSpace(s[0]) {
      NonSpaceLStrip(s[1..]);
    }
  }

  lemma TranscriptCellsKeepText(text: string)
    ensures NonSpace(Concat(TranscriptCells(text))) == NonSpace(text)
  {
    if |text| > MaxCell {
      PiecesKeepText(text);
    } else {
      SingleConcat(text);
    }
  }

  /** Every cell after the first begins with a non-whitespace character, so none of them
      is empty; only the first can be (a long text that opens with its only early
      paragraph break). */
  lemma {:induction false} LaterPiecesStartWithText(s: string)
    ensures forall k :: 1 <= k < |Pieces(s)| ==> Pieces(s)[k] != [] && !IsSpace(Pieces(s)[k][0])
    decreases |s|
  {
    if |s| > MaxCell {
      var cut, rest := LongPieces(s);
      LaterPiecesStartWithText(rest);
      if rest != [] {
        FirstPieceStartsWithText(rest);
      }
      ShiftStartsWithText(s[..cut], Pieces(rest));
    }
  }

  /** Prepending a piece keeps the later pieces' property, with the old first piece now
      among them. */
  lemma ShiftStartsWithText(head: string, ps: seq<string>)
    requires forall k :: 1 <= k < |ps| ==> ps[k] != [] && !IsSpace(ps[k][0])
    requires ps != [] ==> ps[0] != [] && !IsSpace(ps[0][0])
    ensures forall k :: 1 <= k < |[head] + ps| ==> ([head] + ps)[k] != [] && !IsSpace(([head] + ps)[k][0])
  {
    var all := [head] + ps;
    forall k | 1 <= k < |all| ensures all[k] != [] && !IsSpace(all[k][0]) {
      assert all[k] == ps[k - 1];
    }
  }

  lemma FirstPieceStartsWithText(s: string)
    requires s != [] && !IsSpace(s[0])
    ensures Pieces(s)[0] != [] && Pieces(s)[0][0] == s[0]
  {
    if |s| > MaxCell {
      var cut := CutPoint(s);
      if cut == 0 {
        assert MatchAt(s, "\n\n", 0);
        assert s[0] == "\n\n"[0];
      }
    }
  }

  /** A long text that opens with a paragraph break and has no other one before the limit
      gets an empty first cell. */
  lemma LeadingBreakGivesEmptyCell(s: string)
    requires |s| > MaxCell && MatchAt(s, "\n\n", 0)
    requires forall j :: 0 < j && j + 2 <= MaxCell ==> !MatchAt(s, "\n\n", j)
    ensures Pieces(s)[0] == []
  {
    assert CutPoint(s) == 0;
  }

  /** The over-long summary and emotion texts: cut to fit, with an ellipsis. */
  function CellText(s: string): (r: string)
    ensures |r| <= MaxCell
    ensures |s| <= MaxCell ==> r == s
    ensures |s| > MaxCell ==> |r| == MaxCell && r == s[..MaxCell - 3] + "..."
  {
    if |s| > MaxCell then s[..MaxCell - 3] + "..." else s
  }

  /** Truncating twice is truncating once. */
  lemma CellTextIdempotent(s: string)
    ensures CellText(CellText(s)) == CellText(s)
  {
  }

  // ---- the keyword grid ------------------------------------------------------------------

  /** The cell at row `row`, column `col` of the grid: the keyword at that position, or the
      empty padding string past the end of the list. */
  function GridCell(keywords: seq<string>, row: nat, col: nat): string
  {
    if 3 * row + col < |keywords| then keywords[3 * row + col] else ""
  }

  /** Groups of three keywords, the last one padded with empty strings. */
  method KeywordRows(keywords: seq<string>) returns (rows: seq<seq<string>>)
    ensures |keywords| == 0 ==> rows == []
    ensures |keywords| > 0 ==> 3 * (|rows| - 1) < |keywords| <= 3 * |rows|
    ensures forall r :: 0 <= r < |rows| ==> |rows[r]| == 3
    ensures forall r, c :: 0 <= r < |rows| && 0 <= c < 3 ==> rows[r][c] == GridCell(keywords, r, c)
  {
    rows := [];
    var i := 0;
    while i < |keywords|
      invariant i == 3 * |rows|
      invariant i > 0 ==> i - 3 < |keywords|
      invariant forall r :: 0 <= r < |rows| ==> |rows[r]| == 3
      invariant forall r, c :: 0 <= r < |rows| && 0 <= c < 3 ==> rows[r][c] == GridCell(keywords, r, c)
      decreases |keywords| - i
    {
      var chunk := keywords[i..if i + 3 <= |keywords| then i + 3 else |keywords|];
      var row := chunk + seq(3 - |chunk|, _ => "");
      rows := rows + [row];
      i := i + 3;
    }
  }

  // ---- fallback transliteration ---------------------------------------------------------

  /** `char_map.get(c, c)`: the Turkish letters replaced by their closest ASCII letters. */
  function Plain(c: char): char
  {
    match c
    case 'ç' => 'c'
    case 'Ç' => 'C'
    case 'ğ' => 'g'
    case 'Ğ' => 'G'
    case 'ı' => 'i'
    case 'İ' => 'I'
    case 'ö' => 'o'
    case 'Ö' => 'O'
    case 'ş' => 's'
    case 'Ş' => 'S'
    case 'ü' => 'u'
    case 'Ü' => 'U'
    case _ => c
  }

  const MappedLetters: set<char> := {'ç', 'Ç', 'ğ', 'Ğ', 'ı', 'İ', 'ö', 'Ö', 'ş', 'Ş', 'ü', 'Ü'}

  /** A keyword as drawn without the Unicode font: the same length, no Turkish letter left,
      every other character kept. */
  function Transliterate(s: string): (r: string)
    ensures |r| == |s|
    ensures forall i :: 0 <= i < |r| ==> r[i] !in MappedLetters
    ensures forall i :: 0 <= i < |s| && s[i] !in MappedLetters ==> r[i] == s[i]
  {
    seq(|s|, i requires 0 <= i < |s| => Plain(s[i]))
  }

  /** Text without Turkish letters is drawn as it is. */
  lemma TransliterateKeepsPlainText(s: string)
    requires forall i :: 0 <= i < |s| ==> s[i] !in MappedLetters
    ensures Transliterate(s) == s
  {
  }
}
