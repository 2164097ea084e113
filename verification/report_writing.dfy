/** Lines put together from their parts, and how they read. */
module ReportWriting {
  import opened Options
  import opened ReportLines

  // ---------------------------------------------------------------------------
  // Trimming
  // ---------------------------------------------------------------------------

  predicate Spaces(s: string) {
    forall c :: c in s ==> IsSpace(c)
  }

  /** No space at either end. */
  predicate Bare(t: string) {
    t == "" || (!IsSpace(t[0]) && !IsSpace(t[|t| - 1]))
  }

  /** The white space and line terminators of ECMAScript (sections 12.2 and 12.3), no more. */
  lemma SpacesAre(c: char)
    ensures IsSpace(c) <==> c as int in {
      9, 10, 11, 12, 13, 32, 160, 5760, 8192, 8193, 8194, 8195, 8196, 8197, 8198, 8199, 8200, 8201, 8202,
      8232, 8233, 8239, 8287, 12288, 65279}
  {
  }

  /** A text is on one line exactly without the line terminators of ECMAScript (section 12.3). */
  lemma OneLineHasNoLineBreak(s: string)
    ensures OneLine(s) <==> '\n' !in s && '\r' !in s && '\U{2028}' !in s && '\U{2029}' !in s
  {
    assert forall c :: IsLineBreak(c) <==> c in {'\n', '\r', '\U{2028}', '\U{2029}'};
  }

  lemma {:induction false} LeadingSpaces(before: string, t: string)
    requires Spaces(before)
    ensures TrimStart(before + t) == TrimStart(t)
  {
    if before == "" {
      assert before + t == t;
    } else {
      assert (before + t)[1..] == before[1..] + t;
      LeadingSpaces(before[1..], t);
    }
  }

  lemma {:induction false} TrailingSpaces(t: string, after: string)
    requires Spaces(after)
    ensures TrimEnd(t + after) == TrimEnd(t)
  {
    var n := |after|;
    if n == 0 {
      assert t + after == t;
    } else {
      assert (t + after)[..|t| + n - 1] == t + after[..n - 1];
      TrailingSpaces(t, after[..n - 1]);
    }
  }

  /** Whatever the spaces around a text without spaces at its ends, trimming gives the text. */
  lemma TrimTakesOffSpaces(before: string, t: string, after: string)
    requires Spaces(before) && Bare(t) && Spaces(after)
    ensures Trim(before + t + after) == t
  {
    assert before + t + after == before + (t + after);
    LeadingSpaces(before, t + after);
    if t == "" {
      assert t + after == after + "";
      LeadingSpaces(after, "");
    } else {
      assert TrimStart(t + after) == t + after;
      TrailingSpaces(t, after);
    }
  }

  lemma {:induction false} StartIsSpace(s: string) returns (before: string)
    ensures Spaces(before) && s == before + TrimStart(s)
  {
    before := "";
    if s != "" && IsSpace(s[0]) {
      var rest := StartIsSpace(s[1..]);
      before := [s[0]] + rest;
    }
  }

  lemma {:induction false} EndIsSpace(s: string) returns (after: string)
    ensures Spaces(after) && s == TrimEnd(s) + after
    ensures TrimEnd(s) == "" || !IsSpace(TrimEnd(s)[|TrimEnd(s)| - 1])
  {
    after := "";
    if s != "" && IsSpace(s[|s| - 1]) {
      var rest := EndIsSpace(s[..|s| - 1]);
      after := rest + [s[|s| - 1]];
    }
  }

  /** Only spaces are taken off, and all of them. */
  lemma TrimLeavesTheText(s: string) returns (before: string, after: string)
    ensures Spaces(before) && Spaces(after) && Bare(Trim(s)) && s == before + Trim(s) + after
  {
    before := StartIsSpace(s);
    after := EndIsSpace(TrimStart(s));
    TrimmedStart(s);
  }

  lemma SameTrim(before: string, line: string, after: string)
    requires Spaces(before) && Spaces(after)
    ensures Trim(before + line + after) == Trim(line)
  {
    var b, a := TrimLeavesTheText(line);
    assert before + line + after == (before + b) + Trim(line) + (a + after);
    TrimTakesOffSpaces(before + b, Trim(line), a + after);
  }

  lemma SameHeading(a: string, b: string)
    requires Trim(a) == Trim(b)
    ensures Hashes(a) == Hashes(b) && HeadingText(a) == HeadingText(b) && IsHeading(a) == IsHeading(b)
  {
  }

  lemma SameTags(a: string, b: string)
    requires Trim(a) == Trim(b)
    ensures StartsDetails(a) == StartsDetails(b) && IsDetails(a) == IsDetails(b) && EndsDetails(a) == EndsDetails(b)
    ensures StartsSub(a) == StartsSub(b) && IsSub(a) == IsSub(b)
    ensures IsComment(a) == IsComment(b) && IsBullet(a) == IsBullet(b)
  {
  }

  lemma SameAnswers(a: string, b: string)
    requires Trim(a) == Trim(b) && IsRule(a) == IsRule(b)
    ensures Answers(a) == Answers(b)
  {
    RowsStartWithAPipe(a);
    RowsStartWithAPipe(b);
    SameHeading(a, b);
    SameTags(a, b);
    var one, other := Answers(a), Answers(b);
    assert one.heading == other.heading && one.cells == other.cells;
    assert one.details == other.details && one.sub == other.sub && one.bullet == other.bullet;
  }

  /** The spaces around a line do not matter to the parser. */
  lemma SpacesAroundALineDoNotMatter(before: string, line: string, after: string)
    requires Spaces(before) && Spaces(after)
    ensures Answers(before + line + after) == Answers(line)
  {
    SameTrim(before, line, after);
    assert !IsSpace('-');
    SameAnswers(before + line + after, line);
  }

  lemma RowsStartWithAPipe(line: string)
    ensures IsTableRow(line) <==> "|" <= Trim(line)
  {
    StartTrimmed(line);
    if TrimStart(line) != "" { TrimEndKeepsStart(TrimStart(line)); }
  }

  // ---------------------------------------------------------------------------
  // Cells
  // ---------------------------------------------------------------------------

  datatype Padded = Padded(before: string, text: string, after: string)

  predicate IsPadded(p: Padded) {
    Spaces(p.before) && Bare(p.text) && Spaces(p.after)
  }

  function Put(p: Padded): string {
    p.before + p.text + p.after
  }

  function Content(parts: seq<Padded>): seq<string> {
    if parts == [] then [] else [parts[0].text] + Content(parts[1..])
  }

  predicate IsCell(p: Padded) {
    IsPadded(p) && '|' !in p.text
  }

  function Between(cells: seq<Padded>): string {
    if cells == [] then "" else if |cells| == 1 then Put(cells[0]) else Put(cells[0]) + "|" + Between(cells[1..])
  }

  /** A row of cells, with the pipe at either edge or without. */
  datatype Row = Row(front: bool, cells: seq<Padded>, back: bool)
  {
    function Text(): string {
      (if front then "|" else "") + Between(cells) + (if back then "|" else "")
    }

    /** An edge without a pipe is the text of a cell. */
    predicate Valid() {
      && cells != [] && (forall c :: c in cells ==> IsCell(c))
      && (front || (cells[0].before == "" && cells[0].text != ""))
      && (back || (cells[|cells| - 1].after == "" && cells[|cells| - 1].text != ""))
    }
  }

  lemma {:induction false} SplitBefore(a: string, b: string, at: char)
    requires at !in a
    ensures Split(a + [at] + b, at) == [a] + Split(b, at)
  {
    var s := a + [at] + b;
    if a == "" {
      assert s[1..] == b;
    } else {
      assert s[1..] == a[1..] + [at] + b && s[0] == a[0] && a[0] in a;
      SplitBefore(a[1..], b, at);
      assert [a[0]] + a[1..] == a;
    }
  }

  lemma {:induction false} SplitNowhere(a: string, at: char)
    requires at !in a
    ensures Split(a, at) == [a]
  {
    if a != "" {
      SplitNowhere(a[1..], at);
      assert a[0] in a && [a[0]] + a[1..] == a;
    }
  }

  lemma CellHasNoPipe(p: Padded)
    requires IsCell(p)
    ensures '|' !in Put(p) && Trim(Put(p)) == p.text
  {
    assert !IsSpace('|');
    TrimTakesOffSpaces(p.before, p.text, p.after);
  }

  lemma {:induction false} CellsBetween(cells: seq<Padded>)
    requires cells != [] && forall c :: c in cells ==> IsCell(c)
    ensures TrimAll(Split(Between(cells), '|')) == Content(cells)
  {
    var first := Put(cells[0]);
    CellHasNoPipe(cells[0]);
    if |cells| == 1 {
      SplitNowhere(first, '|');
    } else {
      CellsBetween(cells[1..]);
      SplitBefore(first, Between(cells[1..]), '|');
    }
  }

  lemma PutEnds(p: Padded)
    requires p.text != ""
    ensures Put(p) != ""
    ensures p.before == "" ==> Put(p)[0] == p.text[0]
    ensures p.after == "" ==> Put(p)[|Put(p)| - 1] == p.text[|p.text| - 1]
  {
  }

  lemma BetweenStarts(cells: seq<Padded>)
    requires cells != [] && cells[0].before == "" && cells[0].text != ""
    ensures Between(cells) != "" && Between(cells)[0] == cells[0].text[0]
  {
    PutEnds(cells[0]);
  }

  lemma {:induction false} BetweenEnds(cells: seq<Padded>)
    requires cells != [] && cells[|cells| - 1].after == "" && cells[|cells| - 1].text != ""
    ensures var s, last := Between(cells), cells[|cells| - 1].text; s != "" && s[|s| - 1] == last[|last| - 1]
  {
    if |cells| == 1 {
      PutEnds(cells[0]);
    } else {
      var rest := cells[1..];
      assert rest[|rest| - 1] == cells[|cells| - 1];
      BetweenEnds(rest);
      var s := Between(rest);
      assert Between(cells) == Put(cells[0]) + "|" + s;
    }
  }

  lemma EdgesComeOff(front: bool, s: string, back: bool)
    requires front || (s != "" && s[0] != '|')
    requires back || (s != "" && s[|s| - 1] != '|')
    ensures WithoutEdges((if front then "|" else "") + s + (if back then "|" else "")) == s
  {
    var whole := (if front then "|" else "") + s + (if back then "|" else "");
    var t := s + (if back then "|" else "");
    assert whole == (if front then "|" else "") + t;
    if front { assert whole[1..] == t; } else { assert whole == t && t[0] == s[0]; }
    if back {
      assert t[|t| - 1..] == "|" && t[..|t| - 1] == s;
    } else {
      assert t == s && s[|s| - 1..] == [s[|s| - 1]];
    }
  }

  lemma CellEndsPlainly(p: Padded)
    requires IsCell(p) && p.text != ""
    ensures var t := p.text; t[0] != '|' && t[|t| - 1] != '|' && !IsSpace(t[0]) && !IsSpace(t[|t| - 1])
  {
    assert p.text[0] in p.text && p.text[|p.text| - 1] in p.text;
  }

  predicate Edged(front: bool, s: string, back: bool) {
    && (front || (s != "" && s[0] != '|' && !IsSpace(s[0])))
    && (back || (s != "" && s[|s| - 1] != '|' && !IsSpace(s[|s| - 1])))
  }

  lemma RowIsEdged(row: Row)
    requires row.Valid()
    ensures Edged(row.front, Between(row.cells), row.back)
  {
    if !row.front {
      BetweenStarts(row.cells);
      CellEndsPlainly(row.cells[0]);
    }
    if !row.back {
      BetweenEnds(row.cells);
      CellEndsPlainly(row.cells[|row.cells| - 1]);
    }
  }

  lemma EdgedIsBare(front: bool, s: string, back: bool)
    requires Edged(front, s, back)
    ensures var t := (if front then "|" else "") + s + (if back then "|" else ""); t != "" && Bare(t)
  {
    var t := (if front then "|" else "") + s + (if back then "|" else "");
    assert !IsSpace('|');
    assert t[0] == if front then '|' else s[0];
    assert t[|t| - 1] == if back then '|' else s[|s| - 1];
  }

  lemma RowIsBare(row: Row)
    requires row.Valid()
    ensures row.Text() != "" && Bare(row.Text())
    ensures WithoutEdges(row.Text()) == Between(row.cells)
  {
    RowIsEdged(row);
    EdgedIsBare(row.front, Between(row.cells), row.back);
    EdgesComeOff(row.front, Between(row.cells), row.back);
  }

  /** A row of cells reads as the texts of the cells, whatever the spaces around them, whatever
      their number, and whether or not a pipe stands at either edge. */
  lemma CellsAreRead(before: string, row: Row, after: string)
    requires Spaces(before) && row.Valid() && Spaces(after)
    ensures Cells(before + row.Text() + after) == Content(row.cells)
  {
    RowIsBare(row);
    TrimTakesOffSpaces(before, row.Text(), after);
    CellsBetween(row.cells);
  }

  lemma {:induction false} PiecesHaveNoMark(s: string, at: char)
    ensures forall piece :: piece in Split(s, at) ==> at !in piece
  {
    if s != "" { PiecesHaveNoMark(s[1..], at); }
  }

  lemma {:induction false} TrimmedPieces(pieces: seq<string>)
    requires forall piece :: piece in pieces ==> '|' !in piece
    ensures |TrimAll(pieces)| == |pieces|
    ensures forall cell :: cell in TrimAll(pieces) ==> Bare(cell) && '|' !in cell
  {
    if pieces != [] {
      TrimmedPieces(pieces[1..]);
      assert pieces[0] in pieces;
      TrimKeepsChars(pieces[0]);
      var before, after := TrimLeavesTheText(pieces[0]);
    }
  }

  /** What is read as the cells of a line can always be written as cells. */
  lemma CellsReadAreCells(line: string)
    ensures Cells(line) != [] && forall cell :: cell in Cells(line) ==> Bare(cell) && '|' !in cell
  {
    var s := WithoutEdges(Trim(line));
    PiecesHaveNoMark(s, '|');
    TrimmedPieces(Split(s, '|'));
  }

  // ---------------------------------------------------------------------------
  // The other lines
  // ---------------------------------------------------------------------------

  function HashMarks(n: nat): string {
    seq(n, _ => '#')
  }

  /** Two to four hashes, spaces and a text on one line. */
  predicate HeadingParts(level: nat, gap: string, text: string) {
    2 <= level <= 4 && gap != "" && Spaces(gap) && text != "" && Bare(text) && OneLine(text)
  }

  lemma HashesStart(t: string, level: nat, rest: string)
    requires 2 <= level <= 4 && rest != "" && IsSpace(rest[0])
    requires t == HashMarks(level) + rest && Trim(t) == t
    ensures Hashes(t) == level && t[level..] == rest && t[0] == '#'
  {
    var marks := HashMarks(level);
    assert !IsSpace('#');
    assert t[level] == rest[0] && forall i :: 0 <= i < level ==> t[i] == marks[i];
    assert t[..2] == "##";
    if level >= 3 { assert t[..3] == "###" && t[2] == '#'; }
    if level == 4 { assert t[..4] == "####" && t[3] == '#'; }
  }

  lemma TrimmedAlready(t: string)
    requires Bare(t)
    ensures Trim(t) == t
  {
    TrimTakesOffSpaces("", t, "");
    assert "" + t + "" == t;
  }

  lemma BareBetween(start: string, rest: string, text: string)
    requires start != "" && !IsSpace(start[0]) && text != "" && Bare(text)
    ensures Bare(start + rest + text)
  {
  }

  lemma HeadingIsRead(level: nat, gap: string, text: string)
    requires HeadingParts(level, gap, text)
    ensures var l := Answers(HashMarks(level) + gap + text);
      l.heading == Some(text) && l.hashes == level && !l.Skipped()
  {
    var t, rest := HashMarks(level) + gap + text, gap + text;
    assert HashMarks(level)[0] == '#' && !IsSpace('#');
    BareBetween(HashMarks(level), gap, text);
    TrimmedAlready(t);
    assert t == HashMarks(level) + rest && rest[0] == gap[0];
    HashesStart(t, level, rest);
    LeadingSpaces(gap, text);
    FirstCharacters(t);
  }

  lemma HashesAreMarks(line: string)
    requires Hashes(line) > 0
    ensures var t, n := Trim(line), Hashes(line);
      n < |t| && t[..n] == HashMarks(n) && IsSpace(t[n])
  {
    var t, n := Trim(line), Hashes(line);
    assert |HashMarks(n)| == n;
    assert forall i :: 0 <= i < n ==> t[..n][i] == '#';
  }

  lemma TextAfterSpaces(s: string) returns (gap: string)
    requires s != "" && IsSpace(s[0]) && !IsSpace(s[|s| - 1])
    ensures gap != "" && Spaces(gap) && TrimStart(s) != "" && Bare(TrimStart(s)) && s == gap + TrimStart(s)
  {
    gap := StartIsSpace(s);
    var text := TrimStart(s);
    StartTrimmed(s);
    assert s == gap + text;
    assert |text| <= |s| && (text == "" ==> gap == s);
    assert text != "" ==> text[|text| - 1] == s[|s| - 1];
    assert gap == "" ==> text == s;
  }

  /** A line reads as a heading only when those are its parts. */
  lemma HeadingHasItsParts(line: string) returns (gap: string)
    requires IsHeading(line)
    ensures HeadingParts(Hashes(line), gap, HeadingText(line))
    ensures Trim(line) == HashMarks(Hashes(line)) + gap + HeadingText(line)
  {
    var t, n := Trim(line), Hashes(line);
    var before, after := TrimLeavesTheText(line);
    HashesAreMarks(line);
    gap := TextAfterSpaces(t[n..]);
    assert t == t[..n] + t[n..];
  }

  const OPEN := "<details><summary>"
  const SHUT := "</summary>"
  const NOTE := "<sub>"
  const END_NOTE := "</sub>"

  /** A line opens a folded block exactly when its text is `<details><summary>`, a summary on one
      line and `</summary>`. */
  lemma FoldIsRead(line: string, summary: string)
    ensures Answers(line).details == Some(summary) <==> Trim(line) == OPEN + summary + SHUT && OneLine(summary)
  {
    var t := Trim(line);
    if IsDetails(line) {
      assert t == t[..18] + t[18..|t| - 10] + t[|t| - 10..];
      assert t[..18] == OPEN;
    }
    if t == OPEN + summary + SHUT {
      assert t[18..|t| - 10] == summary && t[|t| - 10..] == SHUT && t[..18] == OPEN;
    }
  }

  /** A line is a footnote exactly when its text is `<sub>`, a text on one line and `</sub>`. */
  lemma NoteIsRead(line: string, text: string)
    ensures Answers(line).sub == Some(text) <==> Trim(line) == NOTE + text + END_NOTE && OneLine(text)
  {
    var t := Trim(line);
    if IsSub(line) {
      assert t == t[..5] + t[5..|t| - 6] + t[|t| - 6..];
      assert t[..5] == NOTE;
    }
    if t == NOTE + text + END_NOTE {
      assert t[5..|t| - 6] == text && t[|t| - 6..] == END_NOTE && t[..5] == NOTE;
    }
  }

  predicate BulletParts(mark: char, gap: string, text: string) {
    mark in {'-', '*'} && gap != "" && Spaces(gap) && text != "" && Bare(text)
  }

  lemma BulletIsRead(mark: char, gap: string, text: string)
    requires BulletParts(mark, gap, text)
    ensures var l := Answers([mark] + gap + text); l.bullet == Some(text) && !l.Skipped()
  {
    var t := [mark] + gap + text;
    assert !IsSpace(mark) by { SpacesAre(mark); }
    assert t[|t| - 1] == text[|text| - 1] && t[1] == gap[0];
    TrimTakesOffSpaces("", t, "");
    assert "" + t + "" == t;
    assert t[1..] == gap + text;
    LeadingSpaces(gap, text);
  }

  /** A line is an item of a list only when those are its parts. */
  lemma BulletHasItsParts(line: string) returns (gap: string)
    requires IsBullet(line)
    ensures var item := Answers(line).bullet;
      item.Some? && BulletParts(Trim(line)[0], gap, item.value) && Trim(line) == [Trim(line)[0]] + gap + item.value
  {
    var t := Trim(line);
    var before, after := TrimLeavesTheText(line);
    gap := TextAfterSpaces(t[1..]);
    assert t == [t[0]] + t[1..];
  }

  // ---------------------------------------------------------------------------
  // Lines of a paragraph
  // ---------------------------------------------------------------------------

  lemma {:induction false} JoinOfTwo(a: seq<string>, b: seq<string>)
    requires a != [] && b != []
    ensures Join(a + b) == Join(a) + " " + Join(b)
  {
    var all := a + b;
    assert all[1..] == a[1..] + b;
    if |a| == 1 {
      assert all[1..] == b;
    } else {
      JoinOfTwo(a[1..], b);
    }
  }

  /** Words put together and taken apart again. */
  lemma {:induction false} JoinThenSplit(words: seq<string>)
    requires words != [] && forall w :: w in words ==> ' ' !in w
    ensures Split(Join(words), ' ') == words
  {
    assert words[0] in words;
    if |words| == 1 {
      SplitNowhere(words[0], ' ');
    } else {
      JoinThenSplit(words[1..]);
      SplitBefore(words[0], Join(words[1..]), ' ');
    }
  }

  // ---------------------------------------------------------------------------
  // Lines of a text
  // ---------------------------------------------------------------------------

  /** Every carriage return before a line feed taken out. */
  function NormalEnds(s: string): string {
    if s == "" then ""
    else if "\r\n" <= s then "\n" + NormalEnds(s[2..])
    else [s[0]] + NormalEnds(s[1..])
  }

  function SourceLines(source: string): seq<string> {
    Split(NormalEnds(source), '\n')
  }

  predicate SameLine(a: string, b: string) {
    b == a || b == a + "\r"
  }

  lemma NormalStep(s: string)
    requires "\r\n" <= s
    ensures SourceLines(s) == [""] + SourceLines(s[2..])
    ensures Split(s, '\n') == ["\r"] + Split(s[2..], '\n')
  {
    assert s == "\r" + ['\n'] + s[2..];
    SplitBefore("\r", s[2..], '\n');
    assert NormalEnds(s) == "" + ['\n'] + NormalEnds(s[2..]);
    SplitBefore("", NormalEnds(s[2..]), '\n');
  }

  lemma {:induction false} NormalLines(s: string)
    ensures var a, b := SourceLines(s), Split(s, '\n');
      |a| == |b| && forall i :: 0 <= i < |a| ==> SameLine(a[i], b[i])
  {
    if "\r\n" <= s {
      NormalLines(s[2..]);
      NormalStep(s);
    } else if s != "" {
      NormalLines(s[1..]);
      assert NormalEnds(s)[1..] == NormalEnds(s[1..]) && NormalEnds(s)[0] == s[0];
      assert [s[0]] + (SourceLines(s[1..])[0] + "\r") == ([s[0]] + SourceLines(s[1..])[0]) + "\r";
    }
  }

  lemma SameLineReadsAlike(a: string, b: string)
    requires SameLine(a, b)
    ensures Answers(a) == Answers(b)
  {
    if b != a {
      assert "" + a + "\r" == b;
      SpacesAroundALineDoNotMatter("", a, "\r");
    }
  }

  lemma {:induction false} SameLinesReadAlike(a: seq<string>, b: seq<string>)
    requires |a| == |b| && forall i :: 0 <= i < |a| ==> SameLine(a[i], b[i])
    ensures ReadAll(a) == ReadAll(b)
  {
    if a != [] {
      SameLineReadsAlike(a[0], b[0]);
      SameLinesReadAlike(a[1..], b[1..]);
    }
  }

  /** Carriage returns before line feeds make no difference. */
  lemma LineEndsDoNotMatter(source: string)
    ensures ReadAll(SourceLines(source)) == ReadAll(Split(source, '\n'))
  {
    NormalLines(source);
    SameLinesReadAlike(SourceLines(source), Split(source, '\n'));
  }

  function Text(lines: seq<string>): string
    requires lines != []
  {
    if |lines| == 1 then lines[0] else lines[0] + "\n" + Text(lines[1..])
  }

  /** A text read line by line is what its lines are. */
  lemma {:induction false} TextIsItsLines(lines: seq<string>)
    requires lines != [] && forall l :: l in lines ==> '\n' !in l
    ensures Split(Text(lines), '\n') == lines
  {
    assert lines[0] in lines;
    if |lines| == 1 {
      SplitNowhere(lines[0], '\n');
    } else {
      TextIsItsLines(lines[1..]);
      SplitBefore(lines[0], Text(lines[1..]), '\n');
    }
  }

  lemma SourceIsItsLines(lines: seq<string>)
    requires lines != [] && forall l :: l in lines ==> '\n' !in l
    ensures ReadAll(SourceLines(Text(lines))) == ReadAll(lines)
  {
    LineEndsDoNotMatter(Text(lines));
    TextIsItsLines(lines);
  }
}
