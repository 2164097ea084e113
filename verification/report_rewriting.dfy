/** What has been parsed, written out plainly and parsed again. */
module ReportRewriting {
  import opened Options
  import opened ReportLines
  import opened ReportBlocks
  import opened ReportComposition
  import opened ReportWriting
  import opened ReportRoundTrip

  // ---------------------------------------------------------------------------
  // The plain way to write a block
  // ---------------------------------------------------------------------------

  function Simply(text: string): Padded { Padded("", text, "") }

  function AllSimply(texts: seq<string>): seq<Padded> {
    if texts == [] then [] else [Simply(texts[0])] + AllSimply(texts[1..])
  }

  function PlainRow(cells: seq<string>): RowLine {
    RowLine("", Row(true, AllSimply(cells), true), "")
  }

  function PlainRows(rows: seq<seq<string>>): seq<RowLine> {
    if rows == [] then [] else [PlainRow(rows[0])] + PlainRows(rows[1..])
  }

  function PlainItems(items: seq<string>): seq<Item> {
    if items == [] then [] else [Item("", '-', " ", items[0], "")] + PlainItems(items[1..])
  }

  function Plainly(b: Block): Written {
    match b
    case Heading(level, text) => Title("", level, " ", text, "")
    case Table(header, rows) => Grid(PlainRow(header), "|---|", PlainRows(rows))
    case Details(summary, lines) => Fold(Simply(summary), AllSimply(lines), Simply(""))
    case Sub(text) => Note(Simply(text))
    case List(items) => Bullets(PlainItems(items))
    case Paragraph(text) => Prose([Simply(text)])
  }

  function AllPlainly(blocks: seq<Block>): seq<Written> {
    if blocks == [] then [] else [Plainly(blocks[0])] + AllPlainly(blocks[1..])
  }

  // ---------------------------------------------------------------------------
  // What can be read as a block
  // ---------------------------------------------------------------------------

  predicate IsText(t: string) { t != "" && Bare(t) }

  predicate IsRow(cells: seq<string>) {
    cells != [] && forall c :: c in cells ==> Bare(c) && '|' !in c
  }

  predicate RuledTexts(cells: seq<string>) {
    && (exists c :: c in cells && '-' in c)
    && forall c :: c in cells ==> forall x :: x in c ==> x in {':', '-'} || IsSpace(x)
  }

  predicate Fit(b: Block) {
    match b
    case Heading(level, text) => HeadingParts(level, " ", text)
    case Table(header, rows) => IsRow(header) && forall r :: r in rows ==> IsRow(r) && !RuledTexts(r)
    case Details(summary, lines) => OneLine(summary) && forall l :: l in lines ==> IsText(l) && l != CLOSE
    case Sub(text) => OneLine(text)
    case List(items) => items != [] && forall i :: i in items ==> IsText(i)
    case Paragraph(text) => IsText(text) && !("<details>" <= text) && !("<sub>" <= text)
  }

  /** What the parser relies on in one line. */
  predicate Sensible(l: Line) {
    && Bare(l.trimmed)
    && (l.heading.Some? ==> HeadingParts(l.hashes, " ", l.heading.value))
    && IsRow(l.cells) && (l.row && !l.rule ==> !RuledTexts(l.cells))
    && (l.details.Some? ==> OneLine(l.details.value))
    && (l.endsDetails <==> l.trimmed == CLOSE)
    && (l.startsDetails <==> "<details>" <= l.trimmed) && (l.startsSub <==> "<sub>" <= l.trimmed)
    && (l.sub.Some? ==> OneLine(l.sub.value))
    && (l.bullet.Some? ==> IsText(l.bullet.value))
  }

  lemma {:induction false} PiecesHaveTheCharacters(s: string, at: char, x: char)
    requires x != at
    ensures x in s <==> exists piece :: piece in Split(s, at) && x in piece
  {
    if s != "" {
      var rest := Split(s[1..], at);
      PiecesHaveTheCharacters(s[1..], at, x);
      assert s == [s[0]] + s[1..] && rest == [rest[0]] + rest[1..];
      if s[0] == at {
        assert Split(s, at)[1..] == rest;
        assert forall piece :: piece in Split(s, at) <==> piece == "" || piece in rest;
      } else {
        var first := [s[0]] + rest[0];
        assert forall piece :: piece in Split(s, at) <==> piece == first || piece in rest[1..];
        assert x in first <==> x == s[0] || x in rest[0];
        assert forall piece :: piece in rest <==> piece == rest[0] || piece in rest[1..];
      }
    }
  }

  lemma {:induction false} TrimmedPiecesHaveTheCharacters(pieces: seq<string>, x: char)
    requires !IsSpace(x)
    ensures (exists p :: p in pieces && x in p) <==> (exists p :: p in TrimAll(pieces) && x in p)
  {
    if pieces != [] {
      var first, rest := pieces[0], pieces[1..];
      TrimmedPiecesHaveTheCharacters(rest, x);
      TrimKeepsChars(first);
      assert forall p :: p in pieces <==> p == first || p in rest;
      assert forall p :: p in TrimAll(pieces) <==> p == Trim(first) || p in TrimAll(rest);
    }
  }

  lemma EdgesAreOnlyPipes(s: string, x: char)
    requires x != '|'
    ensures x in s <==> x in WithoutEdges(s)
  {
    var t := if "|" <= s then s[1..] else s;
    if "|" <= s { assert s == "|" + t; }
    if EndsWith(t, "|") { assert t == t[..|t| - 1] + "|"; }
  }

  lemma CellsHaveTheCharacters(line: string, x: char)
    requires x != '|' && !IsSpace(x)
    ensures x in line <==> exists c :: c in Cells(line) && x in c
  {
    TrimKeepsChars(line);
    EdgesAreOnlyPipes(Trim(line), x);
    PiecesHaveTheCharacters(WithoutEdges(Trim(line)), '|', x);
    TrimmedPiecesHaveTheCharacters(Split(WithoutEdges(Trim(line)), '|'), x);
  }

  lemma RuledCellsMakeARule(line: string)
    requires RuledTexts(Cells(line))
    ensures IsRule(line)
  {
    assert !IsSpace('-');
    CellsHaveTheCharacters(line, '-');
    forall x | x in line && x != '|' && !IsSpace(x) ensures x in {':', '-'} { CellsHaveTheCharacters(line, x); }
  }

  lemma MarkedAreSensible(line: string)
    ensures IsHeading(line) ==> HeadingParts(Hashes(line), " ", HeadingText(line))
    ensures IsBullet(line) ==> IsText(TrimStart(Trim(line)[1..]))
  {
    if IsHeading(line) { var gap := HeadingHasItsParts(line); }
    if IsBullet(line) { var gap := BulletHasItsParts(line); }
  }

  lemma CellsAreSensible(line: string)
    ensures IsRow(Cells(line)) && (RuledTexts(Cells(line)) ==> IsRule(line))
  {
    CellsReadAreCells(line);
    if RuledTexts(Cells(line)) { RuledCellsMakeARule(line); }
  }

  lemma LinesAreSensible(line: string)
    ensures Sensible(Read(line))
  {
    var before, after := TrimLeavesTheText(line);
    CellsAreSensible(line);
    MarkedAreSensible(line);
  }

  lemma {:induction false} AllAreSensible(lines: seq<string>)
    ensures forall l :: l in ReadAll(lines) ==> Sensible(l)
  {
    if lines != [] {
      LinesAreSensible(lines[0]);
      AllAreSensible(lines[1..]);
    }
  }

  // ---------------------------------------------------------------------------
  // What is read is fit
  // ---------------------------------------------------------------------------

  predicate AllSensible(lines: seq<Line>) {
    forall l :: l in lines ==> Sensible(l)
  }

  lemma {:induction false} RowsAreFit(lines: seq<Line>)
    requires AllSensible(lines)
    ensures forall r :: r in AllCells(lines[..RowCount(lines)]) ==> IsRow(r) && !RuledTexts(r)
  {
    var n := RowCount(lines);
    if n > 0 {
      RowsAreFit(lines[1..]);
      assert Sensible(lines[0]);
      assert lines[..n][1..] == lines[1..][..n - 1];
    }
  }

  lemma {:induction false} ItemsAreFit(lines: seq<Line>)
    requires AllSensible(lines)
    ensures var items := Items(lines[..BulletCount(lines)]);
      |items| == BulletCount(lines) && forall i :: i in items ==> IsText(i)
  {
    var n := BulletCount(lines);
    if n > 0 {
      ItemsAreFit(lines[1..]);
      assert Sensible(lines[0]);
      assert lines[..n][1..] == lines[1..][..n - 1];
    }
  }

  lemma {:induction false} BodyIsFit(lines: seq<Line>)
    requires AllSensible(lines)
    ensures forall t :: t in Texts(lines[..BodyCount(lines)]) ==> IsText(t) && t != CLOSE
  {
    var n := BodyCount(lines);
    if n > 0 {
      BodyIsFit(lines[1..]);
      assert Sensible(lines[0]);
      assert lines[..n][1..] == lines[1..][..n - 1];
    }
  }

  lemma {:induction false} PartsAreFit(lines: seq<Line>)
    requires AllSensible(lines)
    ensures var parts := Trimmed(lines[..ParagraphCount(lines)]);
      && |parts| == ParagraphCount(lines) && (forall t :: t in parts ==> IsText(t))
      && (parts != [] ==> parts[0] == lines[0].trimmed)
  {
    var n := ParagraphCount(lines);
    if n > 0 {
      PartsAreFit(lines[1..]);
      assert Sensible(lines[0]);
      assert lines[..n][1..] == lines[1..][..n - 1];
    }
  }

  lemma {:induction false} JoinedIsText(parts: seq<string>)
    requires parts != [] && forall t :: t in parts ==> IsText(t)
    ensures IsText(Join(parts)) && parts[0] <= Join(parts) && Join(parts)[0] == parts[0][0]
  {
    assert parts[0] in parts;
    if |parts| > 1 { JoinedIsText(parts[1..]); }
  }

  lemma StartOfJoin(parts: seq<string>, word: string)
    requires parts != [] && ' ' !in word && word <= Join(parts)
    ensures word <= parts[0]
  {
    var n := |parts[0]|;
    assert forall i :: 0 <= i < |word| ==> word[i] in word;
    if |parts| > 1 { assert Join(parts)[n] == ' ' && Join(parts)[..n] == parts[0]; }
  }

  lemma ParagraphIsFit(lines: seq<Line>)
    requires AllSensible(lines) && GoesOn(lines)
    ensures Fit(Paragraph(Join(Trimmed(lines[..ParagraphCount(lines)]))))
  {
    var parts := Trimmed(lines[..ParagraphCount(lines)]);
    PartsAreFit(lines);
    JoinedIsText(parts);
    assert Sensible(lines[0]);
    if "<details>" <= Join(parts) { StartOfJoin(parts, "<details>"); }
    if "<sub>" <= Join(parts) { StartOfJoin(parts, "<sub>"); }
  }

  lemma FirstIsFit(lines: seq<Line>)
    requires lines != [] && AllSensible(lines) && !lines[0].Stuck()
    ensures forall b :: b in FirstBlock(lines) ==> Fit(b)
  {
    var line := lines[0];
    assert Sensible(line);
    if line.Skipped() || line.heading.Some? {
    } else if StartsTable(lines) {
      assert AllSensible(lines[2..]);
      RowsAreFit(lines[2..]);
      assert lines[2..][..RowCount(lines[2..])] == lines[2..2 + RowCount(lines[2..])];
    } else if line.details.Some? {
      assert AllSensible(lines[1..]);
      BodyIsFit(lines[1..]);
      assert lines[1..][..BodyCount(lines[1..])] == lines[1..1 + BodyCount(lines[1..])];
    } else if line.sub.Some? {
    } else if line.bullet.Some? {
      ItemsAreFit(lines);
    } else {
      ParagraphIsFit(lines);
    }
  }

  lemma {:induction false} BlocksAreFit(lines: seq<Line>)
    requires Clean(lines, false) && AllSensible(lines)
    ensures forall b :: b in Blocks(lines) ==> Fit(b)
    decreases |lines|
  {
    if lines != [] {
      TakesSomething(lines);
      RestIsAlike(lines);
      FirstIsFit(lines);
      BlocksAreFit(lines[Taken(lines)..]);
    }
  }

  // ---------------------------------------------------------------------------
  // Writing it again
  // ---------------------------------------------------------------------------

  lemma {:induction false} SimplyContent(texts: seq<string>)
    ensures Content(AllSimply(texts)) == texts
  {
    if texts != [] { SimplyContent(texts[1..]); }
  }

  lemma {:induction false} SimplyHas(texts: seq<string>)
    ensures forall p :: p in AllSimply(texts) <==> p == Simply(p.text) && p.text in texts
  {
    if texts != [] { SimplyHas(texts[1..]); }
  }

  lemma PlainRowIsValid(cells: seq<string>)
    requires IsRow(cells)
    ensures var r := PlainRow(cells); r.Valid() && Content(r.row.cells) == cells
    ensures Ruled(PlainRow(cells).row.cells) <==> RuledTexts(cells)
  {
    SimplyHas(cells);
    SimplyContent(cells);
    assert forall c :: c in cells ==> Simply(c) in AllSimply(cells) && Simply(c).text == c;
  }

  lemma {:induction false} PlainRowsAreValid(rows: seq<seq<string>>)
    requires forall r :: r in rows ==> IsRow(r) && !RuledTexts(r)
    ensures forall r :: r in PlainRows(rows) ==> r.Valid() && !Ruled(r.row.cells)
    ensures RowContent(PlainRows(rows)) == rows
  {
    if rows != [] {
      assert rows[0] in rows;
      PlainRowIsValid(rows[0]);
      PlainRowsAreValid(rows[1..]);
    }
  }

  lemma {:induction false} PlainItemsAreValid(items: seq<string>)
    requires forall i :: i in items ==> IsText(i)
    ensures |PlainItems(items)| == |items|
    ensures forall i :: i in PlainItems(items) ==> i.Valid()
    ensures ItemContent(PlainItems(items)) == items
  {
    if items != [] {
      assert items[0] in items;
      PlainItemsAreValid(items[1..]);
    }
  }

  lemma {:induction false} NoneIsEmpty(texts: seq<string>)
    requires forall t :: t in texts ==> t != ""
    ensures NotEmpty(texts) == texts
  {
    if texts != [] {
      assert texts[0] in texts && forall t :: t in texts[1..] ==> t in texts;
      NoneIsEmpty(texts[1..]);
    }
  }

  /** Every block that the parser makes, but a paragraph that reads as another line, can be written. */
  lemma FitIsProper(b: Block)
    requires Fit(b) && (b.Paragraph? ==> PlainText(b.text))
    ensures Proper(Plainly(b)) && Meant(Plainly(b)) == [b]
  {
    match b
    case Heading(_, _) =>
    case Table(header, rows) =>
      PlainRowIsValid(header);
      PlainRowsAreValid(rows);
    case Details(_, lines) =>
      SimplyHas(lines);
      SimplyContent(lines);
      NoneIsEmpty(lines);
    case Sub(_) =>
    case List(items) => PlainItemsAreValid(items);
    case Paragraph(text) => assert Content([Simply(text)]) == [text];
  }

  /** What a paragraph's text makes as a line of its own. */
  lemma LoneLine(text: string)
    requires Fit(Paragraph(text)) && !PlainText(text) && !Read(text).Stuck()
    ensures var lines := [Read(text)];
      Clean(lines, false) && Closed(lines, false) && |Blocks(lines)| <= 1 && Blocks(lines) != [Paragraph(text)]
  {
    TrimmedAlready(text);
    var l := Read(text);
    var lines := [l];
    FirstCharacters(text);
    assert l.Skipped() || l.heading.Some? || l.bullet.Some?;
    assert lines[1..] == [];
    PlainIsClosed(lines);
  }

  function Lines(b: Block): seq<Line> { ReadAll(LinesOf(Plainly(b))) }

  lemma PutOne(p: Padded)
    ensures PutAll([p]) == [Put(p)] && Content([p]) == [p.text]
  {
    assert [p][1..] == [];
  }

  lemma PutTwo(p: Padded, q: Padded)
    ensures PutAll([p, q]) == [Put(p), Put(q)] && Content([p, q]) == [p.text, q.text]
  {
    PutOne(q);
    assert [p, q][1..] == [q];
  }

  lemma SimplyPut(text: string)
    ensures Put(Simply(text)) == text
  {
  }

  lemma ParagraphText(text: string)
    ensures LinesOf(Plainly(Paragraph(text))) == [text]
  {
    PutOne(Simply(text));
    SimplyPut(text);
  }

  lemma ParagraphLine(text: string)
    ensures Lines(Paragraph(text)) == [Read(text)]
  {
    ParagraphText(text);
    ReadOne(text);
  }

  predicate Writable(b: Block) {
    b.Paragraph? ==> PlainText(b.text)
  }

  /** Alone, the lines of a block make that block if it is writable; else another or none. */
  predicate Alone(b: Block, lines: seq<Line>) {
    && Clean(lines, false) && Closed(lines, false)
    && |Blocks(lines)| <= 1 && (Blocks(lines) == [b] <==> Writable(b))
  }

  lemma MadeAlone(b: Block, lines: seq<Line>)
    requires Makes(lines, [b]) && Writable(b)
    ensures lines != [] && Alone(b, lines) && !lines[0].Stuck()
  {
  }

  lemma WrittenAlone(b: Block)
    requires Fit(b)
    ensures Lines(b) != []
    ensures !Lines(b)[0].Stuck() ==> Alone(b, Lines(b))
    ensures Writable(b) ==> !Lines(b)[0].Stuck()
  {
    if Writable(b) {
      FitIsProper(b);
      BlockIsRead(Plainly(b));
      MadeAlone(b, Lines(b));
    } else {
      ParagraphLine(b.text);
      if !Read(b.text).Stuck() { LoneLine(b.text); }
    }
  }

  function Again(blocks: seq<Block>): seq<Line> {
    ReadAll(Report(AllPlainly(blocks), ""))
  }

  lemma AgainStep(blocks: seq<Block>)
    requires blocks != []
    ensures Again(blocks) == Lines(blocks[0]) + [Read("")] + Again(blocks[1..])
  {
    var lines, rest := LinesOf(Plainly(blocks[0])), Report(AllPlainly(blocks[1..]), "");
    ReadTogether(lines + [""], rest);
    ReadTogether(lines, [""]);
    ReadOne("");
  }

  lemma {:induction false} CleanInParts(a: seq<Line>, b: seq<Line>, inside: bool)
    requires Clean(a, inside) && Closed(a, inside)
    ensures Clean(a + b, inside) <==> Clean(b, false)
  {
    if a == [] {
      assert a + b == b;
    } else {
      assert (a + b)[1..] == a[1..] + b;
      CleanInParts(a[1..], b, if inside then !a[0].endsDetails else a[0].details.Some?);
    }
  }

  lemma RestIsClean(first: seq<Line>, rest: seq<Line>)
    requires Clean(first, false) && Closed(first, false) && Clean(first + [Read("")] + rest, false)
    ensures Clean(rest, false) && Blocks(first + [Read("")] + rest) == Blocks(first) + Blocks(rest)
  {
    var blank := Read("");
    BlankIsRead("");
    CleanInParts(first, [blank] + rest, false);
    assert first + ([blank] + rest) == first + [blank] + rest && ([blank] + rest)[1..] == rest;
    ClosedReportsCompose(first, blank, rest);
  }

  lemma {:induction false} AgainHasNoMore(blocks: seq<Block>)
    requires (forall b :: b in blocks ==> Fit(b)) && Clean(Again(blocks), false)
    ensures |Blocks(Again(blocks))| <= |blocks|
    ensures Blocks(Again(blocks)) == blocks ==> forall b :: b in blocks ==> Writable(b)
  {
    if blocks != [] {
      var b, rest := blocks[0], blocks[1..];
      assert b in blocks;
      AgainStep(blocks);
      WrittenAlone(b);
      assert Again(blocks)[0] == Lines(b)[0];
      RestIsClean(Lines(b), Again(rest));
      AgainHasNoMore(rest);
      if Blocks(Again(blocks)) == blocks {
        assert |Blocks(Lines(b))| == 1 && Blocks(Again(blocks))[1..] == Blocks(Again(rest));
      }
    }
  }

  lemma {:induction false} WritableIsReadAgain(blocks: seq<Block>)
    requires forall b :: b in blocks ==> Fit(b) && Writable(b)
    ensures Clean(Again(blocks), false) && Blocks(Again(blocks)) == blocks
  {
    if blocks != [] {
      var b, rest := blocks[0], blocks[1..];
      assert b in blocks;
      AgainStep(blocks);
      WrittenAlone(b);
      BlankIsRead("");
      WritableIsReadAgain(rest);
      ClosedReportsCompose(Lines(b), Read(""), Again(rest));
    }
  }

  /** What any report parses as, written out plainly and parsed again, is the same list of blocks,
      exactly when no paragraph of several lines makes one line of another kind: a heading, an item
      or a comment. */
  lemma ParsingAgainGivesTheSameExactlyWhen(lines: seq<string>)
    requires Clean(ReadAll(lines), false)
    ensures
      var blocks := Blocks(ReadAll(lines));
      Clean(Again(blocks), false) && Blocks(Again(blocks)) == blocks
      <==> forall b :: b in blocks && b.Paragraph? ==> PlainText(b.text)
  {
    var blocks := Blocks(ReadAll(lines));
    AllAreSensible(lines);
    BlocksAreFit(ReadAll(lines));
    if forall b :: b in blocks ==> Writable(b) { WritableIsReadAgain(blocks); }
    if Clean(Again(blocks), false) { AgainHasNoMore(blocks); }
  }

  lemma JoinTwo(a: string, b: string)
    ensures Join([a, b]) == a + " " + b
  {
    assert [a, b][1..] == [b];
  }

  /** Two lines of a paragraph of which the first starts like a comment and the second ends like one. */
  predicate StartAndEndOfAComment(a: string, b: string) {
    && Bare(a) && PlainText(a) && "<!--" <= a
    && Bare(b) && PlainText(b) && EndsWith(b, "-->")
  }

  lemma TwoLines(a: string, b: string)
    requires Bare(a) && PlainText(a) && !("|" <= a) && Bare(b) && PlainText(b)
    ensures Makes(ReadAll([a, b]), [Paragraph(a + " " + b)])
  {
    var p, q := Simply(a), Simply(b);
    PutTwo(p, q);
    SimplyPut(a);
    SimplyPut(b);
    JoinTwo(a, b);
    assert !HeadsATable([p, q], 0) && !HeadsATable([p, q], 1);
    BlockIsRead(Prose([p, q]));
  }

  lemma CommentIsSkipped(t: string)
    requires Bare(t) && "<!--" <= t && EndsWith(t, "-->")
    ensures Read(t).Skipped()
  {
    TrimmedAlready(t);
  }

  lemma TogetherTheyAreAComment(a: string, b: string)
    requires StartAndEndOfAComment(a, b)
    ensures var t := a + " " + b; Bare(t) && "<!--" <= t && EndsWith(t, "-->")
  {
    var t := a + " " + b;
    assert t[..4] == a[..4] && t[|t| - 3..] == b[|b| - 3..];
  }

  lemma OneSkipped(a: Line, rest: seq<Line>)
    requires a.Skipped() && Makes(rest, [])
    ensures Makes([a] + rest, [])
  {
    var lines := [a] + rest;
    assert lines[1..] == rest && lines[0] == a;
    assert a.Plain();
    BlocksStep(lines);
  }

  lemma TwoSkipped(a: Line, b: Line)
    requires a.Skipped() && b.Skipped()
    ensures Makes([a, b], [])
  {
    OneSkipped(b, []);
    assert [b] + [] == [b];
    OneSkipped(a, [b]);
    assert [a] + [b] == [a, b];
  }

  lemma WrittenAgain(text: string)
    ensures Again([Paragraph(text)]) == [Read(text), Read("")]
  {
    var blocks := [Paragraph(text)];
    AgainStep(blocks);
    ParagraphLine(text);
    assert blocks[1..] == [];
    NothingAgain();
  }

  lemma NothingAgain()
    ensures Again([]) == []
  {
  }

  /** Such lines, no comments themselves, make a paragraph that is lost when it is one line. */
  lemma ParagraphMayReadAsAComment(a: string, b: string)
    requires StartAndEndOfAComment(a, b)
    ensures var text := a + " " + b;
      Makes(ReadAll([a, b]), [Paragraph(text)]) && Makes(Again([Paragraph(text)]), [])
  {
    var text := a + " " + b;
    assert a[0] == '<';
    TwoLines(a, b);
    TogetherTheyAreAComment(a, b);
    CommentIsSkipped(text);
    BlankIsRead("");
    WrittenAgain(text);
    TwoSkipped(Read(text), Read(""));
  }

  lemma SuchLinesThereAre()
    ensures StartAndEndOfAComment("<!--a", "b-->")
  {
    var a, b := "<!--a", "b-->";
    assert !EndsWith(a, "-->") by { assert a[|a| - 1] == 'a'; }
    assert EndsWith(b, "-->");
    TrimmedAlready(a);
    TrimmedAlready(b);
    FirstCharacters(a);
    FirstCharacters(b);
  }
}
