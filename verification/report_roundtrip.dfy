/** Reports put together from blocks, and parsed again. */
module ReportRoundTrip {
  import opened Options
  import opened ReportLines
  import opened ReportBlocks
  import opened ReportComposition
  import opened ReportWriting

  // ---------------------------------------------------------------------------
  // Blocks as they are written
  // ---------------------------------------------------------------------------

  datatype Item = Item(before: string, mark: char, gap: string, text: string, after: string)
  {
    function Text(): string { [mark] + gap + text }

    predicate Valid() { Spaces(before) && BulletParts(mark, gap, text) && Spaces(after) }
  }

  datatype RowLine = RowLine(before: string, row: Row, after: string)
  {
    /** A row of a table starts with a pipe. */
    predicate Valid() { Spaces(before) && row.Valid() && row.front && Spaces(after) }
  }

  /** A block with every choice its writer has: the spaces around each line and each cell, the marks,
      the rule under a header, blank lines in a folded block. */
  datatype Written =
    | Title(before: string, level: nat, gap: string, text: string, after: string)
    | Grid(header: RowLine, rule: string, rows: seq<RowLine>)
    | Fold(open: Padded, body: seq<Padded>, shut: Padded)
    | Note(line: Padded)
    | Bullets(items: seq<Item>)
    | Prose(parts: seq<Padded>)
    | Remark(remark: Padded)

  function PutAll(parts: seq<Padded>): seq<string> {
    if parts == [] then [] else [Put(parts[0])] + PutAll(parts[1..])
  }

  function RowTexts(rows: seq<RowLine>): seq<string> {
    if rows == [] then [] else [rows[0].before + rows[0].row.Text() + rows[0].after] + RowTexts(rows[1..])
  }

  function ItemTexts(items: seq<Item>): seq<string> {
    if items == [] then [] else [items[0].before + items[0].Text() + items[0].after] + ItemTexts(items[1..])
  }

  function Wrapped(p: Padded, start: string, end: string): string {
    p.before + (start + p.text + end) + p.after
  }

  const CLOSE := "</details>"

  /** The lines of a block. */
  function LinesOf(w: Written): seq<string> {
    match w
    case Title(before, level, gap, text, after) => [before + (HashMarks(level) + gap + text) + after]
    case Grid(header, rule, rows) => RowTexts([header]) + [rule] + RowTexts(rows)
    case Fold(open, body, shut) => [Wrapped(open, OPEN, SHUT)] + PutAll(body) + [Wrapped(shut, CLOSE, "")]
    case Note(line) => [Wrapped(line, NOTE, END_NOTE)]
    case Bullets(items) => ItemTexts(items)
    case Prose(parts) => PutAll(parts)
    case Remark(remark) => [Wrapped(remark, "<!--", "-->")]
  }

  function ItemContent(items: seq<Item>): seq<string> {
    if items == [] then [] else [items[0].text] + ItemContent(items[1..])
  }

  function RowContent(rows: seq<RowLine>): seq<seq<string>> {
    if rows == [] then [] else [Content(rows[0].row.cells)] + RowContent(rows[1..])
  }

  function NotEmpty(texts: seq<string>): seq<string> {
    if texts == [] then [] else (if texts[0] == "" then [] else [texts[0]]) + NotEmpty(texts[1..])
  }

  /** What the writer meant. */
  function Meant(w: Written): seq<Block> {
    match w
    case Title(_, level, _, text, _) => [Heading(level, text)]
    case Grid(header, _, rows) => [Table(Content(header.row.cells), RowContent(rows))]
    case Fold(open, body, _) => [Details(open.text, NotEmpty(Content(body)))]
    case Note(line) => [Sub(line.text)]
    case Bullets(items) => [List(ItemContent(items))]
    case Prose(parts) => [Paragraph(Join(Content(parts)))]
    case Remark(_) => []
  }

  predicate Around(p: Padded) { Spaces(p.before) && Spaces(p.after) }

  predicate RuleText(s: string) {
    '-' in s && forall c :: c in s ==> c in {':', '|', '-'} || IsSpace(c)
  }

  /** A row all of dashes and colons would be a second rule. */
  predicate Ruled(cells: seq<Padded>) {
    && (exists c :: c in cells && '-' in c.text)
    && forall c :: c in cells ==> forall x :: x in c.text ==> x in {':', '-'} || IsSpace(x)
  }

  /** The text of a paragraph's line is that of no other line. */
  predicate PlainText(t: string) {
    && t != "" && Hashes(t) == 0 && !IsBullet(t)
    && !("<details>" <= t) && !("<sub>" <= t) && !("<!--" <= t && EndsWith(t, "-->"))
  }

  predicate HeadsATable(parts: seq<Padded>, i: nat)
    requires i < |parts|
  {
    "|" <= parts[i].text && i + 1 < |parts| && RuleText(parts[i + 1].text)
  }

  predicate Proper(w: Written) {
    match w
    case Title(before, level, gap, text, after) =>
      Spaces(before) && HeadingParts(level, gap, text) && Spaces(after)
    case Grid(header, rule, rows) =>
      header.Valid() && RuleText(rule) && forall r :: r in rows ==> r.Valid() && !Ruled(r.row.cells)
    case Fold(open, body, shut) =>
      && Around(open) && OneLine(open.text) && Around(shut) && shut.text == ""
      && forall p :: p in body ==> IsPadded(p) && p.text != CLOSE
    case Note(line) => Around(line) && OneLine(line.text)
    case Bullets(items) => items != [] && forall i :: i in items ==> i.Valid()
    case Prose(parts) =>
      && parts != [] && (forall p :: p in parts ==> IsPadded(p) && PlainText(p.text))
      && forall i :: 0 <= i < |parts| ==> !HeadsATable(parts, i)
    case Remark(remark) => Around(remark)
  }

  // ---------------------------------------------------------------------------
  // Blocks from their readings
  // ---------------------------------------------------------------------------

  /** These lines and no other make these blocks. */
  predicate Makes(lines: seq<Line>, blocks: seq<Block>) {
    Clean(lines, false) && Closed(lines, false) && Blocks(lines) == blocks
  }

  lemma AllTaken(lines: seq<Line>)
    requires lines != [] && !lines[0].Stuck() && Taken(lines) == |lines| && Closed(lines, false)
    ensures Makes(lines, FirstBlock(lines))
  {
    assert lines[|lines|..] == [];
    RestIsAlike(lines);
    BlocksStep(lines);
  }

  lemma PlainIsClosed(lines: seq<Line>)
    requires lines != [] && !lines[0].Stuck() && lines[0].details.None? && Taken(lines) == |lines|
    ensures Makes(lines, FirstBlock(lines))
  {
    TakenIsPlain(lines);
    ScanPlain(lines, |lines|);
    assert lines[|lines|..] == [];
    AllTaken(lines);
  }

  lemma {:induction false} AllRows(lines: seq<Line>)
    requires forall l :: l in lines ==> l.row && !l.rule
    ensures RowCount(lines) == |lines|
  {
    if lines != [] {
      assert lines[0] in lines;
      AllRows(lines[1..]);
    }
  }

  lemma {:induction false} AllBullets(lines: seq<Line>)
    requires forall l :: l in lines ==> l.bullet.Some?
    ensures BulletCount(lines) == |lines|
  {
    if lines != [] {
      assert lines[0] in lines;
      AllBullets(lines[1..]);
    }
  }

  lemma {:induction false} AllBody(lines: seq<Line>, close: Line)
    requires (forall l :: l in lines ==> !l.endsDetails) && close.endsDetails
    ensures BodyCount(lines + [close]) == |lines|
  {
    if lines == [] {
      assert lines + [close] == [close];
    } else {
      assert lines[0] in lines && (lines + [close])[1..] == lines[1..] + [close];
      AllBody(lines[1..], close);
    }
  }

  predicate Unmarked(l: Line) {
    !l.Skipped() && l.hashes == 0 && !l.startsDetails && !l.startsSub
  }

  predicate Ordinary(l: Line) {
    Unmarked(l) && l.bullet.None?
  }

  lemma {:induction false} AllProse(lines: seq<Line>)
    requires forall l :: l in lines ==> Ordinary(l)
    requires forall i :: 0 <= i < |lines| ==> !StartsTable(lines[i..])
    ensures ParagraphCount(lines) == |lines|
  {
    if lines != [] {
      assert lines[0] in lines && lines[0..] == lines;
      forall i | 0 <= i < |lines| - 1 ensures !StartsTable(lines[1..][i..]) {
        var k := i + 1;
        assert lines[1..][i..] == lines[k..];
      }
      AllProse(lines[1..]);
    }
  }

  lemma MakesTheTable(head: Line, rule: Line, rows: seq<Line>)
    requires head.row && !head.comment && head.heading.None? && rule.rule
    requires forall l :: l in rows ==> l.row && !l.rule
    ensures Makes([head, rule] + rows, [Table(head.cells, AllCells(rows))])
  {
    var lines := [head, rule] + rows;
    AllRows(rows);
    assert lines[2..] == rows && lines[2..2 + RowCount(rows)] == rows;
    PlainIsClosed(lines);
  }

  lemma MakesTheFold(open: Line, body: seq<Line>, close: Line)
    requires open.details.Some? && !open.row && open.heading.None? && !open.Skipped()
    requires (forall l :: l in body ==> !l.endsDetails) && close.endsDetails
    ensures Makes([open] + body + [close], [Details(open.details.value, Texts(body))])
  {
    var lines := [open] + body + [close];
    AllBody(body, close);
    assert lines[1..] == body + [close] && lines[1..1 + |body|] == body;
    ScanBody(lines[1..]);
    assert lines[1..][|body| + 1..] == [];
    assert Closed(lines, false) == Closed(lines[1..], true);
    AllTaken(lines);
  }

  lemma MakesTheList(lines: seq<Line>)
    requires lines != [] && forall l :: l in lines ==> l.bullet.Some?
    requires Unmarked(lines[0]) && !lines[0].row
    ensures Makes(lines, [List(Items(lines))])
  {
    AllBullets(lines);
    assert lines[0] in lines && lines[..|lines|] == lines;
    PlainIsClosed(lines);
  }

  lemma MakesTheParagraph(lines: seq<Line>)
    requires lines != [] && forall l :: l in lines ==> Ordinary(l)
    requires forall i :: 0 <= i < |lines| ==> !StartsTable(lines[i..])
    ensures Makes(lines, [Paragraph(Join(Trimmed(lines)))])
  {
    AllProse(lines);
    assert lines[0] in lines && lines[..|lines|] == lines && lines[0..] == lines;
    PlainIsClosed(lines);
  }

  // ---------------------------------------------------------------------------
  // The lines of each block as they read
  // ---------------------------------------------------------------------------

  lemma {:induction false} ReadTogether(a: seq<string>, b: seq<string>)
    ensures ReadAll(a + b) == ReadAll(a) + ReadAll(b)
  {
    if a == [] {
      assert a + b == b;
    } else {
      assert (a + b)[1..] == a[1..] + b;
      ReadTogether(a[1..], b);
    }
  }

  lemma ReadOne(line: string)
    ensures ReadAll([line]) == [Read(line)]
  {
  }

  lemma TitleIsRead(w: Written)
    requires w.Title? && Proper(w)
    ensures Makes(ReadAll(LinesOf(w)), Meant(w))
  {
    var text := HashMarks(w.level) + w.gap + w.text;
    SpacesAroundALineDoNotMatter(w.before, text, w.after);
    HeadingIsRead(w.level, w.gap, w.text);
    ReadOne(w.before + text + w.after);
    PlainIsClosed(ReadAll(LinesOf(w)));
  }

  lemma WrappedIsTrimmed(p: Padded, start: string, end: string)
    requires Around(p) && start != "" && !IsSpace(start[0])
    requires if end == "" then p.text == "" && Bare(start) else Bare(end)
    ensures Trim(Wrapped(p, start, end)) == start + p.text + end
  {
    if end == "" {
      assert start + p.text + end == start;
    } else {
      BareBetween(start, p.text, end);
    }
    TrimTakesOffSpaces(p.before, start + p.text + end, p.after);
  }

  lemma NoteIsTaken(w: Written)
    requires w.Note? && Proper(w)
    ensures Makes(ReadAll(LinesOf(w)), Meant(w))
  {
    var line := Wrapped(w.line, NOTE, END_NOTE);
    WrappedIsTrimmed(w.line, NOTE, END_NOTE);
    NoteIsRead(line, w.line.text);
    FirstCharacters(line);
    ReadOne(line);
    PlainIsClosed(ReadAll(LinesOf(w)));
  }

  lemma RemarkIsSkipped(w: Written)
    requires w.Remark? && Proper(w)
    ensures Makes(ReadAll(LinesOf(w)), [])
  {
    var line := Wrapped(w.remark, "<!--", "-->");
    WrappedIsTrimmed(w.remark, "<!--", "-->");
    var t := "<!--" + w.remark.text + "-->";
    assert t[..4] == "<!--" && t[|t| - 3..] == "-->";
    ReadOne(line);
    PlainIsClosed(ReadAll(LinesOf(w)));
  }

  lemma OpenIsRead(open: Padded)
    requires Around(open) && OneLine(open.text)
    ensures var l := Read(Wrapped(open, OPEN, SHUT));
      l.details == Some(open.text) && !l.row && l.heading.None? && !l.Skipped()
  {
    var line := Wrapped(open, OPEN, SHUT);
    WrappedIsTrimmed(open, OPEN, SHUT);
    FoldIsRead(line, open.text);
    FirstCharacters(line);
  }

  lemma {:induction false} BodyIsRead(body: seq<Padded>)
    requires forall p :: p in body ==> IsPadded(p) && p.text != CLOSE
    ensures forall l :: l in ReadAll(PutAll(body)) ==> !l.endsDetails
    ensures Texts(ReadAll(PutAll(body))) == NotEmpty(Content(body))
  {
    if body != [] {
      var p := body[0];
      assert p in body;
      BodyIsRead(body[1..]);
      TrimTakesOffSpaces(p.before, p.text, p.after);
    }
  }

  lemma FoldIsTaken(w: Written)
    requires w.Fold? && Proper(w)
    ensures Makes(ReadAll(LinesOf(w)), Meant(w))
  {
    var open, close := Wrapped(w.open, OPEN, SHUT), Wrapped(w.shut, CLOSE, "");
    OpenIsRead(w.open);
    BodyIsRead(w.body);
    WrappedIsTrimmed(w.shut, CLOSE, "");
    ReadTogether([open] + PutAll(w.body), [close]);
    ReadTogether([open], PutAll(w.body));
    ReadOne(open);
    ReadOne(close);
    MakesTheFold(Read(open), ReadAll(PutAll(w.body)), Read(close));
  }

  lemma ItemIsRead(item: Item)
    requires item.Valid()
    ensures var l := Read(item.before + item.Text() + item.after);
      l.bullet == Some(item.text) && Unmarked(l) && !l.row
  {
    SpacesAroundALineDoNotMatter(item.before, item.Text(), item.after);
    BulletIsRead(item.mark, item.gap, item.text);
    FirstCharacters(item.Text());
  }

  lemma {:induction false} ItemsAreRead(items: seq<Item>)
    requires forall i :: i in items ==> i.Valid()
    ensures forall l :: l in ReadAll(ItemTexts(items)) ==> l.bullet.Some? && Unmarked(l) && !l.row
    ensures Items(ReadAll(ItemTexts(items))) == ItemContent(items)
  {
    if items != [] {
      assert items[0] in items;
      ItemIsRead(items[0]);
      ItemsAreRead(items[1..]);
    }
  }

  lemma ListIsTaken(w: Written)
    requires w.Bullets? && Proper(w)
    ensures Makes(ReadAll(LinesOf(w)), Meant(w))
  {
    ItemsAreRead(w.items);
    var lines := ReadAll(LinesOf(w));
    assert lines != [] && lines[0] in lines;
    MakesTheList(lines);
  }

  // Tables

  lemma {:induction false} CharactersBetween(cells: seq<Padded>, x: char)
    requires cells != [] && x != '|'
    ensures x in Between(cells) <==> exists c :: c in cells && x in Put(c)
  {
    assert cells[0] in cells;
    if |cells| > 1 {
      CharactersBetween(cells[1..], x);
      assert x in Between(cells) <==> x in Put(cells[0]) || x in Between(cells[1..]);
      assert forall c :: c in cells <==> c == cells[0] || c in cells[1..];
    }
  }

  lemma CharactersOfRow(r: RowLine, x: char)
    requires r.Valid() && x != '|' && !IsSpace(x)
    ensures x in r.before + r.row.Text() + r.after <==> exists c :: c in r.row.cells && x in c.text
  {
    CharactersBetween(r.row.cells, x);
    forall c | c in r.row.cells ensures x in Put(c) <==> x in c.text { assert IsCell(c); }
  }

  /** A row is not taken for a rule unless it is all of dashes and colons. */
  lemma RowIsNoRule(r: RowLine)
    requires r.Valid()
    ensures IsRule(r.before + r.row.Text() + r.after) <==> Ruled(r.row.cells)
  {
    var line := r.before + r.row.Text() + r.after;
    assert !IsSpace('-');
    CharactersOfRow(r, '-');
    if Ruled(r.row.cells) {
      forall x | x in line && x != '|' && !IsSpace(x) ensures x in {':', '-'} { CharactersOfRow(r, x); }
    }
    if IsRule(line) {
      forall c, x | c in r.row.cells && x in c.text && !IsSpace(x) ensures x in {':', '-'} {
        assert IsCell(c);
        CharactersOfRow(r, x);
      }
    }
  }

  lemma RowIsRead(r: RowLine)
    requires r.Valid()
    ensures var l := Read(r.before + r.row.Text() + r.after);
      && l.row && l.hashes == 0 && !l.comment && l.cells == Content(r.row.cells)
      && (l.rule <==> Ruled(r.row.cells))
  {
    var text := r.row.Text();
    var line := r.before + text + r.after;
    RowIsBare(r.row);
    assert text[0] == '|';
    TrimTakesOffSpaces(r.before, text, r.after);
    RowsStartWithAPipe(line);
    CellsAreRead(r.before, r.row, r.after);
    FirstCharacters(line);
    RowIsNoRule(r);
  }

  lemma {:induction false} RowsAreRead(rows: seq<RowLine>)
    requires forall r :: r in rows ==> r.Valid() && !Ruled(r.row.cells)
    ensures forall l :: l in ReadAll(RowTexts(rows)) ==> l.row && !l.rule
    ensures AllCells(ReadAll(RowTexts(rows))) == RowContent(rows)
  {
    if rows != [] {
      assert rows[0] in rows;
      RowIsRead(rows[0]);
      RowsAreRead(rows[1..]);
    }
  }

  lemma GridIsTaken(w: Written)
    requires w.Grid? && Proper(w)
    ensures Makes(ReadAll(LinesOf(w)), Meant(w))
  {
    var h := w.header;
    var head := h.before + h.row.Text() + h.after;
    RowIsRead(h);
    RowsAreRead(w.rows);
    assert RowTexts([h]) == [head];
    ReadTogether([head] + [w.rule], RowTexts(w.rows));
    ReadTogether([head], [w.rule]);
    ReadOne(head);
    ReadOne(w.rule);
    MakesTheTable(Read(head), Read(w.rule), ReadAll(RowTexts(w.rows)));
    assert [Read(head)] + [Read(w.rule)] == [Read(head), Read(w.rule)];
  }

  // Paragraphs

  lemma PartIsRead(p: Padded)
    requires IsPadded(p) && PlainText(p.text)
    ensures var l := Read(Put(p));
      Ordinary(l) && l.trimmed == p.text && (l.row <==> "|" <= p.text) && (l.rule <==> RuleText(p.text))
  {
    TrimTakesOffSpaces(p.before, p.text, p.after);
    TrimmedAlready(p.text);
    RowsStartWithAPipe(Put(p));
    assert !IsSpace('-');
  }

  lemma {:induction false} PartsAreRead(parts: seq<Padded>)
    requires forall p :: p in parts ==> IsPadded(p) && PlainText(p.text)
    ensures var lines := ReadAll(PutAll(parts));
      && |lines| == |parts| && Trimmed(lines) == Content(parts) && (forall l :: l in lines ==> Ordinary(l))
      && forall i :: 0 <= i < |parts| ==> lines[i] == Read(Put(parts[i]))
  {
    if parts != [] {
      assert parts[0] in parts;
      PartIsRead(parts[0]);
      PartsAreRead(parts[1..]);
    }
  }

  lemma ProseIsTaken(w: Written)
    requires w.Prose? && Proper(w)
    ensures Makes(ReadAll(LinesOf(w)), Meant(w))
  {
    var parts, lines := w.parts, ReadAll(LinesOf(w));
    PartsAreRead(parts);
    forall i | 0 <= i < |lines| ensures !StartsTable(lines[i..]) {
      assert !HeadsATable(parts, i);
      PartIsRead(parts[i]);
      if i + 1 < |parts| {
        PartIsRead(parts[i + 1]);
        assert lines[i..][1] == lines[i + 1];
      }
    }
    MakesTheParagraph(lines);
  }

  /** The lines of a block parse as the block. */
  lemma BlockIsRead(w: Written)
    requires Proper(w)
    ensures Makes(ReadAll(LinesOf(w)), Meant(w))
  {
    match w
    case Title(_, _, _, _, _) => TitleIsRead(w);
    case Grid(_, _, _) => GridIsTaken(w);
    case Fold(_, _, _) => FoldIsTaken(w);
    case Note(_) => NoteIsTaken(w);
    case Bullets(_) => ListIsTaken(w);
    case Prose(_) => ProseIsTaken(w);
    case Remark(_) => RemarkIsSkipped(w);
  }

  // ---------------------------------------------------------------------------
  // Reports
  // ---------------------------------------------------------------------------

  /** The lines of one block after another, a blank line after each. */
  function Report(blocks: seq<Written>, blank: string): seq<string> {
    if blocks == [] then [] else LinesOf(blocks[0]) + [blank] + Report(blocks[1..], blank)
  }

  function AllMeant(blocks: seq<Written>): seq<Block> {
    if blocks == [] then [] else Meant(blocks[0]) + AllMeant(blocks[1..])
  }

  lemma BlankIsRead(blank: string)
    requires Spaces(blank)
    ensures Read(blank).Blank()
  {
    assert blank + "" + "" == blank;
    TrimTakesOffSpaces(blank, "", "");
  }

  /** Whatever blocks a report is written from, and however its writer spaced them, the parser gives
      back exactly those blocks in their order. */
  lemma {:induction false} ReportIsReadAsMeant(blocks: seq<Written>, blank: string)
    requires (forall w :: w in blocks ==> Proper(w)) && Spaces(blank)
    ensures Clean(ReadAll(Report(blocks, blank)), false)
    ensures Blocks(ReadAll(Report(blocks, blank))) == AllMeant(blocks)
  {
    if blocks != [] {
      var w, rest := blocks[0], Report(blocks[1..], blank);
      assert w in blocks;
      BlockIsRead(w);
      BlankIsRead(blank);
      ReportIsReadAsMeant(blocks[1..], blank);
      ReadTogether(LinesOf(w) + [blank], rest);
      ReadTogether(LinesOf(w), [blank]);
      ReadOne(blank);
      ClosedReportsCompose(ReadAll(LinesOf(w)), Read(blank), ReadAll(rest));
    }
  }

  /** And so for the text of the report: no line holds a line feed. */
  lemma TextIsReadAsMeant(blocks: seq<Written>, blank: string)
    requires blocks != [] && (forall w :: w in blocks ==> Proper(w)) && Spaces(blank)
    requires forall l :: l in Report(blocks, blank) ==> '\n' !in l
    ensures var lines := ReadAll(SourceLines(Text(Report(blocks, blank))));
      Clean(lines, false) && Blocks(lines) == AllMeant(blocks)
  {
    ReportIsReadAsMeant(blocks, blank);
    SourceIsItsLines(Report(blocks, blank));
  }
}
