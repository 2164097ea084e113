/** The parser's loops, each computing what the specification says. */
module ReportParser {
  import opened Options
  import opened ReportLines
  import opened ReportBlocks

  lemma {:induction false} OneMoreRow(lines: seq<Line>, line: Line)
    ensures AllCells(lines + [line]) == AllCells(lines) + [line.cells]
  {
    if lines == [] {
      assert lines + [line] == [line] && [line][1..] == [];
    } else {
      assert (lines + [line])[1..] == lines[1..] + [line];
      OneMoreRow(lines[1..], line);
    }
  }

  lemma {:induction false} OneMoreItem(lines: seq<Line>, line: Line)
    ensures Items(lines + [line]) == Items(lines) + (if line.bullet.Some? then [line.bullet.value] else [])
  {
    if lines == [] {
      assert lines + [line] == [line] && [line][1..] == [];
    } else {
      assert (lines + [line])[1..] == lines[1..] + [line];
      OneMoreItem(lines[1..], line);
    }
  }

  lemma {:induction false} OneMoreText(lines: seq<Line>, line: Line)
    ensures Texts(lines + [line]) == Texts(lines) + (if line.Blank() then [] else [line.trimmed])
  {
    if lines == [] {
      assert lines + [line] == [line] && [line][1..] == [];
    } else {
      assert (lines + [line])[1..] == lines[1..] + [line];
      OneMoreText(lines[1..], line);
    }
  }

  lemma {:induction false} OneMoreTrimmed(lines: seq<Line>, line: Line)
    ensures Trimmed(lines + [line]) == Trimmed(lines) + [line.trimmed]
  {
    if lines == [] {
      assert lines + [line] == [line] && [line][1..] == [];
    } else {
      assert (lines + [line])[1..] == lines[1..] + [line];
      OneMoreTrimmed(lines[1..], line);
    }
  }

  lemma TakeOne(lines: seq<Line>, start: nat, i: nat)
    requires start <= i < |lines|
    ensures lines[start..i + 1] == lines[start..i] + [lines[i]] && lines[i..][1..] == lines[i + 1..]
  {
  }

  method TakeRows(lines: seq<Line>, start: nat) returns (rows: seq<seq<string>>, i: nat)
    requires start <= |lines|
    ensures i == start + RowCount(lines[start..]) && rows == AllCells(lines[start..i])
  {
    rows, i := [], start;
    while i < |lines| && lines[i].row && !lines[i].rule
      invariant start <= i <= |lines| && i + RowCount(lines[i..]) == start + RowCount(lines[start..])
      invariant rows == AllCells(lines[start..i])
    {
      OneMoreRow(lines[start..i], lines[i]);
      TakeOne(lines, start, i);
      rows := rows + [lines[i].cells];
      i := i + 1;
    }
  }

  /** The body of a folded block; `i` ends on the line that closes it, or past the end. */
  method TakeBody(lines: seq<Line>, start: nat) returns (inner: seq<string>, i: nat)
    requires start <= |lines|
    ensures i == start + BodyCount(lines[start..]) && inner == Texts(lines[start..i])
  {
    inner, i := [], start;
    while i < |lines| && !lines[i].endsDetails
      invariant start <= i <= |lines| && i + BodyCount(lines[i..]) == start + BodyCount(lines[start..])
      invariant inner == Texts(lines[start..i])
    {
      OneMoreText(lines[start..i], lines[i]);
      TakeOne(lines, start, i);
      if !lines[i].Blank() {
        inner := inner + [lines[i].trimmed];
      }
      i := i + 1;
    }
  }

  method TakeBullets(lines: seq<Line>, start: nat) returns (items: seq<string>, i: nat)
    requires start <= |lines|
    ensures i == start + BulletCount(lines[start..]) && items == Items(lines[start..i])
  {
    items, i := [], start;
    while i < |lines| && lines[i].bullet.Some?
      invariant start <= i <= |lines| && i + BulletCount(lines[i..]) == start + BulletCount(lines[start..])
      invariant items == Items(lines[start..i])
    {
      OneMoreItem(lines[start..i], lines[i]);
      TakeOne(lines, start, i);
      items := items + [lines[i].bullet.value];
      i := i + 1;
    }
  }

  method TakeParagraph(lines: seq<Line>, start: nat) returns (para: seq<string>, i: nat)
    requires start <= |lines|
    ensures i == start + ParagraphCount(lines[start..]) && para == Trimmed(lines[start..i])
  {
    para, i := [], start;
    while i < |lines| && !lines[i].Blank() && lines[i].hashes == 0
      && !(lines[i].row && i + 1 < |lines| && lines[i + 1].rule)
      && !lines[i].startsDetails && !lines[i].startsSub && lines[i].bullet.None? && !lines[i].comment
      invariant start <= i <= |lines| && i + ParagraphCount(lines[i..]) == start + ParagraphCount(lines[start..])
      invariant para == Trimmed(lines[start..i])
      decreases |lines| - i
    {
      OneMoreTrimmed(lines[start..i], lines[i]);
      TakeOne(lines, start, i);
      para := para + [lines[i].trimmed];
      i := i + 1;
    }
  }

  lemma RestBegins(lines: seq<Line>, start: nat, k: nat)
    requires start + k <= |lines|
    ensures lines[start..][k..] == lines[start + k..]
  {
  }

  lemma RestPart(lines: seq<Line>, start: nat, k: nat, i: nat)
    requires start + k <= i <= |lines|
    ensures lines[start + k..i] == lines[start..][k..i - start]
  {
  }

  /** A round from `start` makes these blocks and leaves the cursor at `i`, at most one past the end. */
  ghost predicate Makes(lines: seq<Line>, start: nat, made: seq<Block>, i: nat)
    requires start < |lines|
  {
    && made == FirstBlock(lines[start..])
    && i <= |lines| + 1 && (if i < |lines| then i else |lines|) == start + Taken(lines[start..])
  }

  lemma MakesTable(lines: seq<Line>, start: nat, rows: seq<seq<string>>, i: nat)
    requires start < |lines| && !lines[start].Skipped() && lines[start].heading.None? && StartsTable(lines[start..])
    requires i == start + 2 + RowCount(lines[start + 2..]) && rows == AllCells(lines[start + 2..i])
    ensures Makes(lines, start, [Table(lines[start].cells, rows)], i)
  {
    RestBegins(lines, start, 2);
    RestPart(lines, start, 2, i);
  }

  lemma MakesDetails(lines: seq<Line>, start: nat, inner: seq<string>, i: nat)
    requires start < |lines| && !lines[start].Skipped() && lines[start].heading.None? && !StartsTable(lines[start..])
    requires lines[start].details.Some?
    requires i == start + 1 + BodyCount(lines[start + 1..]) && inner == Texts(lines[start + 1..i])
    ensures Makes(lines, start, [Details(lines[start].details.value, inner)], i + 1)
  {
    RestBegins(lines, start, 1);
    RestPart(lines, start, 1, i);
  }

  lemma MakesList(lines: seq<Line>, start: nat, items: seq<string>, i: nat)
    requires start < |lines| && !lines[start].Skipped() && lines[start].heading.None? && !StartsTable(lines[start..])
    requires lines[start].details.None? && lines[start].sub.None? && lines[start].bullet.Some?
    requires i == start + BulletCount(lines[start..]) && items == Items(lines[start..i])
    ensures Makes(lines, start, [List(items)], i)
  {
    RestPart(lines, start, 0, i);
  }

  lemma MakesParagraph(lines: seq<Line>, start: nat, para: seq<string>, i: nat)
    requires start < |lines| && !lines[start].Skipped() && lines[start].heading.None? && !StartsTable(lines[start..])
    requires lines[start].details.None? && lines[start].sub.None? && lines[start].bullet.None?
    requires i == start + ParagraphCount(lines[start..]) && para == Trimmed(lines[start..i])
    ensures Makes(lines, start, [Paragraph(Join(para))], i)
  {
    RestPart(lines, start, 0, i);
  }

  /** One round of the parser's loop. */
  method Round(lines: seq<Line>, start: nat) returns (made: seq<Block>, i: nat)
    requires start < |lines|
    ensures Makes(lines, start, made, i)
  {
    var line := lines[start];
    if line.Skipped() {
      return [], start + 1;
    }
    if line.heading.Some? {
      return [Heading(line.hashes, line.heading.value)], start + 1;
    }
    if line.row && start + 1 < |lines| && lines[start + 1].rule {
      var rows;
      rows, i := TakeRows(lines, start + 2);
      MakesTable(lines, start, rows, i);
      return [Table(line.cells, rows)], i;
    }
    if line.details.Some? {
      var inner;
      inner, i := TakeBody(lines, start + 1);
      MakesDetails(lines, start, inner, i);
      return [Details(line.details.value, inner)], i + 1;
    }
    if line.sub.Some? {
      return [Sub(line.sub.value)], start + 1;
    }
    if line.bullet.Some? {
      var items;
      items, i := TakeBullets(lines, start);
      MakesList(lines, start, items, i);
      return [List(items)], i;
    }
    var para;
    para, i := TakeParagraph(lines, start);
    MakesParagraph(lines, start, para, i);
    return [Paragraph(Join(para))], i;
  }

  function From(lines: seq<Line>, i: nat): seq<Line> {
    if i < |lines| then lines[i..] else []
  }

  lemma RoundGoesOn(lines: seq<Line>, i: nat, next: nat)
    requires i < |lines| && Clean(lines[i..], false)
    requires (if next < |lines| then next else |lines|) == i + Taken(lines[i..])
    ensures |From(lines, next)| < |From(lines, i)| && Clean(From(lines, next), false)
    ensures Blocks(From(lines, i)) == FirstBlock(lines[i..]) + Blocks(From(lines, next))
  {
    var rest := lines[i..];
    TakesSomething(rest);
    RestIsAlike(rest);
    assert rest[Taken(rest)..] == From(lines, next);
  }

  /** The parser ends only on clean reports, so that is what it needs. */
  method ParseReport(lines: seq<Line>) returns (blocks: seq<Block>)
    requires Clean(lines, false)
    ensures blocks == Blocks(lines)
  {
    blocks := [];
    var i: nat := 0;
    while i < |lines|
      invariant i <= |lines| + 1 && Clean(From(lines, i), false)
      invariant blocks + Blocks(From(lines, i)) == Blocks(lines)
      decreases |From(lines, i)|
    {
      var made, next := Round(lines, i);
      RoundGoesOn(lines, i, next);
      Reassociate(blocks, made, Blocks(From(lines, next)));
      blocks := blocks + made;
      i := next;
    }
  }
}
