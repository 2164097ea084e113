/** The engine's report markdown, parsed line by line into blocks. */
module ReportBlocks {
  import opened Options
  import opened ReportLines

  // ---------------------------------------------------------------------------
  // Blocks
  // ---------------------------------------------------------------------------

  datatype Block =
    | Heading(level: nat, text: string)
    | Table(header: seq<string>, rows: seq<seq<string>>)
    | Details(summary: string, lines: seq<string>)
    | Sub(text: string)
    | List(items: seq<string>)
    | Paragraph(text: string)

  predicate StartsTable(lines: seq<Line>) {
    |lines| >= 2 && lines[0].row && lines[1].rule
  }

  function Trimmed(lines: seq<Line>): seq<string> {
    if lines == [] then [] else [lines[0].trimmed] + Trimmed(lines[1..])
  }

  function RowCount(lines: seq<Line>): (n: nat)
    ensures n <= |lines|
  {
    if lines != [] && lines[0].row && !lines[0].rule then 1 + RowCount(lines[1..]) else 0
  }

  function BulletCount(lines: seq<Line>): (n: nat)
    ensures n <= |lines|
  {
    if lines != [] && lines[0].bullet.Some? then 1 + BulletCount(lines[1..]) else 0
  }

  /** The lines before the one that ends a folded block. */
  function BodyCount(lines: seq<Line>): (n: nat)
    ensures n <= |lines|
  {
    if lines != [] && !lines[0].endsDetails then 1 + BodyCount(lines[1..]) else 0
  }

  /** Whether a paragraph goes on with the first of these lines. */
  predicate GoesOn(lines: seq<Line>) {
    && lines != [] && !lines[0].Blank() && lines[0].hashes == 0 && !StartsTable(lines)
    && !lines[0].startsDetails && !lines[0].startsSub && lines[0].bullet.None? && !lines[0].comment
  }

  function ParagraphCount(lines: seq<Line>): (n: nat)
    ensures n <= |lines|
  {
    if GoesOn(lines) then 1 + ParagraphCount(lines[1..]) else 0
  }

  function AllCells(lines: seq<Line>): seq<seq<string>> {
    if lines == [] then [] else [lines[0].cells] + AllCells(lines[1..])
  }

  function Items(lines: seq<Line>): seq<string> {
    if lines == [] then []
    else (match lines[0].bullet case Some(item) => [item] case None => []) + Items(lines[1..])
  }

  function Texts(lines: seq<Line>): seq<string> {
    if lines == [] then [] else (if lines[0].Blank() then [] else [lines[0].trimmed]) + Texts(lines[1..])
  }

  /** How many lines the parser takes at once from the front. */
  function Taken(lines: seq<Line>): (n: nat)
    requires lines != []
    ensures n <= |lines|
  {
    var line := lines[0];
    if line.Skipped() || line.heading.Some? then 1
    else if StartsTable(lines) then 2 + RowCount(lines[2..])
    else if line.details.Some? then
      var body := BodyCount(lines[1..]);
      if 1 + body < |lines| then 2 + body else |lines|
    else if line.sub.Some? then 1
    else if line.bullet.Some? then BulletCount(lines)
    else ParagraphCount(lines)
  }

  /** The block they make, if they make one. */
  function FirstBlock(lines: seq<Line>): seq<Block>
    requires lines != []
  {
    var line := lines[0];
    if line.Skipped() then []
    else if line.heading.Some? then [Heading(line.hashes, line.heading.value)]
    else if StartsTable(lines) then [Table(line.cells, AllCells(lines[2..2 + RowCount(lines[2..])]))]
    else if line.details.Some? then [Details(line.details.value, Texts(lines[1..1 + BodyCount(lines[1..])]))]
    else if line.sub.Some? then [Sub(line.sub.value)]
    else if line.bullet.Some? then [List(Items(lines[..BulletCount(lines)]))]
    else [Paragraph(Join(Trimmed(lines[..ParagraphCount(lines)])))]
  }

  /** No line outside a folded block's body is stuck. `inside` says whether the first line is in one. */
  predicate Clean(lines: seq<Line>, inside: bool) {
    lines == [] ||
    if inside then Clean(lines[1..], !lines[0].endsDetails)
    else !lines[0].Stuck() && Clean(lines[1..], lines[0].details.Some?)
  }

  /** Every folded block is closed. */
  predicate Closed(lines: seq<Line>, inside: bool) {
    if lines == [] then !inside
    else Closed(lines[1..], if inside then !lines[0].endsDetails else lines[0].details.Some?)
  }

  // ---------------------------------------------------------------------------
  // Scanning past what is taken
  // ---------------------------------------------------------------------------

  lemma {:induction false} ScanPlain(lines: seq<Line>, n: nat)
    requires n <= |lines| && forall i :: 0 <= i < n ==> lines[i].Plain()
    ensures Clean(lines, false) == Clean(lines[n..], false)
    ensures Closed(lines, false) == Closed(lines[n..], false)
  {
    if n > 0 {
      ScanPlain(lines[1..], n - 1);
      assert lines[1..][n - 1..] == lines[n..];
    }
  }

  lemma {:induction false} ScanBody(lines: seq<Line>)
    ensures BodyCount(lines) < |lines| ==>
      && Clean(lines, true) == Clean(lines[BodyCount(lines) + 1..], false)
      && Closed(lines, true) == Closed(lines[BodyCount(lines) + 1..], false)
    ensures BodyCount(lines) == |lines| ==> Clean(lines, true) && !Closed(lines, true)
  {
    if lines != [] && !lines[0].endsDetails {
      ScanBody(lines[1..]);
      var n := BodyCount(lines[1..]);
      if n < |lines| - 1 { assert lines[1..][n + 1..] == lines[n + 2..]; }
    }
  }

  lemma {:induction false} RowsArePlain(lines: seq<Line>)
    ensures forall i :: 0 <= i < RowCount(lines) ==> lines[i].Plain()
  {
    if RowCount(lines) > 0 {
      RowsArePlain(lines[1..]);
      assert forall i :: 1 <= i < RowCount(lines) ==> lines[i] == lines[1..][i - 1];
    }
  }

  lemma {:induction false} BulletsArePlain(lines: seq<Line>)
    ensures forall i :: 0 <= i < BulletCount(lines) ==> lines[i].Plain()
  {
    if BulletCount(lines) > 0 {
      BulletsArePlain(lines[1..]);
      assert forall i :: 1 <= i < BulletCount(lines) ==> lines[i] == lines[1..][i - 1];
    }
  }

  lemma {:induction false} ParagraphIsPlain(lines: seq<Line>)
    ensures forall i :: 0 <= i < ParagraphCount(lines) ==> lines[i].Plain()
  {
    if ParagraphCount(lines) > 0 {
      ParagraphIsPlain(lines[1..]);
      assert forall i :: 1 <= i < ParagraphCount(lines) ==> lines[i] == lines[1..][i - 1];
    }
  }

  lemma TableIsPlain(lines: seq<Line>)
    requires StartsTable(lines)
    ensures forall i :: 0 <= i < 2 + RowCount(lines[2..]) ==> lines[i].Plain()
  {
    var rows := lines[2..];
    RowsArePlain(rows);
    forall i | 2 <= i < 2 + RowCount(rows) ensures lines[i].Plain() {
      assert lines[i] == rows[i - 2];
    }
  }

  /** The parser makes progress exactly on lines that are not stuck. */
  lemma TakesSomething(lines: seq<Line>)
    requires lines != []
    ensures Taken(lines) > 0 <==> !lines[0].Stuck()
  {
  }

  lemma DetailsRestIsAlike(lines: seq<Line>)
    requires lines != [] && lines[0].details.Some? && !lines[0].Stuck()
    ensures
      var body := BodyCount(lines[1..]);
      var n := if 1 + body < |lines| then 2 + body else |lines|;
      && Clean(lines, false) == Clean(lines[n..], false)
      && Closed(lines, false) == (1 + body < |lines| && Closed(lines[n..], false))
  {
    var rest := lines[1..];
    var body := BodyCount(rest);
    assert Clean(lines, false) == Clean(rest, true) && Closed(lines, false) == Closed(rest, true);
    ScanBody(rest);
    if 1 + body < |lines| { assert rest[body + 1..] == lines[body + 2..]; }
  }

  /** All that is taken at once is plain, unless it is a folded block. */
  lemma TakenIsPlain(lines: seq<Line>)
    requires lines != [] && !lines[0].Stuck() && !lines[0].details.Some?
    ensures forall i :: 0 <= i < Taken(lines) ==> lines[i].Plain()
  {
    if StartsTable(lines) {
      TableIsPlain(lines);
    } else if lines[0].bullet.Some? {
      BulletsArePlain(lines);
    } else {
      ParagraphIsPlain(lines);
    }
  }

  lemma DetailsIsTaken(lines: seq<Line>)
    requires lines != [] && lines[0].details.Some?
    ensures Taken(lines) == var body := BodyCount(lines[1..]); if 1 + body < |lines| then 2 + body else |lines|
  {
  }

  /** What is taken at once leaves the rest as clean as the whole; and as closed, if there is a rest. */
  lemma RestIsAlike(lines: seq<Line>)
    requires lines != [] && !lines[0].Stuck()
    ensures Clean(lines, false) == Clean(lines[Taken(lines)..], false)
    ensures Taken(lines) < |lines| ==> Closed(lines, false) == Closed(lines[Taken(lines)..], false)
  {
    if lines[0].details.Some? {
      DetailsIsTaken(lines);
      DetailsRestIsAlike(lines);
    } else {
      TakenIsPlain(lines);
      ScanPlain(lines, Taken(lines));
    }
  }

  // ---------------------------------------------------------------------------
  // Parsing
  // ---------------------------------------------------------------------------

  function Blocks(lines: seq<Line>): seq<Block>
    requires Clean(lines, false)
    decreases |lines|
  {
    if lines == [] then []
    else
      TakesSomething(lines);
      RestIsAlike(lines);
      FirstBlock(lines) + Blocks(lines[Taken(lines)..])
  }

  /** Whether the parser is done after at most `rounds` rounds of its loop. */
  predicate Halts(lines: seq<Line>, rounds: nat)
    decreases rounds
  {
    lines == [] || (rounds > 0 && Halts(lines[Taken(lines)..], rounds - 1))
  }

  ghost predicate HaltsInTheEnd(lines: seq<Line>) {
    exists rounds: nat :: Halts(lines, rounds)
  }

  /** The parser comes to an end exactly on clean reports. */
  lemma ParserHaltsOnCleanReports(lines: seq<Line>)
    ensures HaltsInTheEnd(lines) <==> Clean(lines, false)
  {
    if Clean(lines, false) {
      CleanHalts(lines);
      assert Halts(lines, |lines|);
    }
    if HaltsInTheEnd(lines) {
      var rounds: nat :| Halts(lines, rounds);
      HaltingIsClean(lines, rounds);
    }
  }

  lemma {:induction false} CleanHalts(lines: seq<Line>)
    requires Clean(lines, false)
    ensures Halts(lines, |lines|)
    decreases |lines|
  {
    if lines != [] {
      TakesSomething(lines);
      RestIsAlike(lines);
      CleanHalts(lines[Taken(lines)..]);
      MoreRounds(lines[Taken(lines)..], |lines| - Taken(lines), |lines| - 1);
    }
  }

  lemma {:induction false} MoreRounds(lines: seq<Line>, m: nat, n: nat)
    requires m <= n && Halts(lines, m)
    ensures Halts(lines, n)
    decreases m
  {
    if lines != [] { MoreRounds(lines[Taken(lines)..], m - 1, n - 1); }
  }

  lemma {:induction false} HaltingIsClean(lines: seq<Line>, rounds: nat)
    requires Halts(lines, rounds)
    ensures Clean(lines, false)
    decreases rounds
  {
    if lines != [] {
      TakesSomething(lines);
      HaltingIsClean(lines[Taken(lines)..], rounds - 1);
      assert lines[0..] == lines;
      if !lines[0].Stuck() { RestIsAlike(lines); }
    }
  }

  lemma Reassociate(a: seq<Block>, b: seq<Block>, c: seq<Block>)
    ensures a + (b + c) == (a + b) + c
  {
  }

  /** A footnote that is not closed on its own line is never taken: on this report the parser's
      loop goes round forever. */
  lemma UnclosedFootnoteNeverEnds()
    ensures !HaltsInTheEnd(ReadAll(["<sub>signed"]))
  {
    var line := "<sub>signed";
    assert line[..5] == "<sub>" && line[5..] == "signed";
    assert !EndsWith(line, "</sub>") by { assert line[|line| - 1] == 'd'; }
    UnclosedFootnoteIsStuck(line);
    ParserHaltsOnCleanReports(ReadAll([line]));
  }

  lemma UnclosedFootnoteIsStuck(line: string)
    requires |line| >= 6 && line[..5] == "<sub>" && Trim(line) == line && !EndsWith(line, "</sub>")
    ensures Read(line).Stuck() && !Clean(ReadAll([line]), false)
  {
    assert line[1] == line[..5][1] == 's';
    assert Read(line).startsSub && Read(line).sub.None?;
  }
}
