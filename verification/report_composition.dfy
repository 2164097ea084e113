/** What becomes of each line of a report, and of reports put together. */
module ReportComposition {
  import opened Options
  import opened ReportLines
  import opened ReportBlocks

  // ---------------------------------------------------------------------------
  // Every line is in one block
  // ---------------------------------------------------------------------------

  /** The lines of each round of the parser. */
  function Chunks(lines: seq<Line>): (chunks: seq<seq<Line>>)
    requires Clean(lines, false)
    ensures forall c :: c in chunks ==> IsChunk(c)
    decreases |lines|
  {
    if lines == [] then []
    else
      TakesSomething(lines);
      RestIsAlike(lines);
      ChunkIsOneBlock(lines);
      [lines[..Taken(lines)]] + Chunks(lines[Taken(lines)..])
  }

  function Flatten<T>(parts: seq<seq<T>>): seq<T> {
    if parts == [] then [] else parts[0] + Flatten(parts[1..])
  }

  function BlocksOfEach(chunks: seq<seq<Line>>): seq<Block>
    requires forall c :: c in chunks ==> Clean(c, false)
  {
    if chunks == [] then [] else Blocks(chunks[0]) + BlocksOfEach(chunks[1..])
  }

  /** A chunk is a single blank or comment line, which makes no block, or the lines of one block. */
  predicate IsChunk(c: seq<Line>) {
    && c != [] && Clean(c, false)
    && if c[0].Skipped() then |c| == 1 && Blocks(c) == [] else |Blocks(c)| == 1
  }

  lemma {:induction false} RowsAlone(lines: seq<Line>, n: nat)
    requires RowCount(lines) <= n <= |lines|
    ensures RowCount(lines[..n]) == RowCount(lines)
  {
    if RowCount(lines) > 0 {
      assert lines[..n][1..] == lines[1..][..n - 1];
      RowsAlone(lines[1..], n - 1);
    } else if n > 0 {
      assert lines[..n][0] == lines[0];
    }
  }

  lemma {:induction false} BulletsAlone(lines: seq<Line>)
    ensures BulletCount(lines[..BulletCount(lines)]) == BulletCount(lines)
  {
    var n := BulletCount(lines);
    if n > 0 {
      assert lines[..n][1..] == lines[1..][..n - 1];
      BulletsAlone(lines[1..]);
    }
  }

  lemma {:induction false} BodyAlone(lines: seq<Line>, n: nat)
    requires BodyCount(lines) <= n <= |lines|
    ensures BodyCount(lines[..n]) == BodyCount(lines)
  {
    if BodyCount(lines) > 0 {
      assert lines[..n][1..] == lines[1..][..n - 1];
      BodyAlone(lines[1..], n - 1);
    } else if n > 0 {
      assert lines[..n][0] == lines[0];
    }
  }

  lemma {:induction false} ParagraphAlone(lines: seq<Line>)
    ensures ParagraphCount(lines[..ParagraphCount(lines)]) == ParagraphCount(lines)
  {
    var n := ParagraphCount(lines);
    if n > 0 {
      assert lines[..n][1..] == lines[1..][..n - 1];
      ParagraphAlone(lines[1..]);
      assert n >= 2 ==> lines[..n][1] == lines[1];
    }
  }

  /** A block depends on its own lines only. */
  lemma BlockIsLocal(lines: seq<Line>)
    requires lines != [] && !lines[0].Stuck()
    ensures var c := lines[..Taken(lines)];
      c != [] && c[0] == lines[0] && Taken(c) == |c| && FirstBlock(c) == FirstBlock(lines)
  {
    TakesSomething(lines);
    var n := Taken(lines);
    var c, line := lines[..n], lines[0];
    if line.Skipped() || line.heading.Some? {
    } else if StartsTable(lines) {
      TableIsLocal(lines, n);
    } else if line.details.Some? {
      DetailsIsLocal(lines, n);
    } else if line.sub.None? {
      assert n >= 2 ==> c[1] == lines[1];
      if line.bullet.Some? { BulletsAlone(lines); } else { ParagraphAlone(lines); }
      assert c[..n] == c;
    }
  }

  lemma TableIsLocal(lines: seq<Line>, n: nat)
    requires StartsTable(lines) && n == 2 + RowCount(lines[2..])
    ensures var c := lines[..n];
      StartsTable(c) && RowCount(c[2..]) == RowCount(lines[2..])
      && c[2..2 + RowCount(c[2..])] == lines[2..2 + RowCount(lines[2..])]
  {
    assert lines[..n][2..] == lines[2..][..n - 2];
    RowsAlone(lines[2..], n - 2);
  }

  lemma DetailsIsLocal(lines: seq<Line>, n: nat)
    requires lines != [] && 1 + BodyCount(lines[1..]) <= n <= |lines|
    ensures var c := lines[..n];
      BodyCount(c[1..]) == BodyCount(lines[1..]) && c[1..1 + BodyCount(c[1..])] == lines[1..1 + BodyCount(lines[1..])]
  {
    assert lines[..n][1..] == lines[1..][..n - 1];
    BodyAlone(lines[1..], n - 1);
  }

  lemma ChunkIsOneBlock(lines: seq<Line>)
    requires lines != [] && !lines[0].Stuck()
    ensures IsChunk(lines[..Taken(lines)]) && Blocks(lines[..Taken(lines)]) == FirstBlock(lines)
  {
    BlockIsLocal(lines);
    var c := lines[..Taken(lines)];
    RestIsAlike(c);
    assert c[Taken(c)..] == [] && Blocks(c[Taken(c)..]) == [];
    assert Clean(c, false);
    assert Blocks(c) == FirstBlock(c) + Blocks(c[Taken(c)..]);
  }

  lemma {:induction false} ChunksAreTheLines(lines: seq<Line>)
    requires Clean(lines, false)
    ensures Flatten(Chunks(lines)) == lines
    decreases |lines|
  {
    if lines != [] {
      var rest := lines[Taken(lines)..];
      TakesSomething(lines);
      RestIsAlike(lines);
      ChunksAreTheLines(rest);
      FlattenOneMore(lines[..Taken(lines)], Chunks(rest));
      assert lines == lines[..Taken(lines)] + rest;
    }
  }

  lemma FlattenOneMore<T>(part: seq<T>, parts: seq<seq<T>>)
    ensures Flatten([part] + parts) == part + Flatten(parts)
  {
    assert ([part] + parts)[1..] == parts;
  }

  lemma {:induction false} ChunksMakeTheBlocks(lines: seq<Line>)
    requires Clean(lines, false)
    ensures BlocksOfEach(Chunks(lines)) == Blocks(lines)
    decreases |lines|
  {
    if lines != [] {
      var rest := lines[Taken(lines)..];
      TakesSomething(lines);
      RestIsAlike(lines);
      ChunkIsOneBlock(lines);
      ChunksMakeTheBlocks(rest);
      assert Chunks(lines)[0] == lines[..Taken(lines)] && Chunks(lines)[1..] == Chunks(rest);
    }
  }

  /** The lines fall into chunks, each a skipped line or the lines of one block, in order and with
      none left over; and the report's blocks are those that the chunks make by themselves. */
  lemma EveryLineIsAccountedFor(lines: seq<Line>)
    requires Clean(lines, false)
    ensures Flatten(Chunks(lines)) == lines
    ensures forall c :: c in Chunks(lines) ==> IsChunk(c)
    ensures BlocksOfEach(Chunks(lines)) == Blocks(lines)
  {
    ChunksAreTheLines(lines);
    ChunksMakeTheBlocks(lines);
  }

  // ---------------------------------------------------------------------------
  // Reports put together
  // ---------------------------------------------------------------------------

  lemma {:induction false} RowsBeforeBlank(lines: seq<Line>, blank: Line, more: seq<Line>)
    requires blank.Blank()
    ensures RowCount(lines + [blank] + more) == RowCount(lines)
  {
    var all := lines + [blank] + more;
    if lines != [] {
      assert all[1..] == lines[1..] + [blank] + more;
      RowsBeforeBlank(lines[1..], blank, more);
    }
  }

  lemma {:induction false} BulletsBeforeBlank(lines: seq<Line>, blank: Line, more: seq<Line>)
    requires blank.Blank()
    ensures BulletCount(lines + [blank] + more) == BulletCount(lines)
  {
    var all := lines + [blank] + more;
    if lines != [] {
      assert all[1..] == lines[1..] + [blank] + more;
      BulletsBeforeBlank(lines[1..], blank, more);
    }
  }

  lemma TableBeforeBlank(lines: seq<Line>, blank: Line, more: seq<Line>)
    requires blank.Blank() && lines != []
    ensures StartsTable(lines + [blank] + more) == StartsTable(lines)
  {
    assert (lines + [blank] + more)[1] == if |lines| > 1 then lines[1] else blank;
  }

  lemma {:induction false} ParagraphBeforeBlank(lines: seq<Line>, blank: Line, more: seq<Line>)
    requires blank.Blank()
    ensures ParagraphCount(lines + [blank] + more) == ParagraphCount(lines)
  {
    var all := lines + [blank] + more;
    if lines != [] {
      assert all[1..] == lines[1..] + [blank] + more;
      TableBeforeBlank(lines, blank, more);
      ParagraphBeforeBlank(lines[1..], blank, more);
    }
  }

  lemma {:induction false} BodyBefore(lines: seq<Line>, more: seq<Line>)
    requires BodyCount(lines) < |lines|
    ensures BodyCount(lines + more) == BodyCount(lines)
  {
    if !lines[0].endsDetails {
      assert (lines + more)[1..] == lines[1..] + more;
      BodyBefore(lines[1..], more);
    }
  }

  lemma DetailsBefore(lines: seq<Line>, more: seq<Line>)
    requires lines != [] && lines[0].details.Some? && BodyCount(lines[1..]) < |lines| - 1
    ensures Taken(lines + more) == Taken(lines) && FirstBlock(lines + more) == FirstBlock(lines)
  {
    var all := lines + more;
    assert all[1..] == lines[1..] + more && all[0] == lines[0];
    BodyBefore(lines[1..], more);
    assert all[1..1 + BodyCount(all[1..])] == lines[1..1 + BodyCount(lines[1..])];
  }

  lemma TableBefore(lines: seq<Line>, blank: Line, more: seq<Line>)
    requires blank.Blank() && StartsTable(lines) && !lines[0].Skipped() && lines[0].heading.None?
    ensures Taken(lines + [blank] + more) == Taken(lines)
    ensures FirstBlock(lines + [blank] + more) == FirstBlock(lines)
  {
    var all := lines + [blank] + more;
    assert all[2..] == lines[2..] + [blank] + more && all[0] == lines[0] && all[1] == lines[1];
    RowsBeforeBlank(lines[2..], blank, more);
    assert all[2..2 + RowCount(all[2..])] == lines[2..2 + RowCount(lines[2..])];
  }

  /** What is taken first does not look past a blank line, unless it is a folded block left open. */
  lemma FirstBeforeBlank(lines: seq<Line>, blank: Line, more: seq<Line>)
    requires blank.Blank() && lines != [] && !lines[0].Stuck()
    requires lines[0].details.Some? ==> BodyCount(lines[1..]) < |lines| - 1
    ensures Taken(lines + [blank] + more) == Taken(lines)
    ensures FirstBlock(lines + [blank] + more) == FirstBlock(lines)
  {
    var all, line := lines + [blank] + more, lines[0];
    assert all[0] == line && all == lines + ([blank] + more);
    TableBeforeBlank(lines, blank, more);
    if line.Skipped() || line.heading.Some? {
    } else if StartsTable(lines) {
      TableBefore(lines, blank, more);
    } else if line.details.Some? {
      DetailsBefore(lines, [blank] + more);
    } else if line.bullet.Some? {
      BulletsBeforeBlank(lines, blank, more);
      assert all[..BulletCount(lines)] == lines[..BulletCount(lines)];
    } else {
      ParagraphBeforeBlank(lines, blank, more);
      assert all[..ParagraphCount(lines)] == lines[..ParagraphCount(lines)];
    }
  }

  lemma BlocksStep(lines: seq<Line>)
    requires lines != [] && !lines[0].Stuck() && Clean(lines[Taken(lines)..], false)
    ensures Clean(lines, false) && Blocks(lines) == FirstBlock(lines) + Blocks(lines[Taken(lines)..])
  {
    RestIsAlike(lines);
  }

  lemma RestOfWhole(lines: seq<Line>, blank: Line, more: seq<Line>)
    requires blank.Blank() && lines != [] && !lines[0].Stuck()
    requires lines[0].details.Some? ==> BodyCount(lines[1..]) < |lines| - 1
    ensures var all := lines + [blank] + more;
      && all[0] == lines[0] && Taken(all) == Taken(lines) && FirstBlock(all) == FirstBlock(lines)
      && all[Taken(all)..] == lines[Taken(lines)..] + [blank] + more
  {
    FirstBeforeBlank(lines, blank, more);
  }

  lemma SameFirst(lines: seq<Line>, all: seq<Line>, more: seq<Block>)
    requires lines != [] && !lines[0].Stuck() && Clean(lines, false)
    requires all != [] && all[0] == lines[0] && FirstBlock(all) == FirstBlock(lines)
    requires Clean(lines[Taken(lines)..], false) && Clean(all[Taken(all)..], false)
    requires Blocks(all[Taken(all)..]) == Blocks(lines[Taken(lines)..]) + more
    ensures Clean(all, false) && Blocks(all) == Blocks(lines) + more
  {
    BlocksStep(all);
    BlocksStep(lines);
    Reassociate(FirstBlock(lines), Blocks(lines[Taken(lines)..]), more);
  }

  /** A closed report, a blank line and another report parse as the one and then the other. */
  lemma {:induction false} ClosedReportsCompose(lines: seq<Line>, blank: Line, more: seq<Line>)
    requires Clean(lines, false) && Closed(lines, false) && blank.Blank() && Clean(more, false)
    ensures Clean(lines + [blank] + more, false)
    ensures Blocks(lines + [blank] + more) == Blocks(lines) + Blocks(more)
    decreases |lines|
  {
    var all := lines + [blank] + more;
    if lines == [] {
      assert all == [blank] + more && all[1..] == more;
      RestIsAlike(all);
    } else {
      var rest := lines[Taken(lines)..];
      TakesSomething(lines);
      RestIsAlike(lines);
      ClosedReportsCompose(rest, blank, more);
      if lines[0].details.Some? { DetailsRestIsAlike(lines); }
      RestOfWhole(lines, blank, more);
      SameFirst(lines, all, Blocks(more));
    }
  }

  /** A line that says "a". */
  const WORD: Line := Reading("a", false, 0, None, false, false, ["a"], false, None, false, false, None, None)

  lemma WordIsAParagraph()
    ensures Clean([WORD], false) && |Blocks([WORD])| == 1
  {
    assert [WORD][1..] == [];
    assert Taken([WORD]) == 1;
    BlocksStep([WORD]);
  }

  lemma {:induction false} BodyRunsOn(lines: seq<Line>, more: seq<Line>)
    requires BodyCount(lines) == |lines| && BodyCount(more) == |more|
    ensures BodyCount(lines + more) == |lines| + |more|
  {
    if lines == [] {
      assert lines + more == more;
    } else {
      assert (lines + more)[1..] == lines[1..] + more;
      BodyRunsOn(lines[1..], more);
    }
  }

  lemma {:induction false} OpenBlockSwallows(lines: seq<Line>, blank: Line)
    requires lines != [] && lines[0].details.Some? && BodyCount(lines[1..]) == |lines| - 1
    requires blank.Blank()
    ensures Clean(lines, false) && Clean(lines + [blank] + [WORD], false)
    ensures |Blocks(lines + [blank] + [WORD])| == 1 && |Blocks(lines)| == 1
  {
    var all := lines + [blank] + [WORD];
    assert all[1..] == lines[1..] + [blank, WORD] && all[0] == lines[0];
    assert [blank, WORD][1..] == [WORD] && [WORD][1..] == [];
    assert BodyCount([WORD]) == 1 && BodyCount([blank, WORD]) == 2;
    BodyRunsOn(lines[1..], [blank, WORD]);
    DetailsIsTaken(all);
    DetailsIsTaken(lines);
    assert all[Taken(all)..] == [] && lines[Taken(lines)..] == [];
    BlocksStep(all);
    BlocksStep(lines);
  }

  /** What follows a report with an open block adds no block to it. */
  lemma {:induction false} OpenReportAddsNothing(lines: seq<Line>, blank: Line)
    requires Clean(lines, false) && !Closed(lines, false) && blank.Blank()
    ensures Clean(lines + [blank] + [WORD], false)
    ensures |Blocks(lines + [blank] + [WORD])| == |Blocks(lines)|
    decreases |lines|
  {
    TakesSomething(lines);
    if lines[0].details.Some? && BodyCount(lines[1..]) == |lines| - 1 {
      OpenBlockSwallows(lines, blank);
    } else {
      var rest, all := lines[Taken(lines)..], lines + [blank] + [WORD];
      if lines[0].details.Some? { DetailsRestIsAlike(lines); DetailsIsTaken(lines); } else { OpenRest(lines); }
      RestIsAlike(lines);
      OpenReportAddsNothing(rest, blank);
      RestOfWhole(lines, blank, [WORD]);
      BlocksStep(all);
      BlocksStep(lines);
    }
  }

  lemma OpenRest(lines: seq<Line>)
    requires lines != [] && !lines[0].Stuck() && lines[0].details.None? && !Closed(lines, false)
    ensures !Closed(lines[Taken(lines)..], false)
  {
    TakenIsPlain(lines);
    ScanPlain(lines, Taken(lines));
  }

  ghost predicate Composes(lines: seq<Line>, blank: Line)
    requires Clean(lines, false)
  {
    forall more: seq<Line> :: Clean(more, false) ==>
      Clean(lines + [blank] + more, false) && Blocks(lines + [blank] + more) == Blocks(lines) + Blocks(more)
  }

  /** A report can be put before every other one exactly when it leaves no folded block open. */
  lemma ReportComposesExactlyWhenClosed(lines: seq<Line>, blank: Line)
    requires Clean(lines, false) && blank.Blank()
    ensures Composes(lines, blank) <==> Closed(lines, false)
  {
    if Closed(lines, false) {
      forall more: seq<Line> | Clean(more, false)
        ensures Clean(lines + [blank] + more, false) && Blocks(lines + [blank] + more) == Blocks(lines) + Blocks(more)
      {
        ClosedReportsCompose(lines, blank, more);
      }
    } else {
      OpenReportAddsNothing(lines, blank);
      WordIsAParagraph();
      assert |Blocks(lines + [blank] + [WORD])| != |Blocks(lines) + Blocks([WORD])|;
    }
  }
}
