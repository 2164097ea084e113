/** The lines of the engine's report markdown, and what the parser asks of each. */
module ReportLines {
  import opened Options

  // ---------------------------------------------------------------------------
  // Text
  // ---------------------------------------------------------------------------

  /** The characters that trimming removes and that `\s` matches. */
  predicate IsSpace(c: char) {
    || c in {'\t', '\n', '\r', ' '}
    || c as int in {0x0B, 0x0C, 0xA0, 0x1680, 0x2028, 0x2029, 0x202F, 0x205F, 0x3000, 0xFEFF}
    || 0x2000 <= c as int <= 0x200A
  }

  /** The characters that `.` does not match. */
  predicate IsLineBreak(c: char) {
    c in {'\n', '\r'} || c as int in {0x2028, 0x2029}
  }

  function TrimStart(s: string): string {
    if s != "" && IsSpace(s[0]) then TrimStart(s[1..]) else s
  }

  function TrimEnd(s: string): string {
    if s != "" && IsSpace(s[|s| - 1]) then TrimEnd(s[..|s| - 1]) else s
  }

  function Trim(s: string): string {
    TrimEnd(TrimStart(s))
  }

  predicate EndsWith(s: string, tail: string) {
    |tail| <= |s| && s[|s| - |tail|..] == tail
  }

  predicate OneLine(s: string) {
    forall c :: c in s ==> !IsLineBreak(c)
  }

  function Split(s: string, at: char): (r: seq<string>)
    ensures r != []
  {
    if s == "" then [""]
    else
      var rest := Split(s[1..], at);
      if s[0] == at then [""] + rest else [[s[0]] + rest[0]] + rest[1..]
  }

  function TrimAll(s: seq<string>): seq<string> {
    if s == [] then [] else [Trim(s[0])] + TrimAll(s[1..])
  }

  function Join(s: seq<string>): string {
    if s == [] then "" else if |s| == 1 then s[0] else s[0] + " " + Join(s[1..])
  }

  // ---------------------------------------------------------------------------
  // Lines
  // ---------------------------------------------------------------------------

  predicate IsTableRow(line: string) {
    "|" <= TrimStart(line)
  }

  predicate IsRule(line: string) {
    '-' in line && forall c :: c in line ==> IsSpace(c) || c in {':', '|', '-'}
  }

  predicate IsBullet(line: string) {
    var t := Trim(line);
    |t| >= 2 && t[0] in {'-', '*'} && IsSpace(t[1])
  }

  predicate IsComment(line: string) {
    "<!--" <= Trim(line) && EndsWith(Trim(line), "-->")
  }

  /** How many of two to four hashes start the line with a space after them; 0 if none do. */
  function Hashes(line: string): (n: nat)
    ensures n in {0, 2, 3, 4}
  {
    var t := Trim(line);
    if "##" <= t && |t| > 2 && IsSpace(t[2]) then 2
    else if "###" <= t && |t| > 3 && IsSpace(t[3]) then 3
    else if "####" <= t && |t| > 4 && IsSpace(t[4]) then 4
    else 0
  }

  predicate IsHeading(line: string) {
    Hashes(line) > 0 && OneLine(HeadingText(line))
  }

  function HeadingText(line: string): string {
    if Hashes(line) <= |Trim(line)| then TrimStart(Trim(line)[Hashes(line)..]) else ""
  }

  predicate StartsDetails(line: string) {
    "<details>" <= Trim(line)
  }

  predicate IsDetails(line: string) {
    var t := Trim(line);
    && "<details><summary>" <= t && EndsWith(t, "</summary>") && |t| >= 28
    && OneLine(t[18..|t| - 10])
  }

  predicate StartsSub(line: string) {
    "<sub>" <= Trim(line)
  }

  predicate IsSub(line: string) {
    var t := Trim(line);
    "<sub>" <= t && EndsWith(t, "</sub>") && |t| >= 11 && OneLine(t[5..|t| - 6])
  }

  predicate EndsDetails(line: string) {
    Trim(line) == "</details>"
  }

  function WithoutEdges(s: string): string {
    var t := if "|" <= s then s[1..] else s;
    if EndsWith(t, "|") then t[..|t| - 1] else t
  }

  function Cells(line: string): seq<string> {
    TrimAll(Split(WithoutEdges(Trim(line)), '|'))
  }

  // ---------------------------------------------------------------------------
  // Lines as the parser sees them
  // ---------------------------------------------------------------------------

  /** The answers to everything the parser asks about one line. */
  datatype Reading = Reading(
    trimmed: string,
    comment: bool,
    hashes: nat,
    heading: Option<string>,
    row: bool,
    rule: bool,
    cells: seq<string>,
    startsDetails: bool,
    details: Option<string>,
    endsDetails: bool,
    startsSub: bool,
    sub: Option<string>,
    bullet: Option<string>)
  {
    predicate Blank() { trimmed == "" }

    predicate Skipped() { Blank() || comment }

    /** A line that starts like a heading, a folded block or a footnote and is not one. No branch
        of the parser takes it. */
    predicate Stuck() {
      && !Skipped()
      && ((hashes > 0 && heading.None?) || (startsDetails && details.None?) || (startsSub && sub.None?))
    }

    /** Neither opens a folded block nor is stuck. */
    predicate Plain() { details.None? && !Stuck() }
  }

  /** What the line predicates imply about each other. */
  predicate Coherent(l: Reading) {
    && (l.details.Some? ==> l.startsDetails && !l.Stuck())
    && (l.heading.Some? ==> l.hashes > 0)
    && (l.sub.Some? ==> l.startsSub)
    && (l.Skipped() || l.heading.Some? || l.row || l.rule || l.sub.Some? || l.bullet.Some? ==> l.Plain())
    && (l.Blank() ==> !l.row && !l.rule && l.bullet.None? && !l.endsDetails)
  }

  type Line = l: Reading | Coherent(l)
    witness Reading("", false, 0, None, false, false, [""], false, None, false, false, None, None)

  function Read(line: string): Line {
    ReadingIsCoherent(line);
    Answers(line)
  }

  function Answers(line: string): Reading {
    var t := Trim(line);
    Reading(
      t, IsComment(line),
      Hashes(line), if IsHeading(line) then Some(HeadingText(line)) else None,
      IsTableRow(line), IsRule(line), Cells(line),
      StartsDetails(line), if IsDetails(line) then Some(t[18..|t| - 10]) else None,
      EndsDetails(line),
      StartsSub(line), if IsSub(line) then Some(t[5..|t| - 6]) else None,
      if IsBullet(line) then Some(TrimStart(t[1..])) else None)
  }

  function ReadAll(lines: seq<string>): seq<Line> {
    if lines == [] then [] else [Read(lines[0])] + ReadAll(lines[1..])
  }

  lemma {:induction false} TrimEndKeepsStart(s: string)
    requires s != "" && !IsSpace(s[0])
    ensures TrimEnd(s) != "" && TrimEnd(s)[0] == s[0]
  {
    if IsSpace(s[|s| - 1]) { TrimEndKeepsStart(s[..|s| - 1]); }
  }

  lemma RowStartsWithPipe(line: string)
    requires IsTableRow(line)
    ensures Trim(line) != "" && Trim(line)[0] == '|'
  {
    TrimEndKeepsStart(TrimStart(line));
  }

  lemma {:induction false} TrimStartKeepsChars(s: string)
    ensures forall c :: c in TrimStart(s) ==> c in s
    ensures forall c :: c in s && !IsSpace(c) ==> c in TrimStart(s)
  {
    if s != "" && IsSpace(s[0]) { TrimStartKeepsChars(s[1..]); }
  }

  lemma {:induction false} TrimEndKeepsChars(s: string)
    ensures forall c :: c in TrimEnd(s) ==> c in s
    ensures forall c :: c in s && !IsSpace(c) ==> c in TrimEnd(s)
  {
    if s != "" && IsSpace(s[|s| - 1]) { TrimEndKeepsChars(s[..|s| - 1]); }
  }

  lemma TrimKeepsChars(s: string)
    ensures forall c :: c in Trim(s) ==> c in s
    ensures forall c :: c in s && !IsSpace(c) ==> c in Trim(s)
  {
    TrimStartKeepsChars(s);
    TrimEndKeepsChars(TrimStart(s));
  }

  /** The first two characters tell the kinds of line apart. */
  lemma FirstCharacters(line: string)
    ensures var t := Trim(line);
      && (StartsDetails(line) ==> |t| >= 2 && t[0] == '<' && t[1] == 'd')
      && (StartsSub(line) ==> |t| >= 2 && t[0] == '<' && t[1] == 's')
      && (IsComment(line) ==> |t| >= 2 && t[0] == '<' && t[1] == '!')
      && (Hashes(line) > 0 ==> |t| >= 2 && t[0] == '#')
      && (IsTableRow(line) ==> |t| >= 1 && t[0] == '|')
      && (IsBullet(line) ==> |t| >= 2 && t[0] in {'-', '*'})
      && (IsRule(line) ==> |t| >= 1 && t[0] in {'-', '|', ':'})
  {
    if IsTableRow(line) { RowStartsWithPipe(line); }
    if IsRule(line) { RuleStartsPlainly(line); }
  }

  lemma RuleStartsPlainly(line: string)
    requires IsRule(line)
    ensures Trim(line) != "" && Trim(line)[0] in {'-', '|', ':'}
  {
    TrimKeepsChars(line);
    TrimmedStart(line);
    assert Trim(line)[0] in Trim(line);
  }

  /** A trimmed line does not start with a space. */
  lemma TrimmedStart(line: string)
    ensures Trim(line) != "" ==> !IsSpace(Trim(line)[0])
  {
    StartTrimmed(line);
    if TrimStart(line) != "" { TrimEndKeepsStart(TrimStart(line)); }
  }

  lemma {:induction false} StartTrimmed(s: string)
    ensures TrimStart(s) != "" ==> !IsSpace(TrimStart(s)[0])
  {
    if s != "" && IsSpace(s[0]) { StartTrimmed(s[1..]); }
  }

  lemma DetailsStart(line: string)
    ensures IsDetails(line) ==> StartsDetails(line)
    ensures IsSub(line) ==> StartsSub(line)
    ensures IsHeading(line) ==> Hashes(line) > 0
  {
    if IsDetails(line) { assert Trim(line)[..9] == "<details><summary>"[..9] == "<details>"; }
  }

  lemma ReadingIsCoherent(line: string)
    ensures Coherent(Answers(line))
  {
    FirstCharacters(line);
    DetailsStart(line);
  }
}
