/** The credentials that can no longer act, grouped and sorted for the history list. */
module TokenHistory {
  import opened Options

  /** A timestamp as the control plane writes it; only its order is used. */
  type Stamp = int

  /** An expiry as a point in time, or text that is no date at all. */
  datatype Expiry = At(ms: int) | Unreadable

  /** One row of the token list. `None` is a field that is null or empty. */
  datatype TokenRow = TokenRow(
    id: string, name: string, prefix: string, kind: string,
    createdAt: Stamp, lastUsedAt: Option<Stamp>, revokedAt: Option<Stamp>, expiresAt: Option<Expiry>)

  datatype TokenState = Live | Expired | Revoked

  function StateOf(t: TokenRow, now: int): TokenState {
    if t.revokedAt.Some? then Revoked
    else if t.expiresAt.Some? && t.expiresAt.value.At? && t.expiresAt.value.ms <= now then Expired
    else Live
  }

  datatype HistoryLine = HistoryLine(
    key: string, name: string, kind: string, state: TokenState, count: nat,
    prefix: Option<string>, created: Stamp, lastUsed: Option<Stamp>, used: nat)

  const OIDC := "oidc"

  function StateText(state: TokenState): string {
    match state case Live => "live" case Expired => "expired" case Revoked => "revoked"
  }

  function RunKey(state: TokenState, name: string): string {
    StateText(state) + ":" + name
  }

  // ---------------------------------------------------------------------------
  // The grouping, row by row
  // ---------------------------------------------------------------------------

  function Later(a: Option<Stamp>, b: Option<Stamp>): Option<Stamp> {
    if b.Some? && (a.None? || b.value > a.value) then b else a
  }

  function LineFor(t: TokenRow, state: TokenState, key: string): HistoryLine {
    HistoryLine(key, t.name, t.kind, state, 1, Some(t.prefix), t.createdAt, t.lastUsedAt,
      if t.lastUsedAt.Some? then 1 else 0)
  }

  function Merge(line: HistoryLine, t: TokenRow): HistoryLine {
    line.(
      count := line.count + 1,
      prefix := None,
      created := if t.createdAt > line.created then t.createdAt else line.created,
      used := if t.lastUsedAt.Some? then line.used + 1 else line.used,
      lastUsed := Later(line.lastUsed, t.lastUsedAt))
  }

  predicate IsRun(line: HistoryLine, key: string) {
    line.kind == OIDC && line.key == key
  }

  /** The index of the first line for a run, or -1. */
  function FindRun(lines: seq<HistoryLine>, key: string): (k: int)
    ensures -1 <= k < |lines|
    ensures k >= 0 ==> IsRun(lines[k], key)
    ensures forall i :: 0 <= i < (if k == -1 then |lines| else k) ==> !IsRun(lines[i], key)
  {
    if lines == [] then -1
    else
      var k := FindRun(lines[..|lines| - 1], key);
      if k == -1 && IsRun(lines[|lines| - 1], key) then |lines| - 1 else k
  }

  function Absorb(lines: seq<HistoryLine>, t: TokenRow, now: int): seq<HistoryLine> {
    var state := StateOf(t, now);
    if state.Live? then lines
    else if t.kind != OIDC then lines + [LineFor(t, state, t.id)]
    else
      var key := RunKey(state, t.name);
      var k := FindRun(lines, key);
      if k == -1 then lines + [LineFor(t, state, key)] else lines[k := Merge(lines[k], t)]
  }

  function Grouped(rows: seq<TokenRow>, now: int): seq<HistoryLine> {
    if rows == [] then [] else Absorb(Grouped(rows[..|rows| - 1], now), rows[|rows| - 1], now)
  }

  // ---------------------------------------------------------------------------
  // The sort: newest first, and lines of one moment in the order they were met
  // ---------------------------------------------------------------------------

  /** Where a line made at `created` goes among the first `n` lines: after all that are not older. */
  function Slot(lines: seq<HistoryLine>, n: nat, created: Stamp): (k: nat)
    requires n <= |lines|
    ensures k <= n
    ensures forall i :: k <= i < n ==> lines[i].created < created
    ensures k > 0 ==> lines[k - 1].created >= created
  {
    if n == 0 || lines[n - 1].created >= created then n else Slot(lines, n - 1, created)
  }

  function Inserted<T>(s: seq<T>, k: nat, x: T): seq<T>
    requires k <= |s|
  {
    s[..k] + [x] + s[k..]
  }

  lemma InsertedElements<T>(s: seq<T>, k: nat, x: T)
    requires k <= |s|
    ensures var s' := Inserted(s, k, x);
      && |s'| == |s| + 1
      && forall i :: 0 <= i < |s'| ==> s'[i] == if i < k then s[i] else if i == k then x else s[i - 1]
  {
  }

  function Placed(lines: seq<HistoryLine>, line: HistoryLine): seq<HistoryLine> {
    Inserted(lines, Slot(lines, |lines|, line.created), line)
  }

  function NewestFirst(lines: seq<HistoryLine>): seq<HistoryLine> {
    if lines == [] then [] else Placed(NewestFirst(lines[..|lines| - 1]), lines[|lines| - 1])
  }

  function History(rows: seq<TokenRow>, now: int): seq<HistoryLine> {
    NewestFirst(Grouped(rows, now))
  }

  // ---------------------------------------------------------------------------
  // The console's version: line objects shared between the list and the map of runs
  // ---------------------------------------------------------------------------

  class Line {
    var key: string
    var name: string
    var kind: string
    var state: TokenState
    var count: nat
    var prefix: Option<string>
    var created: Stamp
    var lastUsed: Option<Stamp>
    var used: nat

    function View(): HistoryLine
      reads this
    {
      HistoryLine(key, name, kind, state, count, prefix, created, lastUsed, used)
    }

    constructor (t: TokenRow, state: TokenState)
      ensures View() == LineFor(t, state, t.id)
    {
      key, name, kind, this.state, count := t.id, t.name, t.kind, state, 1;
      prefix, created, lastUsed := Some(t.prefix), t.createdAt, t.lastUsedAt;
      used := if t.lastUsedAt.Some? then 1 else 0;
    }

    method Add(t: TokenRow)
      modifies this
      ensures View() == Merge(old(View()), t)
    {
      count := count + 1;
      prefix := None;
      if t.createdAt > created { created := t.createdAt; }
      if t.lastUsedAt.Some? {
        used := used + 1;
        if lastUsed.None? || t.lastUsedAt.value > lastUsed.value { lastUsed := t.lastUsedAt; }
      }
    }
  }

  ghost function Views(lines: seq<Line>): (views: seq<HistoryLine>)
    reads lines
    ensures |views| == |lines|
    ensures forall i :: 0 <= i < |lines| ==> views[i] == lines[i].View()
  {
    seq(|lines|, i requires 0 <= i < |lines| reads lines => lines[i].View())
  }

  /** No line object stands in the list twice. */
  ghost predicate Separate(lines: seq<Line>) {
    forall i, j :: 0 <= i < j < |lines| ==> lines[i] != lines[j]
  }

  /** The map of runs points at the objects in the list that stand for those runs. */
  ghost predicate Shares(byRun: map<string, Line>, lines: seq<Line>, views: seq<HistoryLine>)
    requires |views| == |lines|
  {
    forall key: string :: SharesRun(byRun, lines, views, key)
  }

  ghost predicate SharesRun(byRun: map<string, Line>, lines: seq<Line>, views: seq<HistoryLine>, key: string)
    requires |views| == |lines|
  {
    var k := FindRun(views, key);
    (key in byRun <==> k >= 0) && (k >= 0 ==> byRun[key] == lines[k])
  }

  lemma FindRunAfterAppend(views: seq<HistoryLine>, line: HistoryLine, key: string)
    ensures FindRun(views + [line], key) ==
      if FindRun(views, key) >= 0 then FindRun(views, key) else if IsRun(line, key) then |views| else -1
  {
    assert (views + [line])[..|views|] == views;
  }

  lemma FindRunAfterMerge(views: seq<HistoryLine>, k: nat, t: TokenRow, key: string)
    requires k < |views|
    ensures FindRun(views[k := Merge(views[k], t)], key) == FindRun(views, key)
  {
    var views' := views[k := Merge(views[k], t)];
    assert forall i :: 0 <= i < |views| ==> (IsRun(views'[i], key) <==> IsRun(views[i], key));
  }

  lemma SharesAfterAppend(
      byRun: map<string, Line>, lines: seq<Line>, views: seq<HistoryLine>, line: Line, view: HistoryLine)
    requires |views| == |lines| && Shares(byRun, lines, views)
    requires view.kind == OIDC ==> view.key !in byRun
    ensures Shares(if view.kind == OIDC then byRun[view.key := line] else byRun, lines + [line], views + [view])
  {
    var byRun' := if view.kind == OIDC then byRun[view.key := line] else byRun;
    forall key: string ensures SharesRun(byRun', lines + [line], views + [view], key) {
      assert SharesRun(byRun, lines, views, key);
      FindRunAfterAppend(views, view, key);
    }
  }

  lemma SharesAfterMerge(byRun: map<string, Line>, lines: seq<Line>, views: seq<HistoryLine>, k: nat, t: TokenRow)
    requires |views| == |lines| && Shares(byRun, lines, views) && k < |views|
    ensures Shares(byRun, lines, views[k := Merge(views[k], t)])
  {
    var views' := views[k := Merge(views[k], t)];
    forall key: string ensures SharesRun(byRun, lines, views', key) {
      assert SharesRun(byRun, lines, views, key);
      FindRunAfterMerge(views, k, t, key);
    }
  }

  /** One row taken in. A line object is made for it, and either kept or folded into the line of
      its run, which the list sees too because it holds the same object. */
  method Take(lines: seq<Line>, byRun: map<string, Line>, t: TokenRow, now: int)
    returns (lines': seq<Line>, byRun': map<string, Line>)
    requires Separate(lines) && Shares(byRun, lines, Views(lines))
    modifies set line | line in lines
    ensures Separate(lines') && Shares(byRun', lines', Views(lines'))
    ensures fresh((set line | line in lines') - (set line | line in lines))
    ensures Views(lines') == Absorb(old(Views(lines)), t, now)
  {
    lines', byRun' := lines, byRun;
    var state := StateOf(t, now);
    if state.Live? { return; }
    ghost var views := Views(lines);
    var line := new Line(t, state);
    if t.kind != OIDC {
      lines' := lines + [line];
      SharesAfterAppend(byRun, lines, views, line, line.View());
      assert Views(lines') == views + [line.View()];
      return;
    }
    var key := RunKey(state, t.name);
    assert SharesRun(byRun, lines, views, key);
    if key !in byRun {
      line.key := key;
      byRun' := byRun[key := line];
      lines' := lines + [line];
      SharesAfterAppend(byRun, lines, views, line, line.View());
      assert Views(lines') == views + [line.View()];
      return;
    }
    ghost var k := FindRun(views, key);
    byRun[key].Add(t);
    SharesAfterMerge(byRun, lines, views, k, t);
    assert Views(lines) == views[k := Merge(views[k], t)];
  }

  method GroupHistory(rows: seq<TokenRow>, now: int) returns (history: seq<Line>)
    ensures Separate(history) && fresh(set line | line in history)
    ensures Views(history) == History(rows, now)
  {
    var lines: seq<Line> := [];
    var byRun: map<string, Line> := map[];
    for i := 0 to |rows|
      invariant Separate(lines) && fresh(set line | line in lines)
      invariant Views(lines) == Grouped(rows[..i], now)
      invariant Shares(byRun, lines, Views(lines))
    {
      assert rows[..i + 1][..i] == rows[..i];
      lines, byRun := Take(lines, byRun, rows[i], now);
    }
    assert rows[..|rows|] == rows;
    history := SortNewestFirst(lines);
  }

  method SortNewestFirst(lines: seq<Line>) returns (sorted: seq<Line>)
    requires Separate(lines)
    ensures Separate(sorted) && forall line :: line in sorted ==> line in lines
    ensures Views(sorted) == NewestFirst(Views(lines))
  {
    sorted := [];
    ghost var views := Views(lines);
    for i := 0 to |lines|
      invariant forall line :: line in sorted ==> line in lines[..i]
      invariant Separate(sorted)
      invariant Views(sorted) == NewestFirst(views[..i])
    {
      assert views[..i + 1][..i] == views[..i];
      sorted := Place(sorted, lines[i]);
    }
    assert views[..|lines|] == views;
  }

  method Place(sorted: seq<Line>, line: Line) returns (placed: seq<Line>)
    requires Separate(sorted) && line !in sorted
    ensures Separate(placed) && forall l :: l in placed ==> l in sorted || l == line
    ensures Views(placed) == Placed(Views(sorted), line.View())
  {
    ghost var views := Views(sorted);
    var k := |sorted|;
    while k > 0 && sorted[k - 1].created < line.created
      invariant 0 <= k <= |sorted|
      invariant Slot(views, |views|, line.created) == Slot(views, k, line.created)
    {
      k := k - 1;
    }
    placed := Inserted(sorted, k, line);
    InsertKeepsSeparate(sorted, k, line);
    InsertedViews(sorted, k, line);
  }

  lemma InsertKeepsSeparate(lines: seq<Line>, k: nat, line: Line)
    requires Separate(lines) && line !in lines && k <= |lines|
    ensures Separate(Inserted(lines, k, line))
    ensures forall l :: l in Inserted(lines, k, line) ==> l in lines || l == line
  {
    InsertedElements(lines, k, line);
  }

  lemma InsertedViews(lines: seq<Line>, k: nat, line: Line)
    requires k <= |lines|
    ensures Views(Inserted(lines, k, line)) == Inserted(Views(lines), k, line.View())
  {
    InsertedElements(lines, k, line);
    InsertedElements(Views(lines), k, line.View());
  }

  // ---------------------------------------------------------------------------
  // What the lines stand for
  // ---------------------------------------------------------------------------

  /** What a row is grouped on: a workflow identity on its state and name, any other on itself. */
  datatype Group = Single(row: nat) | Workflow(state: TokenState, name: string)

  function GroupOf(t: TokenRow, row: nat, now: int): Group {
    if t.kind == OIDC then Workflow(StateOf(t, now), t.name) else Single(row)
  }

  predicate Dead(t: TokenRow, now: int) {
    !StateOf(t, now).Live?
  }

  /** The groups that have a dead row, each once, in the order of their first. */
  function Groups(rows: seq<TokenRow>, now: int): (groups: seq<Group>)
    ensures forall i, j :: 0 <= i < j < |groups| ==> groups[i] != groups[j]
    ensures forall g :: g in groups <==>
      exists i :: 0 <= i < |rows| && Dead(rows[i], now) && GroupOf(rows[i], i, now) == g
  {
    if rows == [] then []
    else
      var n := |rows| - 1;
      var groups, g := Groups(rows[..n], now), GroupOf(rows[n], n, now);
      if Dead(rows[n], now) && g !in groups then groups + [g] else groups
  }

  /** The dead rows of one group, in order. */
  function Members(rows: seq<TokenRow>, now: int, g: Group): seq<TokenRow> {
    if rows == [] then []
    else
      var n := |rows| - 1;
      var members := Members(rows[..n], now, g);
      if Dead(rows[n], now) && GroupOf(rows[n], n, now) == g then members + [rows[n]] else members
  }

  function EverUsed(rows: seq<TokenRow>): seq<TokenRow> {
    if rows == [] then []
    else
      var used := EverUsed(rows[..|rows| - 1]);
      if rows[|rows| - 1].lastUsedAt.Some? then used + [rows[|rows| - 1]] else used
  }

  predicate NewestCreated(created: Stamp, rows: seq<TokenRow>) {
    && (exists i :: 0 <= i < |rows| && rows[i].createdAt == created)
    && forall i :: 0 <= i < |rows| ==> rows[i].createdAt <= created
  }

  predicate NewestUse(lastUsed: Option<Stamp>, rows: seq<TokenRow>) {
    && (lastUsed.Some? ==> exists i :: 0 <= i < |rows| && rows[i].lastUsedAt == lastUsed)
    && forall i :: 0 <= i < |rows| && rows[i].lastUsedAt.Some? ==>
         lastUsed.Some? && rows[i].lastUsedAt.value <= lastUsed.value
  }

  /** One line stands for exactly these rows, and says of them what is true of all of them. */
  predicate StandsFor(line: HistoryLine, g: Group, rows: seq<TokenRow>, now: int) {
    && rows != []
    && line.count == |rows| && line.used == |EverUsed(rows)|
    && (forall i :: 0 <= i < |rows| ==>
         rows[i].name == line.name && rows[i].kind == line.kind && StateOf(rows[i], now) == line.state)
    && !line.state.Live?
    && NewestCreated(line.created, rows) && NewestUse(line.lastUsed, rows)
    && line.prefix == (if |rows| == 1 then Some(rows[0].prefix) else None)
    && match g
       case Single(_) => |rows| == 1 && line.kind != OIDC && line.key == rows[0].id
       case Workflow(state, name) =>
         line.kind == OIDC && line.state == state && line.name == name && line.key == RunKey(state, name)
  }

  lemma RunKeyIsInjective(s1: TokenState, n1: string, s2: TokenState, n2: string)
    requires RunKey(s1, n1) == RunKey(s2, n2)
    ensures s1 == s2 && n1 == n2
  {
    assert RunKey(s1, n1)[0] == StateText(s1)[0] && RunKey(s2, n2)[0] == StateText(s2)[0];
    assert n1 == RunKey(s1, n1)[|StateText(s1)| + 1..] && n2 == RunKey(s2, n2)[|StateText(s2)| + 1..];
  }

  predicate LineStands(lines: seq<HistoryLine>, k: nat, rows: seq<TokenRow>, now: int)
    requires k < |lines| && |lines| == |Groups(rows, now)|
  {
    StandsFor(lines[k], Groups(rows, now)[k], Members(rows, now, Groups(rows, now)[k]), now)
  }

  predicate AllStand(lines: seq<HistoryLine>, rows: seq<TokenRow>, now: int) {
    && |lines| == |Groups(rows, now)|
    && forall k :: 0 <= k < |lines| ==> LineStands(lines, k, rows, now)
  }

  lemma {:induction false} NoMembersYet(rows: seq<TokenRow>, now: int, g: Group)
    requires g !in Groups(rows, now)
    ensures Members(rows, now, g) == []
  {
    if rows != [] {
      var n := |rows| - 1;
      assert rows[..n] + [rows[n]] == rows;
      assert !(Dead(rows[n], now) && GroupOf(rows[n], n, now) == g);
      forall i | 0 <= i < n ensures !(Dead(rows[..n][i], now) && GroupOf(rows[..n][i], i, now) == g) {
        assert rows[..n][i] == rows[i];
      }
      NoMembersYet(rows[..n], now, g);
    }
  }

  lemma OneMoreRow(rows: seq<TokenRow>, t: TokenRow, now: int, g: Group)
    ensures
      var mine := Dead(t, now) && GroupOf(t, |rows|, now) == g;
      && Members(rows + [t], now, g) == (if mine then Members(rows, now, g) + [t] else Members(rows, now, g))
      && Grouped(rows + [t], now) == Absorb(Grouped(rows, now), t, now)
      && (!Dead(t, now) ==> Groups(rows + [t], now) == Groups(rows, now))
      && (mine ==>
           Groups(rows + [t], now) == if g in Groups(rows, now) then Groups(rows, now) else Groups(rows, now) + [g])
  {
    assert (rows + [t])[..|rows|] == rows;
  }

  lemma MergeStands(line: HistoryLine, g: Group, rows: seq<TokenRow>, t: TokenRow, now: int)
    requires StandsFor(line, g, rows, now) && g.Workflow?
    requires t.kind == OIDC && t.name == g.name && StateOf(t, now) == g.state
    ensures StandsFor(Merge(line, t), g, rows + [t], now)
  {
    var all := rows + [t];
    assert all[..|rows|] == rows && all[|rows|] == t;
    assert forall i :: 0 <= i < |rows| ==> all[i] == rows[i];
  }

  lemma NewLineStands(t: TokenRow, g: Group, now: int)
    requires Dead(t, now)
    requires g == if t.kind == OIDC then Workflow(StateOf(t, now), t.name) else g
    requires t.kind != OIDC ==> g.Single?
    ensures
      var key := if t.kind == OIDC then RunKey(StateOf(t, now), t.name) else t.id;
      StandsFor(LineFor(t, StateOf(t, now), key), g, [t], now)
  {
    assert [t][..0] == [] && [t][0] == t;
  }

  /** Looking a run up by its key finds the line that stands for it, and only that. */
  lemma FindRunFindsTheGroup(lines: seq<HistoryLine>, rows: seq<TokenRow>, now: int, state: TokenState, name: string)
    requires AllStand(lines, rows, now)
    ensures
      var k, groups := FindRun(lines, RunKey(state, name)), Groups(rows, now);
      if k == -1 then Workflow(state, name) !in groups else groups[k] == Workflow(state, name)
  {
    var k, groups := FindRun(lines, RunKey(state, name)), Groups(rows, now);
    if k == -1 {
      forall j | 0 <= j < |groups| ensures groups[j] != Workflow(state, name) {
        assert LineStands(lines, j, rows, now);
      }
    } else {
      assert LineStands(lines, k, rows, now);
      RunKeyIsInjective(lines[k].state, lines[k].name, state, name);
    }
  }

  lemma OthersStand(lines: seq<HistoryLine>, rows: seq<TokenRow>, t: TokenRow, now: int, k: nat)
    requires AllStand(lines, rows, now) && k < |lines|
    requires !Dead(t, now) || GroupOf(t, |rows|, now) != Groups(rows, now)[k]
    ensures var g := Groups(rows, now)[k]; StandsFor(lines[k], g, Members(rows + [t], now, g), now)
  {
    OneMoreRow(rows, t, now, Groups(rows, now)[k]);
    assert LineStands(lines, k, rows, now);
  }

  lemma NewcomerStands(rows: seq<TokenRow>, t: TokenRow, now: int, line: HistoryLine)
    requires Dead(t, now) && GroupOf(t, |rows|, now) !in Groups(rows, now)
    requires line == LineFor(t, StateOf(t, now), if t.kind == OIDC then RunKey(StateOf(t, now), t.name) else t.id)
    ensures var g := GroupOf(t, |rows|, now); StandsFor(line, g, Members(rows + [t], now, g), now)
  {
    var g := GroupOf(t, |rows|, now);
    OneMoreRow(rows, t, now, g);
    NoMembersYet(rows, now, g);
    NewLineStands(t, g, now);
  }

  lemma NewGroupStands(lines: seq<HistoryLine>, rows: seq<TokenRow>, t: TokenRow, now: int, line: HistoryLine)
    requires AllStand(lines, rows, now) && Dead(t, now) && GroupOf(t, |rows|, now) !in Groups(rows, now)
    requires StandsFor(line, GroupOf(t, |rows|, now), Members(rows + [t], now, GroupOf(t, |rows|, now)), now)
    ensures AllStand(lines + [line], rows + [t], now)
  {
    var groups, g := Groups(rows, now), GroupOf(t, |rows|, now);
    OneMoreRow(rows, t, now, g);
    var groups' := Groups(rows + [t], now);
    assert groups' == groups + [g];
    forall k | 0 <= k < |lines| ensures LineStands(lines + [line], k, rows + [t], now) {
      assert groups[k] in groups && groups'[k] == groups[k] && (lines + [line])[k] == lines[k];
      OthersStand(lines, rows, t, now, k);
    }
    assert groups'[|lines|] == g && LineStands(lines + [line], |lines|, rows + [t], now);
  }

  lemma KnownGroupStands(lines: seq<HistoryLine>, rows: seq<TokenRow>, t: TokenRow, now: int, k: nat)
    requires AllStand(lines, rows, now) && Dead(t, now) && t.kind == OIDC
    requires k < |lines| && Groups(rows, now)[k] == GroupOf(t, |rows|, now)
    ensures AllStand(lines[k := Merge(lines[k], t)], rows + [t], now)
  {
    var groups, lines' := Groups(rows, now), lines[k := Merge(lines[k], t)];
    assert groups[k] in groups;
    OneMoreRow(rows, t, now, groups[k]);
    assert LineStands(lines, k, rows, now);
    MergeStands(lines[k], groups[k], Members(rows, now, groups[k]), t, now);
    assert LineStands(lines', k, rows + [t], now);
    forall j | 0 <= j < |lines| && j != k ensures LineStands(lines', j, rows + [t], now) {
      assert lines'[j] == lines[j] && groups[j] != groups[k];
      OthersStand(lines, rows, t, now, j);
    }
  }

  lemma AbsorbStands(lines: seq<HistoryLine>, rows: seq<TokenRow>, t: TokenRow, now: int)
    requires AllStand(lines, rows, now)
    ensures AllStand(Absorb(lines, t, now), rows + [t], now)
  {
    var groups, g := Groups(rows, now), GroupOf(t, |rows|, now);
    if !Dead(t, now) {
      OneMoreRow(rows, t, now, g);
      forall k | 0 <= k < |lines| ensures LineStands(lines, k, rows + [t], now) { OthersStand(lines, rows, t, now, k); }
    } else if t.kind != OIDC {
      var line := LineFor(t, StateOf(t, now), t.id);
      NewcomerStands(rows, t, now, line);
      NewGroupStands(lines, rows, t, now, line);
    } else {
      FindRunFindsTheGroup(lines, rows, now, StateOf(t, now), t.name);
      var key := RunKey(StateOf(t, now), t.name);
      var k := FindRun(lines, key);
      if k == -1 {
        var line := LineFor(t, StateOf(t, now), key);
        NewcomerStands(rows, t, now, line);
        NewGroupStands(lines, rows, t, now, line);
      } else {
        KnownGroupStands(lines, rows, t, now, k);
      }
    }
  }

  /** One line for every group with a dead row, in first-met order, standing for all of its dead
      rows and no other: nothing live is listed, nothing dead is left out, nothing is merged that
      is not one workflow run in one state. */
  lemma {:induction false} LinesStandForTheDead(rows: seq<TokenRow>, now: int)
    ensures AllStand(Grouped(rows, now), rows, now)
  {
    if rows != [] {
      var n := |rows| - 1;
      LinesStandForTheDead(rows[..n], now);
      AbsorbStands(Grouped(rows[..n], now), rows[..n], rows[n], now);
      assert rows[..n] + [rows[n]] == rows;
    }
  }

  // ---------------------------------------------------------------------------
  // Which credentials are dead, and of what
  // ---------------------------------------------------------------------------

  /** A date that can be read and is not after `now`. */
  predicate PastExpiry(t: TokenRow, now: int) {
    match t.expiresAt
    case Some(At(ms)) => ms <= now
    case _ => false
  }

  /** How many of the rows can no longer act: those revoked, and those past their expiry. */
  function DeadCount(rows: seq<TokenRow>, now: int): nat {
    if rows == [] then 0
    else
      var last := rows[|rows| - 1];
      DeadCount(rows[..|rows| - 1], now) + if last.revokedAt.Some? || PastExpiry(last, now) then 1 else 0
  }

  lemma {:induction false} DeadAreCounted(rows: seq<TokenRow>, now: int)
    ensures |DeadRows(rows, now)| == DeadCount(rows, now)
  {
    if rows != [] { DeadAreCounted(rows[..|rows| - 1], now); }
  }

  /** The history counts exactly the credentials that are revoked or past their expiry. */
  lemma HistoryCountsTheDead(rows: seq<TokenRow>, now: int)
    ensures TotalCount(History(rows, now)) == DeadCount(rows, now)
  {
    HistoryConserves(rows, now);
    DeadAreCounted(rows, now);
  }

  lemma {:induction false} MembersAreRows(rows: seq<TokenRow>, now: int, g: Group)
    ensures forall t :: t in Members(rows, now, g) ==> t in rows
  {
    if rows != [] {
      MembersAreRows(rows[..|rows| - 1], now, g);
      assert rows == rows[..|rows| - 1] + [rows[|rows| - 1]];
    }
  }

  /** What a line says of every row it stands for. */
  predicate SaysOf(line: HistoryLine, t: TokenRow, now: int) {
    && t.name == line.name && t.kind == line.kind
    && (line.state.Revoked? || line.state.Expired?)
    && (line.state.Revoked? <==> t.revokedAt.Some?)
    && (line.state.Expired? <==> t.revokedAt.None? && PastExpiry(t, now))
  }

  /** Each line stands for rows that are all revoked, or all past their expiry and not revoked, and
      says which. Several are behind one line only if they are workflow identities of one name. */
  lemma LinesSayWhatIsSo(rows: seq<TokenRow>, now: int, k: nat)
    requires k < |Grouped(rows, now)|
    ensures |Grouped(rows, now)| == |Groups(rows, now)|
    ensures
      var line, mine := Grouped(rows, now)[k], Members(rows, now, Groups(rows, now)[k]);
      && mine != [] && line.count == |mine|
      && (forall t :: t in mine ==> t in rows && SaysOf(line, t, now))
      && (line.count > 1 ==> line.kind == "oidc" && line.prefix == None)
      && (line.count == 1 ==> line.prefix == Some(mine[0].prefix) && line.created == mine[0].createdAt
                              && line.lastUsed == mine[0].lastUsedAt)
      && (line.kind != "oidc" ==> line.key == mine[0].id)
  {
    LinesStandForTheDead(rows, now);
    assert LineStands(Grouped(rows, now), k, rows, now);
    MembersAreRows(rows, now, Groups(rows, now)[k]);
  }

  lemma KeyOfARun(state: TokenState, name: string)
    requires !state.Live?
    ensures RunKey(state, name) == (if state.Revoked? then "revoked:" else "expired:") + name
  {
    assert "revoked" + ":" == "revoked:" && "expired" + ":" == "expired:";
  }

  /** The line of a run is known by what became of its credentials and by its name. */
  lemma RunIsKnownBy(rows: seq<TokenRow>, now: int, k: nat)
    requires k < |Grouped(rows, now)| && Grouped(rows, now)[k].kind == "oidc"
    ensures
      var line := Grouped(rows, now)[k];
      line.key == (if line.state.Revoked? then "revoked:" else "expired:") + line.name
  {
    LinesStandForTheDead(rows, now);
    assert LineStands(Grouped(rows, now), k, rows, now);
    KeyOfARun(Grouped(rows, now)[k].state, Grouped(rows, now)[k].name);
  }

  /** Workflow identities of one name that died of the same are behind one line, and no others are
      with them. */
  lemma OneLineForARun(rows: seq<TokenRow>, now: int, i: nat, j: nat)
    requires i < j < |rows| && Dead(rows[i], now) && Dead(rows[j], now)
    ensures GroupOf(rows[i], i, now) == GroupOf(rows[j], j, now) <==>
      && rows[i].kind == "oidc" && rows[j].kind == "oidc" && rows[i].name == rows[j].name
      && rows[i].revokedAt.Some? == rows[j].revokedAt.Some?
  {
  }

  // ---------------------------------------------------------------------------
  // The order, and the totals
  // ---------------------------------------------------------------------------

  predicate Descending(lines: seq<HistoryLine>) {
    forall i, j :: 0 <= i < j < |lines| ==> lines[i].created >= lines[j].created
  }

  /** The lines made at one moment, in order. */
  function MadeAt(lines: seq<HistoryLine>, created: Stamp): seq<HistoryLine> {
    if lines == [] then []
    else
      var rest := MadeAt(lines[..|lines| - 1], created);
      if lines[|lines| - 1].created == created then rest + [lines[|lines| - 1]] else rest
  }

  lemma {:induction false} MadeAtConcat(a: seq<HistoryLine>, b: seq<HistoryLine>, created: Stamp)
    ensures MadeAt(a + b, created) == MadeAt(a, created) + MadeAt(b, created)
  {
    if b == [] {
      assert a + b == a;
    } else {
      var n := |b| - 1;
      assert (a + b)[..|a + b| - 1] == a + b[..n];
      MadeAtConcat(a, b[..n], created);
    }
  }

  lemma {:induction false} NothingMadeAt(lines: seq<HistoryLine>, created: Stamp)
    requires forall i :: 0 <= i < |lines| ==> lines[i].created != created
    ensures MadeAt(lines, created) == []
  {
    if lines != [] { NothingMadeAt(lines[..|lines| - 1], created); }
  }

  lemma MadeAtAround(a: seq<HistoryLine>, line: HistoryLine, b: seq<HistoryLine>, created: Stamp)
    requires forall i :: 0 <= i < |b| ==> b[i].created != line.created
    ensures MadeAt(a + [line] + b, created) == MadeAt(a + b + [line], created)
  {
    MadeAtConcat(a + [line], b, created);
    MadeAtConcat(a, [line], created);
    MadeAtConcat(a + b, [line], created);
    MadeAtConcat(a, b, created);
    if created == line.created { NothingMadeAt(b, created); } else { NothingMadeAt([line], created); }
  }

  lemma PlacedKeepsMoments(lines: seq<HistoryLine>, line: HistoryLine, created: Stamp)
    ensures MadeAt(Placed(lines, line), created) == MadeAt(lines + [line], created)
  {
    var k := Slot(lines, |lines|, line.created);
    assert lines == lines[..k] + lines[k..];
    MadeAtAround(lines[..k], line, lines[k..], created);
  }

  lemma PlacedDescends(lines: seq<HistoryLine>, line: HistoryLine)
    requires Descending(lines)
    ensures Descending(Placed(lines, line))
  {
    var k := Slot(lines, |lines|, line.created);
    var placed := Placed(lines, line);
    InsertedElements(lines, k, line);
    forall i, j | 0 <= i < j < |placed| ensures placed[i].created >= placed[j].created {
      assert k > 0 && i < k <= j ==> lines[i].created >= lines[k - 1].created >= line.created;
    }
  }

  lemma PlacedAddsOne(lines: seq<HistoryLine>, line: HistoryLine)
    ensures multiset(Placed(lines, line)) == multiset(lines) + multiset{line}
  {
    var k := Slot(lines, |lines|, line.created);
    assert lines == lines[..k] + lines[k..];
  }

  /** The list is newest first, holds every line once, and keeps lines of one moment in order. */
  lemma {:induction false} NewestFirstIsAStableSort(lines: seq<HistoryLine>, created: Stamp)
    ensures var sorted := NewestFirst(lines);
      && Descending(sorted)
      && multiset(sorted) == multiset(lines)
      && MadeAt(sorted, created) == MadeAt(lines, created)
  {
    if lines != [] {
      var n := |lines| - 1;
      assert lines[..n] + [lines[n]] == lines;
      NewestFirstIsAStableSort(lines[..n], created);
      PlacedDescends(NewestFirst(lines[..n]), lines[n]);
      PlacedAddsOne(NewestFirst(lines[..n]), lines[n]);
      PlacedKeepsMoments(NewestFirst(lines[..n]), lines[n], created);
      MadeAtConcat(NewestFirst(lines[..n]), [lines[n]], created);
      MadeAtConcat(lines[..n], [lines[n]], created);
    }
  }

  function TotalCount(lines: seq<HistoryLine>): nat {
    if lines == [] then 0 else TotalCount(lines[..|lines| - 1]) + lines[|lines| - 1].count
  }

  function TotalUsed(lines: seq<HistoryLine>): nat {
    if lines == [] then 0 else TotalUsed(lines[..|lines| - 1]) + lines[|lines| - 1].used
  }

  lemma {:induction false} TotalsConcat(a: seq<HistoryLine>, b: seq<HistoryLine>)
    ensures TotalCount(a + b) == TotalCount(a) + TotalCount(b)
    ensures TotalUsed(a + b) == TotalUsed(a) + TotalUsed(b)
  {
    if b == [] {
      assert a + b == a;
    } else {
      assert (a + b)[..|a + b| - 1] == a + b[..|b| - 1];
      TotalsConcat(a, b[..|b| - 1]);
    }
  }

  lemma TotalsAround(a: seq<HistoryLine>, line: HistoryLine, b: seq<HistoryLine>)
    ensures TotalCount(a + [line] + b) == TotalCount(a + b) + line.count
    ensures TotalUsed(a + [line] + b) == TotalUsed(a + b) + line.used
  {
    TotalsConcat(a + [line], b);
    TotalsConcat(a, [line]);
    TotalsConcat(a, b);
    assert [line][..0] == [];
  }

  lemma PlacedAddsToTotals(lines: seq<HistoryLine>, line: HistoryLine)
    ensures TotalCount(Placed(lines, line)) == TotalCount(lines) + line.count
    ensures TotalUsed(Placed(lines, line)) == TotalUsed(lines) + line.used
  {
    var k := Slot(lines, |lines|, line.created);
    assert lines == lines[..k] + lines[k..];
    TotalsAround(lines[..k], line, lines[k..]);
  }

  lemma {:induction false} SortingKeepsTotals(lines: seq<HistoryLine>)
    ensures TotalCount(NewestFirst(lines)) == TotalCount(lines)
    ensures TotalUsed(NewestFirst(lines)) == TotalUsed(lines)
  {
    if lines != [] {
      SortingKeepsTotals(lines[..|lines| - 1]);
      PlacedAddsToTotals(NewestFirst(lines[..|lines| - 1]), lines[|lines| - 1]);
    }
  }

  function DeadRows(rows: seq<TokenRow>, now: int): seq<TokenRow> {
    if rows == [] then []
    else
      var dead := DeadRows(rows[..|rows| - 1], now);
      if Dead(rows[|rows| - 1], now) then dead + [rows[|rows| - 1]] else dead
  }

  lemma AbsorbAddsOne(lines: seq<HistoryLine>, t: TokenRow, now: int)
    requires Dead(t, now)
    ensures TotalCount(Absorb(lines, t, now)) == TotalCount(lines) + 1
    ensures TotalUsed(Absorb(lines, t, now)) == TotalUsed(lines) + if t.lastUsedAt.Some? then 1 else 0
  {
    var lines' := Absorb(lines, t, now);
    if |lines'| > |lines| {
      assert lines'[..|lines|] == lines;
    } else {
      var k := FindRun(lines, RunKey(StateOf(t, now), t.name));
      assert lines == lines[..k] + [lines[k]] + lines[k + 1..];
      assert lines' == lines[..k] + [lines'[k]] + lines[k + 1..];
      TotalsAround(lines[..k], lines[k], lines[k + 1..]);
      TotalsAround(lines[..k], lines'[k], lines[k + 1..]);
    }
  }

  lemma {:induction false} GroupingKeepsTotals(rows: seq<TokenRow>, now: int)
    ensures TotalCount(Grouped(rows, now)) == |DeadRows(rows, now)|
    ensures TotalUsed(Grouped(rows, now)) == |EverUsed(DeadRows(rows, now))|
  {
    if rows != [] {
      var n := |rows| - 1;
      GroupingKeepsTotals(rows[..n], now);
      if Dead(rows[n], now) {
        AbsorbAddsOne(Grouped(rows[..n], now), rows[n], now);
        assert DeadRows(rows, now)[..|DeadRows(rows[..n], now)|] == DeadRows(rows[..n], now);
      }
    }
  }

  /** The history counts every dead credential once and every one ever used once, shows none that
      is live, and is newest first. */
  lemma HistoryConserves(rows: seq<TokenRow>, now: int)
    ensures var history := History(rows, now);
      && TotalCount(history) == |DeadRows(rows, now)|
      && TotalUsed(history) == |EverUsed(DeadRows(rows, now))|
      && Descending(history)
      && forall line :: line in history ==> !line.state.Live?
  {
    var lines, history := Grouped(rows, now), History(rows, now);
    GroupingKeepsTotals(rows, now);
    SortingKeepsTotals(lines);
    NewestFirstIsAStableSort(lines, 0);
    LinesStandForTheDead(rows, now);
    forall line | line in history ensures !line.state.Live? {
      assert line in multiset(history);
      var k :| 0 <= k < |lines| && lines[k] == line;
      assert LineStands(lines, k, rows, now);
    }
  }
}
