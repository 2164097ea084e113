/** The order resolver: anchors by last write, cycles removed as a unit, depth-first emission. */
module SectionResolver {
  import opened Options
  import opened SectionOrder

  // ---------------------------------------------------------------------------
  // Anchors and priorities
  // ---------------------------------------------------------------------------

  /** Anchors and priorities as the first `n` moves leave them. */
  ghost predicate RecordsUpTo(base: seq<Id>, moves: seq<Move>, n: nat, anchors: Anchors, priority: map<Id, int>)
    requires n <= |moves|
  {
    && priority.Keys == anchors.Keys
    && forall x :: RecordsOne(base, moves, n, anchors, priority, x)
  }

  ghost predicate RecordsOne(base: seq<Id>, moves: seq<Move>, n: nat, anchors: Anchors, priority: map<Id, int>, x: Id)
    requires n <= |moves|
  {
    var last := LastMove(base, moves[..n], x);
    && (x in anchors <==> x in base && last >= 0)
    && (x in anchors ==> x in priority && priority[x] == last && anchors[x] == moves[last].after)
  }

  lemma OneMoreMove(base: seq<Id>, moves: seq<Move>, i: nat, x: Id)
    requires i < |moves|
    ensures LastMove(base, moves[..i + 1], x) ==
      if moves[i].id == x && Counts(base, moves[i]) then i else LastMove(base, moves[..i], x)
  {
    assert moves[..i + 1][..i] == moves[..i];
  }

  lemma RecordingGoesOn(base: seq<Id>, moves: seq<Move>, i: nat, anchors: Anchors, priority: map<Id, int>)
    requires i < |moves| && RecordsUpTo(base, moves, i, anchors, priority)
    ensures
      if Counts(base, moves[i])
      then RecordsUpTo(base, moves, i + 1, anchors[moves[i].id := moves[i].after], priority[moves[i].id := i])
      else RecordsUpTo(base, moves, i + 1, anchors, priority)
  {
    var counts := Counts(base, moves[i]);
    var more := if counts then anchors[moves[i].id := moves[i].after] else anchors;
    var later := if counts then priority[moves[i].id := i] else priority;
    var n := i + 1;
    forall x ensures RecordsOne(base, moves, n, more, later, x) {
      assert RecordsOne(base, moves, i, anchors, priority, x);
      OneMoreMove(base, moves, i, x);
    }
  }

  lemma RecordingEnds(base: seq<Id>, moves: seq<Move>, anchors: Anchors, priority: map<Id, int>)
    requires RecordsUpTo(base, moves, |moves|, anchors, priority)
    ensures anchors == Recorded(base, moves)
    ensures forall x :: x in priority ==> priority[x] == LastMove(base, moves, x)
  {
    assert moves[..|moves|] == moves;
    forall x ensures x in anchors <==> x in Recorded(base, moves) {
      assert RecordsOne(base, moves, |moves|, anchors, priority, x);
    }
    forall x | x in anchors ensures anchors[x] == Recorded(base, moves)[x] && priority[x] == LastMove(base, moves, x) {
      assert RecordsOne(base, moves, |moves|, anchors, priority, x);
    }
  }

  method RecordMoves(base: seq<Id>, moves: seq<Move>) returns (anchors: Anchors, priority: map<Id, int>)
    ensures anchors == Recorded(base, moves)
    ensures priority.Keys == anchors.Keys
    ensures forall x :: x in priority ==> priority[x] == LastMove(base, moves, x)
  {
    anchors, priority := map[], map[];
    for i := 0 to |moves|
      invariant RecordsUpTo(base, moves, i, anchors, priority)
    {
      var move := moves[i];
      RecordingGoesOn(base, moves, i, anchors, priority);
      if move.id !in base || move.after == Some(move.id) || (move.after.Some? && move.after.value !in base) {
        continue;
      }
      anchors := anchors[move.id := move.after];
      priority := priority[move.id := i];
    }
    RecordingEnds(base, moves, anchors, priority);
  }

  // ---------------------------------------------------------------------------
  // Cycles
  // ---------------------------------------------------------------------------

  /** `path` follows anchors, never meeting a section twice. */
  ghost predicate IsPath(a: Anchors, path: seq<Id>) {
    && Distinct(path)
    && (forall i :: 0 <= i < |path| ==> path[i] in a)
    && (forall i, j :: 0 <= i && j == i + 1 && j < |path| ==> a[path[i]] == Some(path[j]))
  }

  lemma PathGrows(a: Anchors, path: seq<Id>, next: Id)
    requires IsPath(a, path) && path != [] && a[path[|path| - 1]] == Some(next)
    requires next in a && next !in path
    ensures IsPath(a, path + [next])
  {
  }

  /** Following an anchor from inside `s` stays inside, as long as it meets sections with anchors. */
  ghost predicate Closed(a: Anchors, s: set<Id>) {
    forall x :: x in s ==> x in a && (a[x].Some? && a[x].value in a ==> a[x].value in s)
  }

  lemma {:induction false} ClosedWalk(a: Anchors, s: set<Id>, x: Id, n: nat)
    requires Closed(a, s) && x in s
    requires Walk(a, x, n).Some? && Walk(a, x, n).value in a
    ensures Walk(a, x, n).value in s
    decreases n
  {
    if n > 0 { ClosedWalk(a, s, a[x].value, n - 1); }
  }

  lemma CycleComesBack(a: Anchors, x: Id)
    requires OnCycle(a, x)
    ensures x in a && a[x].Some? && Reaches(a, a[x].value, x)
  {
    var n: nat :| n > 0 && Walk(a, x, n) == Some(x);
    assert Walk(a, a[x].value, n - 1) == Some(x);
  }

  lemma {:induction false} CycleFollowsPath(a: Anchors, path: seq<Id>, i: nat, j: nat)
    requires IsPath(a, path) && i <= j < |path| && OnCycle(a, path[i])
    ensures OnCycle(a, path[j])
    decreases j - i
  {
    if i < j {
      CycleGoesOn(a, path[i]);
      CycleFollowsPath(a, path, i + 1, j);
    }
  }

  lemma {:induction false} WalkAlongPath(a: Anchors, path: seq<Id>, i: nat, j: nat)
    requires IsPath(a, path) && i <= j < |path|
    ensures Walk(a, path[i], j - i) == Some(path[j])
    decreases j - i
  {
    if i < j { WalkAlongPath(a, path, i + 1, j); }
  }

  function Tail(path: seq<Id>, s: nat): (r: set<Id>)
    ensures forall j :: s <= j < |path| ==> path[j] in r
    ensures forall x :: x in r ==> exists j :: s <= j < |path| && path[j] == x
  {
    set j | s <= j < |path| :: path[j]
  }

  /** The sections of a path from position `s` on are closed together with `more`, if the last one
      leads back among them, into `more`, or nowhere. */
  lemma PathIsClosed(a: Anchors, path: seq<Id>, s: nat, more: set<Id>)
    requires IsPath(a, path) && Closed(a, more)
    requires path != [] ==>
      var end := a[path[|path| - 1]];
      end.None? || end.value !in a || end.value in more || end.value in Tail(path, s)
    ensures Closed(a, more + Tail(path, s))
  {
    forall x | x in Tail(path, s)
      ensures x in a && (a[x].Some? && a[x].value in a ==> a[x].value in more + Tail(path, s))
    {
      var i :| s <= i < |path| && path[i] == x;
      if i + 1 < |path| { assert a[path[i]] == Some(path[i + 1]); }
    }
  }

  /** A path whose last section points back at position `s` is on a cycle from there on, and only
      from there on. */
  lemma LassoIsCycle(a: Anchors, path: seq<Id>, s: nat)
    requires IsPath(a, path) && s < |path| && a[path[|path| - 1]] == Some(path[s])
    ensures forall i :: 0 <= i < |path| ==> (OnCycle(a, path[i]) <==> s <= i)
  {
    var last := |path| - 1;
    WalkAlongPath(a, path, s, last);
    WalkAdds(a, path[s], last - s, 1);
    assert Walk(a, path[last], 1) == Walk(a, path[s], 0);
    assert Walk(a, path[s], last - s + 1) == Some(path[s]);
    forall i | 0 <= i < |path| ensures OnCycle(a, path[i]) <==> s <= i {
      if s <= i {
        CycleFollowsPath(a, path, s, i);
      } else if OnCycle(a, path[i]) {
        CycleFollowsPath(a, path, i, s - 1);
        CycleComesBack(a, path[s - 1]);
        var n: nat :| Walk(a, path[s], n) == Some(path[s - 1]);
        var tail := Tail(path, s);
        assert path[s] in tail && path[s - 1] !in tail;
        PathIsClosed(a, path, s, {});
        ClosedWalk(a, tail, path[s], n);
      }
    }
  }

  /** A path that ends where nothing further has an anchor, or runs into closed territory, is not
      on a cycle anywhere. */
  lemma {:induction false} OpenPathIsNoCycle(a: Anchors, path: seq<Id>, finished: set<Id>)
    requires IsPath(a, path) && path != [] && Closed(a, finished)
    requires forall i :: 0 <= i < |path| ==> path[i] !in finished
    requires var end := a[path[|path| - 1]]; end.None? || end.value !in a || end.value in finished
    ensures forall i :: 0 <= i < |path| ==> !OnCycle(a, path[i])
  {
    var last := path[|path| - 1];
    forall i | 0 <= i < |path| ensures !OnCycle(a, path[i]) {
      if OnCycle(a, path[i]) {
        CycleFollowsPath(a, path, i, |path| - 1);
        CycleGoesOn(a, last);
        CycleComesBack(a, last);
        var n: nat :| Walk(a, a[last].value, n) == Some(last);
        var m: nat :| m > 0 && Walk(a, a[last].value, m) == Some(a[last].value);
        ClosedWalk(a, finished, a[last].value, n);
      }
    }
  }

  /** What is left of the anchors once the cycles among `finished` are gone. */
  ghost predicate Pruned(a: Anchors, kept: Anchors, finished: set<Id>) {
    && (forall x :: x in kept <==> x in a && !(x in finished && OnCycle(a, x)))
    && (forall x :: x in kept ==> kept[x] == a[x])
  }

  /** Each section of `path` with its position. */
  ghost predicate Numbered(positions: map<Id, nat>, path: seq<Id>) {
    && (forall x :: x in positions <==> x in path)
    && forall i :: 0 <= i < |path| ==> positions[path[i]] == i
  }

  lemma NumberedGrows(positions: map<Id, nat>, path: seq<Id>, x: Id)
    requires Numbered(positions, path) && x !in positions
    ensures Numbered(positions[x := |path|], path + [x])
  {
  }

  /** One walk of the cycle search. */
  method FollowFrom(ghost a: Anchors, anchors: Anchors, finished: set<Id>, id: Id)
    returns (kept: Anchors, done: set<Id>)
    requires Pruned(a, anchors, finished) && Closed(a, finished)
    ensures Pruned(a, kept, done) && Closed(a, done)
    ensures finished <= done && (id in a ==> id in done)
  {
    var path: seq<Id> := [];
    var positions: map<Id, nat> := map[];
    var current := Some(id);
    kept := anchors;
    while current.Some? && current.value in anchors && current.value !in finished
      invariant kept == anchors
      invariant IsPath(a, path)
      invariant forall i :: 0 <= i < |path| ==> path[i] in anchors && path[i] !in finished
      invariant current == if path == [] then Some(id) else a[path[|path| - 1]]
      invariant path != [] ==> path[0] == id
      invariant Numbered(positions, path)
      decreases anchors.Keys - positions.Keys
    {
      var x := current.value;
      if x in positions {
        var cyclic := Tail(path, positions[x]);
        kept := anchors - cyclic;
        done := finished + Tail(path, 0);
        CycleIsPruned(a, anchors, finished, path, positions[x]);
        return;
      }
      assert x in anchors.Keys - positions.Keys;
      NumberedGrows(positions, path, x);
      positions := positions[x := |path|];
      path := path + [x];
      current := anchors[x];
    }
    done := finished + Tail(path, 0);
    PathIsClosed(a, path, 0, finished);
    if path != [] {
      OpenPathIsNoCycle(a, path, finished);
    }
  }

  lemma CycleIsPruned(a: Anchors, anchors: Anchors, finished: set<Id>, path: seq<Id>, s: nat)
    requires Pruned(a, anchors, finished) && Closed(a, finished)
    requires IsPath(a, path) && s < |path| && a[path[|path| - 1]] == Some(path[s])
    requires forall i :: 0 <= i < |path| ==> path[i] in anchors && path[i] !in finished
    ensures Pruned(a, anchors - Tail(path, s), finished + Tail(path, 0)) && Closed(a, finished + Tail(path, 0))
  {
    LassoIsCycle(a, path, s);
    PathIsClosed(a, path, 0, finished);
    forall x ensures x in anchors - Tail(path, s) <==> x in a && !(x in finished + Tail(path, 0) && OnCycle(a, x)) {
      if x in Tail(path, 0) {
        var i :| 0 <= i < |path| && path[i] == x;
      }
    }
  }

  method BreakCycles(base: seq<Id>, anchors: Anchors) returns (kept: Anchors)
    requires forall x :: x in anchors ==> x in base
    ensures kept == WithoutCycles(anchors)
  {
    kept := anchors;
    var finished: set<Id> := {};
    for i := 0 to |base|
      invariant Pruned(anchors, kept, finished) && Closed(anchors, finished)
      invariant forall j :: 0 <= j < i && base[j] in anchors ==> base[j] in finished
    {
      kept, finished := FollowFrom(anchors, kept, finished, base[i]);
    }
  }

  // ---------------------------------------------------------------------------
  // Siblings
  // ---------------------------------------------------------------------------

  type Children = map<Option<Id>, seq<Id>>

  function ChildrenOf(children: Children, parent: Option<Id>): seq<Id> {
    if parent in children then children[parent] else []
  }

  /** `kids` are the sections of the page anchored to `parent`, in the order of their last moves. */
  ghost predicate AreSiblings(p: Page, a: Anchors, parent: Option<Id>, kids: seq<Id>) {
    && (forall x :: x in kids <==> x in p.base && x in a && a[x] == parent)
    && (forall i, j :: 0 <= i < j < |kids| ==> Priority(p, kids[i]) < Priority(p, kids[j]))
  }

  ghost predicate Ascending(ids: seq<Id>, priority: map<Id, int>) {
    && (forall x :: x in ids ==> x in priority)
    && forall i, j :: 0 <= i < j < |ids| ==> priority[ids[i]] < priority[ids[j]]
  }

  /** The list with `x` put before the first section of a later priority. */
  function Inserted(sorted: seq<Id>, x: Id, priority: map<Id, int>): (r: seq<Id>)
    requires Ascending(sorted, priority) && x in priority
    requires forall y :: y in sorted ==> priority[y] != priority[x]
    ensures Ascending(r, priority)
    ensures forall y :: y in r <==> y == x || y in sorted
  {
    if sorted == [] || priority[x] < priority[sorted[0]] then [x] + sorted
    else
      var rest := Inserted(sorted[1..], x, priority);
      assert forall i :: 1 <= i < |sorted| ==> sorted[1..][i - 1] == sorted[i];
      assert forall y :: y in rest ==> priority[sorted[0]] < priority[y];
      [sorted[0]] + rest
  }

  method SortByPriority(siblings: seq<Id>, priority: map<Id, int>) returns (sorted: seq<Id>)
    requires forall x :: x in siblings ==> x in priority
    requires forall i, j :: 0 <= i < j < |siblings| ==> priority[siblings[i]] != priority[siblings[j]]
    ensures SameIds(siblings, sorted) && Ascending(sorted, priority)
  {
    sorted := [];
    for k := 0 to |siblings|
      invariant Ascending(sorted, priority)
      invariant forall y :: y in sorted <==> y in siblings[..k]
    {
      assert siblings[..k + 1] == siblings[..k] + [siblings[k]];
      assert forall y :: y in siblings[..k] ==> exists i :: 0 <= i < k && siblings[i] == y;
      sorted := Inserted(sorted, siblings[k], priority);
    }
    assert siblings[..|siblings|] == siblings;
  }

  /** `kids` are the sections in `base` anchored to `parent`, each once. */
  ghost predicate AreGrouped(base: seq<Id>, a: Anchors, parent: Option<Id>, kids: seq<Id>) {
    Distinct(kids) && forall x :: x in kids <==> x in base && x in a && a[x] == parent
  }

  method GroupChildren(p: Page, anchors: Anchors, priority: map<Id, int>) returns (children: Children)
    requires Distinct(p.base)
    requires forall x :: x in anchors ==> x in p.base && x in priority && priority[x] == Priority(p, x) >= 0
    ensures forall parent :: AreSiblings(p, anchors, parent, ChildrenOf(children, parent))
  {
    children := map[];
    for i := 0 to |p.base|
      invariant forall parent :: AreGrouped(p.base[..i], anchors, parent, ChildrenOf(children, parent))
    {
      var id := p.base[i];
      assert p.base[..i + 1] == p.base[..i] + [id];
      if id in anchors {
        var siblings := ChildrenOf(children, anchors[id]);
        assert AreGrouped(p.base[..i], anchors, anchors[id], siblings);
        ghost var was := children;
        children := children[anchors[id] := siblings + [id]];
        forall parent ensures AreGrouped(p.base[..i + 1], anchors, parent, ChildrenOf(children, parent)) {
          assert AreGrouped(p.base[..i], anchors, parent, ChildrenOf(was, parent));
        }
      } else {
        forall parent ensures AreGrouped(p.base[..i + 1], anchors, parent, ChildrenOf(children, parent)) {
          assert AreGrouped(p.base[..i], anchors, parent, ChildrenOf(children, parent));
        }
      }
    }
    assert p.base[..|p.base|] == p.base;
    children := SortAll(p, anchors, priority, children);
  }

  method SortAll(p: Page, anchors: Anchors, priority: map<Id, int>, grouped: Children) returns (children: Children)
    requires forall x :: x in anchors ==> x in priority && priority[x] == Priority(p, x) >= 0
    requires forall parent :: AreGrouped(p.base, anchors, parent, ChildrenOf(grouped, parent))
    ensures forall parent :: AreSiblings(p, anchors, parent, ChildrenOf(children, parent))
  {
    children := grouped;
    var left := children.Keys;
    while left != {}
      invariant left <= children.Keys == grouped.Keys
      invariant forall parent :: parent in left ==> children[parent] == grouped[parent]
      invariant forall parent :: parent in children && parent !in left ==>
        AreSiblings(p, anchors, parent, children[parent])
      decreases left
    {
      var parent :| parent in left;
      assert AreGrouped(p.base, anchors, parent, ChildrenOf(grouped, parent));
      DifferentPriorities(p, children[parent], priority);
      var sorted := SortByPriority(children[parent], priority);
      assert AreSiblings(p, anchors, parent, sorted) by {
        forall i, j | 0 <= i < j < |sorted| ensures Priority(p, sorted[i]) < Priority(p, sorted[j]) {
          assert sorted[i] in sorted && sorted[j] in sorted;
        }
      }
      children := children[parent := sorted];
      left := left - {parent};
    }
    forall parent ensures AreSiblings(p, anchors, parent, ChildrenOf(children, parent)) {
      assert AreGrouped(p.base, anchors, parent, ChildrenOf(grouped, parent));
    }
  }

  lemma DifferentPriorities(p: Page, siblings: seq<Id>, priority: map<Id, int>)
    requires Distinct(siblings)
    requires forall x :: x in siblings ==> x in priority && priority[x] == Priority(p, x) >= 0
    ensures forall i, j :: 0 <= i < j < |siblings| ==> priority[siblings[i]] != priority[siblings[j]]
  {
    forall i, j | 0 <= i < j < |siblings| ensures priority[siblings[i]] != priority[siblings[j]] {
      LastMoveIsOwn(p.base, p.moves, siblings[i], siblings[j]);
    }
  }

  // ---------------------------------------------------------------------------
  // Emission
  // ---------------------------------------------------------------------------

  function Visible(ids: seq<Id>, hidden: set<Id>): seq<Id> {
    if ids == [] then []
    else (if ids[0] in hidden then [] else [ids[0]]) + Visible(ids[1..], hidden)
  }

  lemma {:induction false} VisibleAppends(ids: seq<Id>, x: Id, hidden: set<Id>)
    ensures Visible(ids + [x], hidden) == Visible(ids, hidden) + if x in hidden then [] else [x]
  {
    if ids != [] {
      assert (ids + [x])[1..] == ids[1..] + [x];
      VisibleAppends(ids[1..], x, hidden);
    }
  }

  /** Everything that hangs off a section in `s` is in `all`. */
  ghost predicate HangersIn(p: Page, s: set<Id>, all: seq<Id>) {
    forall x :: x in p.base && x in Kept(p) && Kept(p)[x].Some? && Kept(p)[x].value in s ==> x in all
  }

  function Elements(s: seq<Id>): set<Id> {
    set x | x in s
  }

  lemma FittingListIsDistinct(p: Page, full: seq<Id>)
    requires FitsThroughout(p, full)
    ensures Distinct(full)
  {
    forall i, j | 0 <= i < j < |full| ensures full[i] != full[j] {
      assert FitsIn(p, full, j) && full[..j][i] == full[i];
    }
  }

  lemma FitsPrefix(p: Page, full: seq<Id>, k: nat)
    requires FitsThroughout(p, full) && k <= |full|
    ensures FitsThroughout(p, full[..k])
  {
    forall i | 0 <= i < k ensures FitsIn(p, full[..k], i) {
      assert full[..k][..i] == full[..i] && FitsIn(p, full, i);
    }
  }

  lemma OneMoreFits(p: Page, full: seq<Id>, x: Id)
    requires FitsThroughout(p, full) && Fits(p, full, x)
    ensures FitsThroughout(p, full + [x])
  {
    forall i | 0 <= i < |full + [x]| ensures FitsIn(p, full + [x], i) {
      assert (full + [x])[..i] == full[..i];
      if i < |full| { assert FitsIn(p, full, i); }
    }
  }

  lemma OneLess(base: seq<Id>, before: seq<Id>, id: Id)
    requires id in base && id !in before
    ensures Elements(base) - Elements(before + [id]) < Elements(base) - Elements(before)
  {
    assert id in Elements(base) - Elements(before);
    assert id !in Elements(base) - Elements(before + [id]);
  }

  lemma ParentComesFirst(p: Page, full: seq<Id>, x: Id)
    requires FitsThroughout(p, full) && x in full && x in Kept(p) && Kept(p)[x].Some?
    ensures Kept(p)[x].value in full
  {
    var i := IndexOf(full, x);
    assert FitsIn(p, full, i);
  }

  /** Nothing that hangs off a section not yet emitted has been emitted. */
  lemma KidsNotYet(p: Page, before: seq<Id>, id: Id, kids: seq<Id>)
    requires FitsThroughout(p, before) && id !in before && AreSiblings(p, Kept(p), Some(id), kids)
    ensures forall k :: 0 <= k < |kids| ==> kids[k] !in before + [id]
  {
    forall k | 0 <= k < |kids| ensures kids[k] !in before + [id] {
      assert kids[k] in kids;
      if kids[k] in before { ParentComesFirst(p, before, kids[k]); }
    }
  }

  /** `full` has grown from `before` by `id` and by part of what hangs off it. */
  ghost predicate InSubtree(p: Page, before: seq<Id>, id: Id, full: seq<Id>) {
    && FitsThroughout(p, full) && before + [id] <= full
    && (forall j :: |before| <= j < |full| ==> Reaches(Kept(p), full[j], id))
  }

  /** What emitting `id` does to the list: nothing if it is there already, and otherwise it adds
      exactly `id` and, after it, everything that hangs off it. */
  ghost predicate Emitted(p: Page, before: seq<Id>, id: Id, full: seq<Id>) {
    if id in before then full == before
    else InSubtree(p, before, id, full) && HangersIn(p, Elements(full[|before|..]), full)
  }

  lemma KidFits(p: Page, before: seq<Id>, id: Id, full: seq<Id>, kids: seq<Id>, i: nat)
    requires InSubtree(p, before, id, full) && AreSiblings(p, Kept(p), Some(id), kids) && i < |kids|
    requires forall k :: i <= k < |kids| ==> kids[k] !in full
    ensures kids[i] in p.base && Fits(p, full, kids[i])
  {
    assert kids[i] in kids;
    FittingListIsDistinct(p, full);
    assert full[|before|] == id;
  }

  lemma KidsStayOut(p: Page, sofar: seq<Id>, full: seq<Id>, id: Id, kids: seq<Id>, i: nat)
    requires AreSiblings(p, Kept(p), Some(id), kids) && i < |kids|
    requires forall k :: i <= k < |kids| ==> kids[k] !in sofar
    requires Emitted(p, sofar, kids[i], full)
    ensures forall k :: i < k < |kids| ==> kids[k] !in full
  {
    var a := Kept(p);
    WithoutCyclesIsAcyclic(Recorded(p.base, p.moves));
    assert forall j :: 0 <= j < |sofar| ==> full[j] == sofar[j];
    forall k | i < k < |kids| ensures kids[k] !in full {
      assert kids[k] in kids && kids[i] in kids;
      if kids[k] in full {
        var j :| 0 <= j < |full| && full[j] == kids[k];
        assert kids[k] != kids[i];
        ReachesThroughAnchor(a, kids[k], kids[i]);
        StepReaches(a, kids[i]);
        MutualReachIsCycle(a, id, kids[i]);
      }
    }
  }

  /** What hangs off a kid of `id` hangs off `id`. */
  lemma SubtreeGrows(p: Page, before: seq<Id>, id: Id, sofar: seq<Id>, full: seq<Id>, kid: Id)
    requires InSubtree(p, before, id, sofar) && kid !in sofar && Emitted(p, sofar, kid, full)
    requires kid in Kept(p) && Kept(p)[kid] == Some(id)
    requires HangersIn(p, Elements(sofar[|before| + 1..]), sofar)
    ensures InSubtree(p, before, id, full) && kid in full && sofar <= full
    ensures HangersIn(p, Elements(full[|before| + 1..]), full)
  {
    StepReaches(Kept(p), kid);
    forall j | |before| <= j < |full| ensures Reaches(Kept(p), full[j], id) {
      if j < |sofar| {
        assert full[j] == sofar[j];
      } else {
        ReachesFurther(Kept(p), full[j], kid, id);
      }
    }
    assert full[|sofar|] == kid;
    assert full[|before| + 1..] == sofar[|before| + 1..] + full[|sofar|..];
  }

  lemma SubtreeIsComplete(p: Page, before: seq<Id>, id: Id, full: seq<Id>, kids: seq<Id>)
    requires InSubtree(p, before, id, full) && AreSiblings(p, Kept(p), Some(id), kids)
    requires forall k :: 0 <= k < |kids| ==> kids[k] in full
    requires HangersIn(p, Elements(full[|before| + 1..]), full)
    ensures HangersIn(p, Elements(full[|before|..]), full)
  {
    assert full[|before|..] == [id] + full[|before| + 1..];
    assert forall x :: x in kids ==> x in full;
  }

  /** Emitting another section keeps the list complete: whatever hangs off what is in it is in it. */
  lemma CompleteGrows(p: Page, sofar: seq<Id>, id: Id, full: seq<Id>)
    requires HangersIn(p, Elements(sofar), sofar) && Emitted(p, sofar, id, full)
    ensures HangersIn(p, Elements(full), full) && id in full
    ensures forall x :: x in sofar ==> x in full
  {
    if id !in sofar {
      assert full == sofar + full[|sofar|..] && full[|sofar|] == id;
    }
  }

  /** Only `id` itself, of what emitting it adds, can be without an anchor or moved to the front. */
  lemma AddedHangOff(p: Page, sofar: seq<Id>, id: Id, full: seq<Id>, x: Id)
    requires Emitted(p, sofar, id, full) && x in full && x !in sofar && x != id
    ensures x in Kept(p) && Kept(p)[x].Some?
  {
    var j :| 0 <= j < |full| && full[j] == x;
    assert j >= |sofar| by {
      assert forall i :: 0 <= i < |sofar| ==> full[i] == sofar[i];
    }
    ReachesThroughAnchor(Kept(p), x, id);
  }

  /** The first `i` sections moved to the front have been emitted, and nothing else but what hangs
      off them. */
  ghost predicate FrontsDone(p: Page, full: seq<Id>, fronts: seq<Id>, i: nat) {
    && HangersIn(p, Elements(full), full)
    && (forall x :: x in full ==> x in Kept(p) && (Kept(p)[x].None? ==> IndexOf(fronts, x) < i))
    && (forall k :: 0 <= k < i && k < |fronts| ==> fronts[k] in full)
  }

  lemma FrontFits(p: Page, full: seq<Id>, fronts: seq<Id>, i: nat)
    requires AreSiblings(p, Kept(p), None, fronts) && i < |fronts| && FrontsDone(p, full, fronts, i)
    ensures fronts[i] in p.base && Fits(p, full, fronts[i])
  {
    assert fronts[i] in fronts;
    assert fronts[IndexOf(fronts, fronts[i])] == fronts[i];
  }

  lemma FrontEmitted(p: Page, sofar: seq<Id>, fronts: seq<Id>, i: nat, full: seq<Id>)
    requires AreSiblings(p, Kept(p), None, fronts) && i < |fronts| && FrontsDone(p, sofar, fronts, i)
    requires Emitted(p, sofar, fronts[i], full)
    ensures FrontsDone(p, full, fronts, i + 1)
  {
    assert fronts[i] in fronts;
    CompleteGrows(p, sofar, fronts[i], full);
    forall x | x in full ensures x in Kept(p) && (Kept(p)[x].None? ==> IndexOf(fronts, x) < i + 1) {
      if x !in sofar && x != fronts[i] { AddedHangOff(p, sofar, fronts[i], full, x); }
    }
  }

  lemma FrontsAllDone(p: Page, full: seq<Id>, fronts: seq<Id>)
    requires AreSiblings(p, Kept(p), None, fronts) && FrontsDone(p, full, fronts, |fronts|)
    ensures forall x :: x in p.base && x in Kept(p) && Kept(p)[x].None? ==> x in full
  {
    assert forall x :: x in p.base && x in Kept(p) && Kept(p)[x].None? ==> x in fronts;
  }

  lemma UnmovedFits(p: Page, full: seq<Id>, i: nat)
    requires Distinct(p.base) && i < |p.base| && p.base[i] !in Kept(p)
    requires forall u :: u in full && u !in Kept(p) ==> IndexOf(p.base, u) < i
    ensures Fits(p, full, p.base[i])
  {
    assert IndexOf(p.base, p.base[i]) == i;
  }

  /** Of the sections that were never moved, those of the first `i` are in the list and no others. */
  ghost predicate UnmovedUpTo(p: Page, full: seq<Id>, i: nat)
    requires i <= |p.base|
  {
    && (forall k :: 0 <= k < i && p.base[k] !in Kept(p) ==> p.base[k] in full)
    && (forall u :: u in full && u !in Kept(p) ==> IndexOf(p.base, u) < i)
  }

  lemma UnmovedEmitted(p: Page, sofar: seq<Id>, i: nat, full: seq<Id>)
    requires Distinct(p.base) && i < |p.base| && Emitted(p, sofar, p.base[i], full)
    requires UnmovedUpTo(p, sofar, i) && p.base[i] in full && forall x :: x in sofar ==> x in full
    ensures UnmovedUpTo(p, full, i + 1)
  {
    assert IndexOf(p.base, p.base[i]) == i;
    forall u | u in full && u !in Kept(p) ensures IndexOf(p.base, u) < i + 1 {
      if u !in sofar && u != p.base[i] { AddedHangOff(p, sofar, p.base[i], full, u); }
    }
  }

  lemma UnmovedAreIn(p: Page, full: seq<Id>)
    requires UnmovedUpTo(p, full, |p.base|)
    ensures forall x :: x in p.base && x !in Kept(p) ==> x in full
  {
  }

  /** Following anchors upward from a section not in a complete list that has every root never
      ends, and so comes back to itself. */
  lemma {:induction false} MissingMeansCycle(p: Page, full: seq<Id>, path: seq<Id>)
    requires HangersIn(p, Elements(full), full)
    requires forall x :: x in p.base && (x !in Kept(p) || Kept(p)[x].None?) ==> x in full
    requires IsPath(Kept(p), path) && path != []
    requires forall i :: 0 <= i < |path| ==> path[i] in p.base && path[i] !in full
    ensures exists x :: OnCycle(Kept(p), x)
    decreases Elements(p.base) - Elements(path)
  {
    var a, last := Kept(p), path[|path| - 1];
    assert last in p.base && last in a && a[last].Some?;
    var up := a[last].value;
    if up in path {
      LassoIsCycle(a, path, IndexOf(path, up));
      assert OnCycle(a, last);
    } else {
      assert up !in Elements(full) && up in p.base && up in a;
      PathGrows(a, path, up);
      OneLess(p.base, path, up);
      MissingMeansCycle(p, full, path + [up]);
    }
  }

  lemma NothingIsMissing(p: Page, full: seq<Id>)
    requires HangersIn(p, Elements(full), full)
    requires forall x :: x in p.base && (x !in Kept(p) || Kept(p)[x].None?) ==> x in full
    ensures forall x :: x in p.base ==> x in full
  {
    WithoutCyclesIsAcyclic(Recorded(p.base, p.moves));
    forall x | x in p.base ensures x in full {
      if x !in full { MissingMeansCycle(p, full, [x]); }
    }
  }

  /** What has been emitted so far. `full` is the list with the hidden sections in it. */
  class Emitter {
    const children: Children
    const hidden: set<Id>
    const page: Page
    var emitted: set<Id>
    var ordered: seq<Id>
    ghost var full: seq<Id>

    constructor (page: Page, children: Children, hidden: set<Id>)
      requires forall parent :: AreSiblings(page, Kept(page), parent, ChildrenOf(children, parent))
      ensures Valid() && full == [] && this.page == page && this.hidden == hidden
    {
      this.page, this.children, this.hidden := page, children, hidden;
      emitted, ordered, full := {}, [], [];
    }

    ghost predicate Valid()
      reads this
    {
      && (forall parent :: AreSiblings(page, Kept(page), parent, ChildrenOf(children, parent)))
      && emitted == Elements(full) && ordered == Visible(full, hidden)
      && (forall x :: x in full ==> x in page.base)
      && FitsThroughout(page, full)
    }

    /** Emits a section and everything that hangs off it. */
    method Emit(id: Id)
      requires Valid() && id in page.base
      requires id !in full ==> Fits(page, full, id)
      modifies `emitted, `ordered, `full
      ensures Valid() && Emitted(page, old(full), id, full)
      decreases Elements(page.base) - Elements(full), 0
    {
      if id in emitted {
        return;
      }
      ghost var before := full;
      Push(id);
      StepReaches(Kept(page), id);
      OneLess(page.base, before, id);
      EmitKids(before, id);
    }

    method EmitKids(ghost before: seq<Id>, id: Id)
      requires Valid() && full == before + [id] && id !in before && InSubtree(page, before, id, full)
      modifies `emitted, `ordered, `full
      ensures Valid() && Emitted(page, before, id, full)
      decreases Elements(page.base) - Elements(full), 2
    {
      var kids := ChildrenOf(children, Some(id));
      assert AreSiblings(page, Kept(page), Some(id), kids);
      FittingListIsDistinct(page, full);
      FitsPrefix(page, full, |before|);
      assert full[..|before|] == before && full[|before| + 1..] == [];
      KidsNotYet(page, before, id, kids);
      for i := 0 to |kids|
        invariant Valid() && old(full) <= full && InSubtree(page, before, id, full)
        invariant forall k :: 0 <= k < i ==> kids[k] in full
        invariant forall k :: i <= k < |kids| ==> kids[k] !in full
        invariant HangersIn(page, Elements(full[|before| + 1..]), full)
      {
        EmitKid(before, id, kids, i);
      }
      SubtreeIsComplete(page, before, id, full, kids);
    }

    method EmitKid(ghost before: seq<Id>, ghost id: Id, kids: seq<Id>, i: nat)
      requires Valid() && InSubtree(page, before, id, full) && AreSiblings(page, Kept(page), Some(id), kids)
      requires i < |kids| && forall k :: i <= k < |kids| ==> kids[k] !in full
      requires HangersIn(page, Elements(full[|before| + 1..]), full)
      modifies `emitted, `ordered, `full
      ensures Valid() && InSubtree(page, before, id, full) && old(full) <= full && kids[i] in full
      ensures forall k :: i < k < |kids| ==> kids[k] !in full
      ensures HangersIn(page, Elements(full[|before| + 1..]), full)
      decreases Elements(page.base) - Elements(full), 1
    {
      ghost var sofar := full;
      assert kids[i] in kids;
      KidFits(page, before, id, full, kids, i);
      Emit(kids[i]);
      KidsStayOut(page, sofar, full, id, kids, i);
      SubtreeGrows(page, before, id, sofar, full, kids[i]);
    }

    /** The sections moved to the front, in the order they were moved there. */
    method EmitFronts()
      requires Valid() && full == []
      modifies `emitted, `ordered, `full
      ensures Valid() && HangersIn(page, Elements(full), full)
      ensures forall x :: x in full ==> x in Kept(page)
      ensures forall x :: x in page.base && x in Kept(page) && Kept(page)[x].None? ==> x in full
    {
      var fronts := ChildrenOf(children, None);
      assert AreSiblings(page, Kept(page), None, fronts);
      for i := 0 to |fronts|
        invariant Valid() && FrontsDone(page, full, fronts, i)
      {
        ghost var sofar := full;
        FrontFits(page, full, fronts, i);
        Emit(fronts[i]);
        FrontEmitted(page, sofar, fronts, i, full);
      }
      FrontsAllDone(page, full, fronts);
    }

    /** The sections that were never moved, in base order. */
    method EmitUnmoved(anchors: Anchors)
      requires Valid() && HangersIn(page, Elements(full), full) && anchors == Kept(page) && Distinct(page.base)
      requires forall x :: x in full ==> x in Kept(page)
      modifies `emitted, `ordered, `full
      ensures Valid() && HangersIn(page, Elements(full), full)
      ensures forall x :: x in old(full) ==> x in full
      ensures forall x :: x in page.base && x !in anchors ==> x in full
    {
      for i := 0 to |page.base|
        invariant Valid() && HangersIn(page, Elements(full), full)
        invariant forall x :: x in old(full) ==> x in full
        invariant UnmovedUpTo(page, full, i)
      {
        if page.base[i] !in anchors {
          EmitUnmovedOne(i);
        }
      }
      UnmovedAreIn(page, full);
    }

    method EmitUnmovedOne(i: nat)
      requires Valid() && HangersIn(page, Elements(full), full) && Distinct(page.base)
      requires i < |page.base| && page.base[i] !in Kept(page) && UnmovedUpTo(page, full, i)
      modifies `emitted, `ordered, `full
      ensures Valid() && HangersIn(page, Elements(full), full)
      ensures UnmovedUpTo(page, full, i + 1) && forall x :: x in old(full) ==> x in full
    {
      ghost var sofar := full;
      UnmovedFits(page, full, i);
      Emit(page.base[i]);
      CompleteGrows(page, sofar, page.base[i], full);
      UnmovedEmitted(page, sofar, i, full);
    }

    method EmitAll(anchors: Anchors)
      requires Valid() && full == [] && anchors == Kept(page) && Distinct(page.base)
      modifies `emitted, `ordered, `full
      ensures Valid() && Shows(page, full)
    {
      EmitFronts();
      EmitUnmoved(anchors);
      NothingIsMissing(page, full);
      EmitRest();
    }

    /** The catch-all pass: everything has been emitted already. */
    method EmitRest()
      requires Valid() && forall x :: x in page.base ==> x in full
      modifies `emitted, `ordered, `full
      ensures Valid() && full == old(full)
    {
      for i := 0 to |page.base|
        invariant Valid() && full == old(full)
      {
        Emit(page.base[i]);
      }
    }

    method Push(id: Id)
      requires Valid() && id in page.base && Fits(page, full, id)
      modifies `emitted, `ordered, `full
      ensures Valid() && full == old(full) + [id]
    {
      emitted := emitted + {id};
      if id !in hidden {
        ordered := ordered + [id];
      }
      VisibleAppends(full, id, hidden);
      full := full + [id];
      OneMoreFits(page, old(full), id);
    }
  }

  // ---------------------------------------------------------------------------
  // The resolver
  // ---------------------------------------------------------------------------

  method Unique(ids: seq<Id>) returns (base: seq<Id>)
    ensures Distinct(base) && base == Deduplicated(ids)
  {
    base := [];
    for i := 0 to |ids|
      invariant Distinct(base) && base == Deduplicated(ids[..i])
    {
      assert ids[..i + 1][..i] == ids[..i];
      if ids[i] !in base {
        base := base + [ids[i]];
      }
    }
    assert ids[..|ids|] == ids;
  }

  /** The ids in order, each where it first occurs. */
  function Deduplicated(ids: seq<Id>): (r: seq<Id>)
    ensures SameIds(ids, r)
  {
    if ids == [] then []
    else
      var rest := Deduplicated(ids[..|ids| - 1]);
      var last := ids[|ids| - 1];
      assert ids == ids[..|ids| - 1] + [last];
      if last in rest then rest else rest + [last]
  }

  function PageOf(defaultIds: seq<Id>, moves: seq<Move>, customIds: seq<Id>): Page {
    Page(Deduplicated(defaultIds + customIds), moves)
  }

  /** Resolves a page: there is a list that shows it, and the result is that list without the
      hidden sections. */
  method ResolveOrder(defaultIds: seq<Id>, moves: seq<Move>, customIds: seq<Id>, hidden: seq<Id>)
    returns (ordered: seq<Id>)
    ensures exists full ::
      Shows(PageOf(defaultIds, moves, customIds), full) && ordered == Visible(full, Elements(hidden))
    ensures hidden == [] ==> Shows(PageOf(defaultIds, moves, customIds), ordered)
  {
    var base := Unique(defaultIds + customIds);
    var page := Page(base, moves);
    var recorded, priority := RecordMoves(base, moves);
    var anchors := BreakCycles(base, recorded);
    var children := GroupChildren(page, anchors, priority);
    var emitter := new Emitter(page, children, Elements(hidden));
    emitter.EmitAll(anchors);
    ordered := emitter.ordered;
    if hidden == [] { AllVisible(emitter.full, Elements(hidden)); }
  }

  lemma {:induction false} AllVisible(ids: seq<Id>, hidden: set<Id>)
    requires hidden == {}
    ensures Visible(ids, hidden) == ids
  {
    if ids != [] {
      AllVisible(ids[1..], hidden);
    }
  }
}
