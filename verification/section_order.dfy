/**
 The order of a page's sections, said without the algorithm that computes it.

 A move records an adjacency: `id` goes after `after`, or first when `after` is absent. The last
 valid move of an id is its anchor; anchors that form a cycle are dropped together. A list shows
 the sections rightly when each entry fits after the ones before it, and only one list does.
 */
module SectionOrder {
  import opened Options

  /** A section's identifier. */
  datatype Id = Id(text: string)

  datatype Move = Move(id: Id, after: Option<Id>)

  type Anchors = map<Id, Option<Id>>

  predicate Distinct(s: seq<Id>) {
    forall i, j :: 0 <= i < j < |s| ==> s[i] != s[j]
  }

  predicate SameIds(s: seq<Id>, t: seq<Id>) {
    (forall x :: x in s ==> x in t) && (forall x :: x in t ==> x in s)
  }

  // ---------------------------------------------------------------------------
  // Recorded anchors
  // ---------------------------------------------------------------------------

  /** A move counts only between two different sections that exist. */
  predicate Counts(base: seq<Id>, m: Move) {
    m.id in base && m.after != Some(m.id) && (m.after.Some? ==> m.after.value in base)
  }

  /** The index of the last move that counts for `x`, or -1. */
  function LastMove(base: seq<Id>, moves: seq<Move>, x: Id): (i: int)
    ensures -1 <= i < |moves|
    ensures i >= 0 ==> moves[i].id == x && Counts(base, moves[i])
  {
    if moves == [] then -1
    else
      var n := |moves| - 1;
      if moves[n].id == x && Counts(base, moves[n]) then n else LastMove(base, moves[..n], x)
  }

  function Recorded(base: seq<Id>, moves: seq<Move>): (r: Anchors)
    ensures forall x :: x in r <==> x in base && LastMove(base, moves, x) >= 0
    ensures forall x :: x in r && r[x].Some? ==> r[x].value in base && r[x].value != x
  {
    map x | x in base && LastMove(base, moves, x) >= 0 :: moves[LastMove(base, moves, x)].after
  }

  /** Later moves override earlier ones. */
  lemma {:induction false} LastMoveOfBoth(base: seq<Id>, earlier: seq<Move>, later: seq<Move>, x: Id)
    ensures LastMove(base, earlier + later, x) ==
      if LastMove(base, later, x) >= 0 then |earlier| + LastMove(base, later, x) else LastMove(base, earlier, x)
  {
    if later == [] {
      assert earlier + later == earlier;
    } else {
      var n := |later| - 1;
      assert (earlier + later)[..|earlier| + n] == earlier + later[..n];
      LastMoveOfBoth(base, earlier, later[..n], x);
    }
  }

  // ---------------------------------------------------------------------------
  // Following anchors
  // ---------------------------------------------------------------------------

  /** The section reached from `x` by following `n` anchors, if there are that many. */
  ghost function Walk(a: Anchors, x: Id, n: nat): Option<Id>
    decreases n
  {
    if n == 0 then Some(x)
    else if x in a && a[x].Some? then Walk(a, a[x].value, n - 1)
    else None
  }

  ghost predicate Reaches(a: Anchors, x: Id, y: Id) {
    exists n: nat :: Walk(a, x, n) == Some(y)
  }

  ghost predicate OnCycle(a: Anchors, x: Id) {
    exists n: nat :: n > 0 && Walk(a, x, n) == Some(x)
  }

  ghost predicate Acyclic(a: Anchors) {
    forall x :: !OnCycle(a, x)
  }

  /** The anchors that remain once every cycle is dropped as a unit. */
  ghost function WithoutCycles(a: Anchors): Anchors {
    map x | x in a && !OnCycle(a, x) :: a[x]
  }

  lemma {:induction false} WalkAdds(a: Anchors, x: Id, m: nat, n: nat)
    requires Walk(a, x, m).Some?
    ensures Walk(a, x, m + n) == Walk(a, Walk(a, x, m).value, n)
    decreases m
  {
    if m > 0 { WalkAdds(a, a[x].value, m - 1, n); }
  }

  lemma ReachesFurther(a: Anchors, x: Id, y: Id, z: Id)
    requires Reaches(a, x, y) && Reaches(a, y, z)
    ensures Reaches(a, x, z)
  {
    var m: nat :| Walk(a, x, m) == Some(y);
    var n: nat :| Walk(a, y, n) == Some(z);
    WalkAdds(a, x, m, n);
  }

  lemma StepReaches(a: Anchors, x: Id)
    ensures Reaches(a, x, x)
    ensures x in a && a[x].Some? ==> Reaches(a, x, a[x].value)
  {
    assert Walk(a, x, 0) == Some(x);
    if x in a && a[x].Some? { assert Walk(a, x, 1) == Walk(a, a[x].value, 0); }
  }

  /** What reaches another section reaches it through its own anchor. */
  lemma ReachesThroughAnchor(a: Anchors, x: Id, y: Id)
    requires Reaches(a, x, y) && x != y
    ensures x in a && a[x].Some? && Reaches(a, a[x].value, y)
  {
    var n: nat :| Walk(a, x, n) == Some(y);
    assert n > 0 && Walk(a, a[x].value, n - 1) == Some(y);
  }

  lemma MutualReachIsCycle(a: Anchors, x: Id, y: Id)
    requires Reaches(a, x, y) && Reaches(a, y, x) && x != y
    ensures OnCycle(a, x)
  {
    var m: nat :| Walk(a, x, m) == Some(y);
    var n: nat :| Walk(a, y, n) == Some(x);
    WalkAdds(a, x, m, n);
    assert m + n > 0 && Walk(a, x, m + n) == Some(x);
  }

  /** The next section of one on a cycle is on a cycle. */
  lemma CycleGoesOn(a: Anchors, x: Id)
    requires OnCycle(a, x)
    ensures x in a && a[x].Some? && OnCycle(a, a[x].value)
  {
    var n: nat :| n > 0 && Walk(a, x, n) == Some(x);
    WalkAdds(a, a[x].value, n - 1, 1);
    assert Walk(a, x, 1) == Walk(a, a[x].value, 0) == Some(a[x].value);
  }

  /** A walk among fewer anchors is a walk among more. */
  lemma {:induction false} WalkInMore(a: Anchors, b: Anchors, x: Id, n: nat)
    requires forall z :: z in a ==> z in b && b[z] == a[z]
    requires Walk(a, x, n).Some?
    ensures Walk(b, x, n) == Walk(a, x, n)
    decreases n
  {
    if n > 0 { WalkInMore(a, b, a[x].value, n - 1); }
  }

  /** Dropping every cycle leaves none. */
  lemma WithoutCyclesIsAcyclic(a: Anchors)
    ensures Acyclic(WithoutCycles(a))
  {
    var b := WithoutCycles(a);
    forall x ensures !OnCycle(b, x) {
      if OnCycle(b, x) {
        var n: nat :| n > 0 && Walk(b, x, n) == Some(x);
        WalkInMore(b, a, x, n);
        assert x in b && OnCycle(a, x);
      }
    }
  }

  // ---------------------------------------------------------------------------
  // Lists that show the sections rightly
  // ---------------------------------------------------------------------------

  /** The page: its sections in their base order, and the moves in the order they were made. */
  datatype Page = Page(base: seq<Id>, moves: seq<Move>)

  ghost function Kept(p: Page): Anchors {
    WithoutCycles(Recorded(p.base, p.moves))
  }

  function Priority(p: Page, x: Id): int {
    LastMove(p.base, p.moves, x)
  }

  function IndexOf(s: seq<Id>, x: Id): (i: int)
    ensures x in s <==> i < |s|
    ensures 0 <= i <= |s| && (i < |s| ==> s[i] == x)
    ensures forall j :: 0 <= j < i ==> s[j] != x
  {
    if s == [] || s[0] == x then 0 else 1 + IndexOf(s[1..], x)
  }

  /** Whether `x` may come right after the sections in `before`:
      a section with an anchor follows it with only sections that hang off that anchor in between;
      sections with the same anchor keep the order of their last moves;
      sections moved to the front come before all that were never moved, with what hangs off them;
      sections never moved keep their base order. */
  ghost predicate Fits(p: Page, before: seq<Id>, x: Id) {
    var a := Kept(p);
    && x !in before
    && (x in a ==>
         && (forall s :: s in before && s in a && a[s] == a[x] ==> Priority(p, s) < Priority(p, x))
         && match a[x]
            case Some(y) =>
              && y in before
              && (forall i, j :: 0 <= i < j < |before| && before[i] == y ==> Reaches(a, before[j], y))
            case None =>
              forall u :: u in before ==> u in a)
    && (x !in a ==> forall u :: u in before && u !in a ==> IndexOf(p.base, u) < IndexOf(p.base, x))
  }

  ghost predicate FitsIn(p: Page, shown: seq<Id>, i: nat)
    requires i < |shown|
  {
    Fits(p, shown[..i], shown[i])
  }

  ghost predicate FitsThroughout(p: Page, shown: seq<Id>) {
    forall i :: 0 <= i < |shown| ==> FitsIn(p, shown, i)
  }

  /** `shown` is the page's list of sections. */
  ghost predicate Shows(p: Page, shown: seq<Id>) {
    SameIds(p.base, shown) && FitsThroughout(p, shown)
  }

  lemma LastMoveIsOwn(base: seq<Id>, moves: seq<Move>, x: Id, y: Id)
    ensures LastMove(base, moves, x) == LastMove(base, moves, y) >= 0 ==> x == y
  {
  }

  /** If two sections fit in the same place, each in a list where the other comes later, and one of
      them follows an anchor, then both follow that anchor. */
  lemma SharedAnchor(p: Page, before: seq<Id>, x: Id, y: Id, more: seq<Id>, others: seq<Id>)
    requires x != y && x in Kept(p) && Kept(p)[x].Some?
    requires Fits(p, before, x) && Fits(p, before, y)
    requires before + [x] <= more && Fits(p, more, y)
    requires before + [y] <= others && Fits(p, others, x)
    ensures y in Kept(p) && Kept(p)[y] == Kept(p)[x]
  {
    var a := Kept(p);
    WithoutCyclesIsAcyclic(Recorded(p.base, p.moves));
    var parent := a[x].value;
    var i := IndexOf(before, parent);
    assert others[i] == parent && others[|before|] == y && Reaches(a, y, parent);
    ReachesThroughAnchor(a, y, parent);
    var other := a[y].value;
    var j := IndexOf(before, other);
    assert more[j] == other && more[|before|] == x && Reaches(a, x, other);
    ReachesThroughAnchor(a, x, other);
    if parent != other { MutualReachIsCycle(a, parent, other); }
  }

  /** Two sections that fit in the same place of two lists of the same page are the same. */
  lemma OnlyOneFits(p: Page, before: seq<Id>, x: Id, y: Id, more: seq<Id>, others: seq<Id>)
    requires x in p.base && y in p.base
    requires Fits(p, before, x) && Fits(p, before, y)
    requires x != y ==> before + [x] <= more && Fits(p, more, y)
    requires x != y ==> before + [y] <= others && Fits(p, others, x)
    ensures x == y
  {
    if x != y {
      var a := Kept(p);
      assert more[|before|] == x && others[|before|] == y;
      if x in a && a[x].Some? {
        SharedAnchor(p, before, x, y, more, others);
      } else if y in a && a[y].Some? {
        SharedAnchor(p, before, y, x, others, more);
      }
    }
  }

  /** Where a section not among the first `k` is shown. */
  lemma PlaceOf(p: Page, shown: seq<Id>, k: nat, x: Id) returns (q: nat)
    requires Shows(p, shown) && k <= |shown| && x in p.base && x !in shown[..k]
    ensures k <= q < |shown| && shown[q] == x && Fits(p, shown[..q], x)
  {
    assert x in shown;
    assert forall i :: 0 <= i < k ==> shown[i] == shown[..k][i];
    q := IndexOf(shown, x);
    assert FitsIn(p, shown, q);
  }

  lemma FitsAt(p: Page, shown: seq<Id>, k: nat)
    requires Shows(p, shown) && k < |shown|
    ensures shown[k] in p.base && Fits(p, shown[..k], shown[k])
  {
    assert shown[k] in shown && FitsIn(p, shown, k);
  }

  lemma NextIsCommon(p: Page, shown: seq<Id>, other: seq<Id>, k: nat)
    requires Shows(p, shown) && Shows(p, other) && k < |shown| && k <= |other| && shown[..k] == other[..k]
    ensures k < |other| && shown[k] == other[k]
  {
    var before := shown[..k];
    FitsAt(p, shown, k);
    var q := PlaceOf(p, other, k, shown[k]);
    FitsAt(p, other, k);
    var r := PlaceOf(p, shown, k, other[k]);
    if shown[k] != other[k] {
      Extends(shown, k, r);
      Extends(other, k, q);
    }
    OnlyOneFits(p, before, shown[k], other[k], shown[..r], other[..q]);
  }

  lemma Extends(s: seq<Id>, k: nat, r: nat)
    requires k < r <= |s|
    ensures s[..k] + [s[k]] <= s[..r]
  {
  }

  lemma {:induction false} CommonPrefix(p: Page, shown: seq<Id>, other: seq<Id>, k: nat)
    requires Shows(p, shown) && Shows(p, other) && k <= |shown|
    ensures k <= |other| && shown[..k] == other[..k]
  {
    if k > 0 {
      CommonPrefix(p, shown, other, k - 1);
      NextIsCommon(p, shown, other, k - 1);
      assert shown[..k] == shown[..k - 1] + [shown[k - 1]] && other[..k] == other[..k - 1] + [other[k - 1]];
    }
  }

  /** At most one list shows a page. */
  lemma ShownListIsUnique(p: Page, shown: seq<Id>, other: seq<Id>)
    requires Shows(p, shown) && Shows(p, other)
    ensures shown == other
  {
    CommonPrefix(p, shown, other, |shown|);
    CommonPrefix(p, other, shown, |other|);
    assert shown == shown[..|shown|] == other[..|shown|];
  }

  /** Of two sections shown after the same anchor, the later one was moved there later. */
  lemma LaterSiblingHasLaterMove(p: Page, shown: seq<Id>, k: nat, i: nat)
    requires Shows(p, shown) && k < i < |shown|
    requires shown[k] in Kept(p) && shown[i] in Kept(p) && Kept(p)[shown[k]] == Kept(p)[shown[i]]
    ensures Priority(p, shown[k]) < Priority(p, shown[i])
  {
    assert FitsIn(p, shown, i) && shown[..i][k] == shown[k];
  }
}
