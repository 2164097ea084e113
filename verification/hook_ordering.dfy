/** The install-order check of a rendered chart, over documents already parsed. */
module HookOrdering {
  /** One document of the rendered chart. */
  datatype Doc = Doc(name: string, kind: string, hook: bool, weight: int, secretRefs: seq<string>,
    accountRefs: seq<string>)

  const RUNS_A_POD := {"Job", "Pod", "CronJob", "Deployment", "StatefulSet", "DaemonSet"}

  datatype Problem =
    | SecretIsNoHook(reader: string, secret: string)
    | SecretIsTooLate(reader: string, secret: string)
    | AccountIsNoHook(reader: string, account: string)

  datatype Exit = Sound | Refused | NothingRead

  // ---------------------------------------------------------------------------
  // The manifest table
  // ---------------------------------------------------------------------------

  /** A dictionary: each name where it was first met, with what it was last given. */
  datatype Manifests = Manifests(names: seq<string>, entry: map<string, Doc>)

  ghost predicate Coherent(m: Manifests) {
    && (forall i, j :: 0 <= i < j < |m.names| ==> m.names[i] != m.names[j])
    && (forall name :: name in m.names <==> name in m.entry)
    && (forall name :: name in m.entry ==> m.entry[name].name == name)
  }

  function Put(m: Manifests, d: Doc): Manifests {
    Manifests(if d.name in m.entry then m.names else m.names + [d.name], m.entry[d.name := d])
  }

  function Table(docs: seq<Doc>): (m: Manifests)
    ensures Coherent(m)
  {
    if docs == [] then Manifests([], map[]) else Put(Table(docs[..|docs| - 1]), docs[|docs| - 1])
  }

  method Parse(docs: seq<Doc>) returns (m: Manifests)
    ensures m == Table(docs)
  {
    m := Manifests([], map[]);
    for i := 0 to |docs|
      invariant m == Table(docs[..i])
    {
      assert docs[..i + 1][..i] == docs[..i];
      m := Put(m, docs[i]);
    }
    assert docs[..|docs|] == docs;
  }

  /** The documents the table keeps. */
  function Kept(m: Manifests): seq<Doc>
    requires Coherent(m)
  {
    seq(|m.names|, i requires 0 <= i < |m.names| => assert m.names[i] in m.names; m.entry[m.names[i]])
  }

  predicate NamesAreUnique(docs: seq<Doc>) {
    forall i, j :: 0 <= i < j < |docs| ==> docs[i].name != docs[j].name
  }

  lemma {:induction false} TableHasEveryName(docs: seq<Doc>, name: string)
    ensures name in Table(docs).entry <==> exists i :: 0 <= i < |docs| && docs[i].name == name
  {
    if docs != [] {
      var n := |docs| - 1;
      TableHasEveryName(docs[..n], name);
      assert forall i :: 0 <= i < n ==> docs[..n][i] == docs[i];
      if i :| 0 <= i < |docs| && docs[i].name == name && i != n { assert docs[..n][i].name == name; }
    }
  }

  lemma KeptNamesAreUnique(m: Manifests)
    requires Coherent(m)
    ensures NamesAreUnique(Kept(m))
  {
    forall i | 0 <= i < |m.names| ensures Kept(m)[i].name == m.names[i] { assert m.names[i] in m.names; }
  }

  lemma PutNew(m: Manifests, d: Doc)
    requires Coherent(m) && d.name !in m.entry
    ensures Coherent(Put(m, d)) && Kept(Put(m, d)) == Kept(m) + [d]
  {
    var m' := Put(m, d);
    forall i | 0 <= i < |m.names| ensures m'.entry[m'.names[i]] == m.entry[m.names[i]] { assert m.names[i] in m.names; }
  }

  lemma {:induction false} UniqueNamesAreKept(docs: seq<Doc>)
    requires NamesAreUnique(docs)
    ensures Kept(Table(docs)) == docs
  {
    if docs != [] {
      var before, d := docs[..|docs| - 1], docs[|docs| - 1];
      assert docs == before + [d];
      UniqueNamesAreKept(before);
      TableHasEveryName(before, d.name);
      PutNew(Table(before), d);
    }
  }

  /** Nothing is lost in the table exactly when no two documents share a name, of whatever kinds. */
  lemma TableKeepsUniqueNames(docs: seq<Doc>)
    ensures Kept(Table(docs)) == docs <==> NamesAreUnique(docs)
  {
    KeptNamesAreUnique(Table(docs));
    if NamesAreUnique(docs) { UniqueNamesAreKept(docs); }
  }

  // ---------------------------------------------------------------------------
  // The check
  // ---------------------------------------------------------------------------

  predicate RunsAPodAsHook(r: Doc) {
    r.hook && r.kind in RUNS_A_POD
  }

  /** What a reader's reference to a target in the chart is charged with, if anything. */
  predicate SecretProblem(p: Problem, m: Manifests, r: Doc, ref: string) {
    && RunsAPodAsHook(r) && ref in r.secretRefs && ref in m.entry
    && (if !m.entry[ref].hook then p == SecretIsNoHook(r.name, ref)
        else m.entry[ref].weight >= r.weight && p == SecretIsTooLate(r.name, ref))
  }

  predicate AccountProblem(p: Problem, m: Manifests, r: Doc, ref: string) {
    && RunsAPodAsHook(r) && ref in r.accountRefs && ref in m.entry
    && !m.entry[ref].hook && p == AccountIsNoHook(r.name, ref)
  }

  predicate ProblemOf(p: Problem, m: Manifests, r: Doc) {
    (exists ref :: ref in r.secretRefs && SecretProblem(p, m, r, ref))
    || (exists ref :: ref in r.accountRefs && AccountProblem(p, m, r, ref))
  }

  predicate ProblemAmong(p: Problem, m: Manifests, readers: seq<Doc>) {
    exists i :: 0 <= i < |readers| && ProblemOf(p, m, readers[i])
  }

  method SecretProblems(m: Manifests, r: Doc) returns (problems: seq<Problem>)
    requires RunsAPodAsHook(r)
    ensures forall p :: p in problems <==> exists ref :: ref in r.secretRefs && SecretProblem(p, m, r, ref)
  {
    problems := [];
    var refs := set ref | ref in r.secretRefs;
    var done := {};
    while refs != {}
      invariant refs + done == set ref | ref in r.secretRefs
      invariant forall p :: p in problems <==> exists ref :: ref in done && SecretProblem(p, m, r, ref)
      decreases |refs|
    {
      var ref :| ref in refs;
      refs, done := refs - {ref}, done + {ref};
      if ref !in m.entry { continue; }
      var target := m.entry[ref];
      if !target.hook {
        problems := problems + [SecretIsNoHook(r.name, ref)];
      } else if target.weight >= r.weight {
        problems := problems + [SecretIsTooLate(r.name, ref)];
      }
    }
  }

  method AccountProblems(m: Manifests, r: Doc) returns (problems: seq<Problem>)
    requires RunsAPodAsHook(r)
    ensures forall p :: p in problems <==> exists ref :: ref in r.accountRefs && AccountProblem(p, m, r, ref)
  {
    problems := [];
    var refs := set ref | ref in r.accountRefs;
    var done := {};
    while refs != {}
      invariant refs + done == set ref | ref in r.accountRefs
      invariant forall p :: p in problems <==> exists ref :: ref in done && AccountProblem(p, m, r, ref)
      decreases |refs|
    {
      var ref :| ref in refs;
      refs, done := refs - {ref}, done + {ref};
      if ref in m.entry && !m.entry[ref].hook { problems := problems + [AccountIsNoHook(r.name, ref)]; }
    }
  }

  /** The problems of one manifest, none when it is no hook that runs a pod. */
  method ProblemsOf(m: Manifests, r: Doc) returns (problems: seq<Problem>)
    ensures forall p :: p in problems <==> ProblemOf(p, m, r)
  {
    if !r.hook || r.kind !in RUNS_A_POD { return []; }
    var secrets := SecretProblems(m, r);
    var accounts := AccountProblems(m, r);
    return secrets + accounts;
  }

  lemma OneMoreReader(p: Problem, m: Manifests, readers: seq<Doc>, r: Doc)
    ensures ProblemAmong(p, m, readers + [r]) <==> ProblemAmong(p, m, readers) || ProblemOf(p, m, r)
  {
    var all := readers + [r];
    assert forall i :: 0 <= i < |readers| ==> all[i] == readers[i];
    assert all[|readers|] == r;
  }

  method AllProblems(m: Manifests) returns (problems: seq<Problem>)
    requires Coherent(m)
    ensures forall p :: p in problems <==> ProblemAmong(p, m, Kept(m))
  {
    problems := [];
    ghost var kept := Kept(m);
    for i := 0 to |m.names|
      invariant forall p :: p in problems <==> ProblemAmong(p, m, kept[..i])
    {
      assert m.names[i] in m.names;
      var r := m.entry[m.names[i]];
      var more := ProblemsOf(m, r);
      problems := problems + more;
      assert kept[..i + 1] == kept[..i] + [r];
      forall p: Problem { OneMoreReader(p, m, kept[..i], r); }
    }
    assert kept[..|m.names|] == kept;
  }

  method Check(docs: seq<Doc>) returns (exit: Exit, problems: seq<Problem>)
    ensures forall p :: p in problems <==> ProblemAmong(p, Table(docs), Kept(Table(docs)))
    ensures exit == if docs == [] then NothingRead else if problems != [] then Refused else Sound
  {
    var m := Parse(docs);
    if docs != [] { TableHasEveryName(docs, docs[0].name); }
    if m.names == [] { return NothingRead, []; }
    problems := AllProblems(m);
    exit := if problems != [] then Refused else Sound;
  }

  // ---------------------------------------------------------------------------
  // What the cluster may do
  // ---------------------------------------------------------------------------

  /** Helm creates `a` before `b`: hooks before normal resources, and hooks by weight. */
  predicate Before(a: Doc, b: Doc) {
    a.hook && (!b.hook || a.weight < b.weight)
  }

  predicate InOrder(order: seq<nat>, docs: seq<Doc>) {
    && (forall p :: 0 <= p < |order| ==> order[p] < |docs|)
    && forall p, q :: 0 <= p < q < |order| ==> !Before(docs[order[q]], docs[order[p]])
  }

  function Everything(docs: seq<Doc>): seq<nat> {
    seq(|docs|, i => i)
  }

  /** A creation order: every document once, nothing before what must precede it, ties any way. */
  predicate Admissible(order: seq<nat>, docs: seq<Doc>) {
    InOrder(order, docs) && multiset(order) == multiset(Everything(docs))
  }

  const SECRET := "Secret"

  /** The pod that `r` runs as a hook cannot start before the secret `d` is there. */
  predicate Reads(r: Doc, d: Doc) {
    RunsAPodAsHook(r) && d.kind == SECRET && d.name in r.secretRefs
  }

  /** A secret reference of `r` bears the name of `d`, which is no secret: the secret it means is
      not in the chart. */
  predicate Borrows(r: Doc, d: Doc) {
    RunsAPodAsHook(r) && d.kind != SECRET && d.name in r.secretRefs
  }

  predicate EveryReadIsServed(order: seq<nat>, docs: seq<Doc>)
    requires InOrder(order, docs)
  {
    forall p, q :: 0 <= p < |order| && 0 <= q < |order| && Reads(docs[order[q]], docs[order[p]]) ==> p < q
  }

  /** Whatever order the cluster chooses, what a hook's pod reads is created before it. */
  ghost predicate Safe(docs: seq<Doc>) {
    forall order :: Admissible(order, docs) ==> EveryReadIsServed(order, docs)
  }

  predicate ReadsComeBefore(docs: seq<Doc>) {
    forall i, j :: 0 <= i < |docs| && 0 <= j < |docs| && Reads(docs[j], docs[i]) ==> Before(docs[i], docs[j])
  }

  /** Whatever bears the name of an operator's secret comes before the hooks that read the secret. */
  predicate NamesakesComeBefore(docs: seq<Doc>) {
    forall i, j :: 0 <= i < |docs| && 0 <= j < |docs| && Borrows(docs[j], docs[i]) ==> Before(docs[i], docs[j])
  }

  // Putting one document as early as the order of the others allows.

  function Slip(x: nat, order: seq<nat>, docs: seq<Doc>): seq<nat>
    requires x < |docs| && InOrder(order, docs)
  {
    if order == [] || !Before(docs[order[0]], docs[x]) then [x] + order
    else [order[0]] + Slip(x, order[1..], docs)
  }

  lemma {:induction false} SlippedAddsOne(x: nat, order: seq<nat>, docs: seq<Doc>)
    requires x < |docs| && InOrder(order, docs)
    ensures multiset(Slip(x, order, docs)) == multiset(order) + multiset{x}
  {
    if order != [] && Before(docs[order[0]], docs[x]) {
      SlippedAddsOne(x, order[1..], docs);
      assert order == [order[0]] + order[1..];
    }
  }

  /** A head that nothing later must precede keeps its place. */
  lemma HeadStaysFirst(x: nat, order: seq<nat>, slipped: seq<nat>, docs: seq<Doc>)
    requires x < |docs| && order != [] && InOrder(order, docs) && InOrder(slipped, docs)
    requires Before(docs[order[0]], docs[x])
    requires multiset(slipped) == multiset(order[1..]) + multiset{x}
    ensures InOrder([order[0]] + slipped, docs)
  {
    forall q | 0 <= q < |slipped| ensures !Before(docs[slipped[q]], docs[order[0]]) {
      assert slipped[q] in multiset(slipped);
      if slipped[q] != x {
        assert slipped[q] in order[1..];
        var k :| 1 <= k < |order| && order[k] == slipped[q];
      }
    }
  }

  lemma {:induction false} SlippedInOrder(x: nat, order: seq<nat>, docs: seq<Doc>)
    requires x < |docs| && InOrder(order, docs)
    ensures InOrder(Slip(x, order, docs), docs)
  {
    if order == [] {
    } else if !Before(docs[order[0]], docs[x]) {
      forall q | 0 <= q < |order| ensures !Before(docs[order[q]], docs[x]) {
        assert q > 0 ==> !Before(docs[order[q]], docs[order[0]]);
      }
    } else {
      SlippedInOrder(x, order[1..], docs);
      SlippedAddsOne(x, order[1..], docs);
      HeadStaysFirst(x, order, Slip(x, order[1..], docs), docs);
    }
  }

  lemma {:induction false} SlippedGoesFirst(x: nat, order: seq<nat>, docs: seq<Doc>) returns (p: nat)
    requires x < |docs| && InOrder(order, docs)
    ensures var order' := Slip(x, order, docs);
      && p < |order'| && order'[p] == x
      && forall k :: 0 <= k < p ==> order'[k] < |docs| && Before(docs[order'[k]], docs[x])
  {
    if order == [] || !Before(docs[order[0]], docs[x]) {
      p := 0;
    } else {
      var k := SlippedGoesFirst(x, order[1..], docs);
      p := k + 1;
    }
  }

  function Arranged(list: seq<nat>, docs: seq<Doc>): (order: seq<nat>)
    requires forall p :: 0 <= p < |list| ==> list[p] < |docs|
    ensures InOrder(order, docs)
    ensures multiset(order) == multiset(list)
  {
    if list == [] then []
    else
      assert list == [list[0]] + list[1..];
      SlippedInOrder(list[0], Arranged(list[1..], docs), docs);
      SlippedAddsOne(list[0], Arranged(list[1..], docs), docs);
      Slip(list[0], Arranged(list[1..], docs), docs)
  }

  lemma AllButOne(docs: seq<Doc>, j: nat)
    requires j < |docs|
    ensures var all := Everything(docs); multiset(all[..j] + all[j + 1..]) + multiset{j} == multiset(all)
  {
    var all := Everything(docs);
    assert all == all[..j] + [j] + all[j + 1..];
  }

  /** Unless `i` must come before `j`, some admissible order has `j` first. */
  lemma MayComeFirst(docs: seq<Doc>, i: nat, j: nat) returns (order: seq<nat>, p: nat, q: nat)
    requires i < |docs| && j < |docs| && i != j && !Before(docs[i], docs[j])
    ensures Admissible(order, docs)
    ensures p < q < |order| && order[p] == j && order[q] == i
  {
    var all := Everything(docs);
    var rest := Arranged(all[..j] + all[j + 1..], docs);
    AllButOne(docs, j);
    order := Slip(j, rest, docs);
    SlippedInOrder(j, rest, docs);
    SlippedAddsOne(j, rest, docs);
    p := SlippedGoesFirst(j, rest, docs);
    assert all[i] in multiset(order);
    q :| 0 <= q < |order| && order[q] == i;
  }

  /** A read that need not be served first is, in some order, not served. */
  lemma SomeOrderFails(docs: seq<Doc>, i: nat, j: nat)
    requires i < |docs| && j < |docs| && Reads(docs[j], docs[i]) && !Before(docs[i], docs[j])
    ensures !Safe(docs)
  {
    var order, p, q := MayComeFirst(docs, i, j);
    assert !EveryReadIsServed(order, docs);
  }

  /** The orders a cluster may choose are all safe exactly when every read is of an earlier hook. */
  lemma SafeExactlyWhenReadsComeBefore(docs: seq<Doc>)
    ensures Safe(docs) <==> ReadsComeBefore(docs)
  {
    forall i, j | 0 <= i < |docs| && 0 <= j < |docs| && Reads(docs[j], docs[i]) && !Before(docs[i], docs[j])
      ensures !Safe(docs)
    {
      SomeOrderFails(docs, i, j);
    }
  }

  // ---------------------------------------------------------------------------
  // What the check proves
  // ---------------------------------------------------------------------------

  ghost predicate NoSecretProblem(docs: seq<Doc>) {
    forall p: Problem :: ProblemAmong(p, Table(docs), Kept(Table(docs))) ==> p.AccountIsNoHook?
  }

  lemma {:induction false} ProblemFound(m: Manifests, i: nat, j: nat)
    requires Coherent(m) && i < |m.names| && j < |m.names|
    requires
      var kept := Kept(m);
      RunsAPodAsHook(kept[j]) && kept[i].name in kept[j].secretRefs && !Before(kept[i], kept[j])
    ensures exists p: Problem :: ProblemAmong(p, m, Kept(m)) && !p.AccountIsNoHook?
  {
    var kept, ref := Kept(m), Kept(m)[i].name;
    assert m.names[i] in m.names && m.entry[ref] == kept[i];
    var p := if !kept[i].hook then SecretIsNoHook(kept[j].name, ref) else SecretIsTooLate(kept[j].name, ref);
    assert SecretProblem(p, m, kept[j], ref) && ProblemOf(p, m, kept[j]) && ProblemAmong(p, m, kept);
  }

  lemma EntryIsKept(m: Manifests, name: string) returns (i: nat)
    requires Coherent(m) && name in m.entry
    ensures i < |m.names| && Kept(m)[i] == m.entry[name] && m.entry[name].name == name
  {
    assert name in m.names;
    i :| 0 <= i < |m.names| && m.names[i] == name;
  }

  lemma ProblemMeant(m: Manifests, p: Problem) returns (i: nat, j: nat)
    requires Coherent(m) && ProblemAmong(p, m, Kept(m)) && !p.AccountIsNoHook?
    ensures i < |m.names| && j < |m.names|
    ensures
      var kept := Kept(m);
      RunsAPodAsHook(kept[j]) && kept[i].name in kept[j].secretRefs && !Before(kept[i], kept[j])
  {
    var kept := Kept(m);
    j :| 0 <= j < |kept| && ProblemOf(p, m, kept[j]);
    var ref :| ref in kept[j].secretRefs && SecretProblem(p, m, kept[j], ref);
    i := EntryIsKept(m, ref);
  }

  /** For any documents at all, the check finds no secret problem exactly when the documents its
      table keeps are safe in every order, and so are the namesakes of secrets among them. */
  lemma CheckJudgesWhatItKeeps(docs: seq<Doc>)
    ensures var kept := Kept(Table(docs)); NoSecretProblem(docs) <==> Safe(kept) && NamesakesComeBefore(kept)
  {
    var m := Table(docs);
    var kept := Kept(m);
    SafeExactlyWhenReadsComeBefore(kept);
    forall i, j | 0 <= i < |kept| && 0 <= j < |kept|
      && (Reads(kept[j], kept[i]) || Borrows(kept[j], kept[i])) && !Before(kept[i], kept[j])
      ensures !NoSecretProblem(docs)
    {
      ProblemFound(m, i, j);
    }
    forall p: Problem | ProblemAmong(p, m, kept) && !p.AccountIsNoHook?
      ensures !(ReadsComeBefore(kept) && NamesakesComeBefore(kept))
    {
      var i, j := ProblemMeant(m, p);
      assert Reads(kept[j], kept[i]) || Borrows(kept[j], kept[i]);
    }
  }

  /** With unique names the check passes exactly the safe charts in which no other resource that
      bears the name of an operator's secret comes too late. */
  lemma CheckIsExact(docs: seq<Doc>)
    requires NamesAreUnique(docs)
    ensures NoSecretProblem(docs) <==> Safe(docs) && NamesakesComeBefore(docs)
  {
    CheckJudgesWhatItKeeps(docs);
    TableKeepsUniqueNames(docs);
  }

  /** A chart that reads no secret of its own is refused for a deployment of the secret's name. */
  lemma NamesakeIsTakenForASecret()
    ensures
      var docs := [Doc("app", "Deployment", false, 0, [], []), Doc("migrate", "Job", true, 0, ["app"], [])];
      NamesAreUnique(docs) && Safe(docs) && !NoSecretProblem(docs)
  {
    var docs := [Doc("app", "Deployment", false, 0, [], []), Doc("migrate", "Job", true, 0, ["app"], [])];
    SafeExactlyWhenReadsComeBefore(docs);
    CheckIsExact(docs);
    assert Borrows(docs[1], docs[0]) && !Before(docs[0], docs[1]);
  }

  // ---------------------------------------------------------------------------
  // Shared names
  // ---------------------------------------------------------------------------

  function NamesOf(docs: seq<Doc>): seq<string> {
    seq(|docs|, i requires 0 <= i < |docs| => docs[i].name)
  }

  predicate NoRepeats(names: seq<string>) {
    forall i, j :: 0 <= i < j < |names| ==> names[i] != names[j]
  }

  /** A chart of these names in which a hook reads a secret of its own name, and all else is inert. */
  function Overwritten(names: seq<string>, i: nat, j: nat): seq<Doc>
    requires i < |names|
  {
    seq(|names|, k requires 0 <= k < |names| =>
      if k == i then Doc(names[k], "Job", true, 0, [names[i]], [])
      else Doc(names[k], if k == j then SECRET else "ConfigMap", false, 0, [], []))
  }

  predicate IsLastNamed(docs: seq<Doc>, k: nat, name: string) {
    k < |docs| && docs[k].name == name && forall l :: k < l < |docs| ==> docs[l].name != name
  }

  lemma {:induction false} TableEntry(docs: seq<Doc>, name: string) returns (k: nat)
    requires name in Table(docs).entry
    ensures IsLastNamed(docs, k, name) && docs[k] == Table(docs).entry[name]
  {
    k := |docs| - 1;
    var before := docs[..k];
    if docs[k].name != name {
      k := TableEntry(before, name);
      forall l | k < l < |docs| - 1 ensures docs[l].name != name { assert before[l] == docs[l]; }
    }
  }

  /** The table drops the hook, and the check with it; the secret comes too late all the same. */
  lemma OverwrittenHookIsMissed(names: seq<string>, i: nat, j: nat)
    requires i < j < |names| && names[i] == names[j]
    ensures var docs := Overwritten(names, i, j); NoSecretProblem(docs) && !Safe(docs)
  {
    var docs := Overwritten(names, i, j);
    var m := Table(docs);
    forall k | 0 <= k < |m.names| ensures !RunsAPodAsHook(Kept(m)[k]) {
      assert m.names[k] in m.names;
      var l := TableEntry(docs, m.names[k]);
      assert docs[j].name == names[j] == docs[i].name;
    }
    CheckJudgesWhatItKeeps(docs);
    SafeExactlyWhenReadsComeBefore(Kept(m));
    SomeOrderFails(docs, j, i);
  }

  /** Names are unique only within a kind, and the table forgets kinds. The check's pass can be
      relied on, for every chart with these names, exactly when no two of them are the same. */
  lemma PassIsSoundExactlyForUniqueNames(names: seq<string>)
    ensures NoRepeats(names)
      <==> forall docs: seq<Doc> :: NamesOf(docs) == names && NoSecretProblem(docs) ==> Safe(docs)
  {
    if NoRepeats(names) {
      forall docs: seq<Doc> | NamesOf(docs) == names && NoSecretProblem(docs) ensures Safe(docs) {
        forall i, j | 0 <= i < j < |docs| ensures docs[i].name != docs[j].name {
          assert names[i] == docs[i].name && names[j] == docs[j].name;
        }
        CheckIsExact(docs);
      }
    } else {
      var i, j :| 0 <= i < j < |names| && names[i] == names[j];
      OverwrittenHookIsMissed(names, i, j);
      assert NamesOf(Overwritten(names, i, j)) == names;
    }
  }

  /** A config map can stand in for the secret of the same name: an install that cannot work passes. */
  lemma SharedNameHidesASecret()
    ensures
      var docs := [Doc("app", "Secret", false, 0, [], []),
                   Doc("migrate", "Job", true, 0, ["app"], []),
                   Doc("app", "ConfigMap", true, -1, [], [])];
      NoSecretProblem(docs) && !Safe(docs)
  {
    var secret, job := Doc("app", SECRET, false, 0, [], []), Doc("migrate", "Job", true, 0, ["app"], []);
    var other := Doc("app", "ConfigMap", true, -1, [], []);
    ThreeDocuments(secret, job, other);
    EarlierNamesakePasses(other, job);
    CheckJudgesWhatItKeeps([secret, job, other]);
    SomeOrderFails([secret, job, other], 0, 1);
  }

  lemma EarlierNamesakePasses(d: Doc, r: Doc)
    requires d.kind != SECRET && Before(d, r) && r.kind != SECRET && r.name !in r.secretRefs && d.secretRefs == []
    ensures Safe([d, r]) && NamesakesComeBefore([d, r])
  {
    SafeExactlyWhenReadsComeBefore([d, r]);
  }

  lemma ThreeDocuments(a: Doc, b: Doc, c: Doc)
    requires a.name == c.name != b.name
    ensures Kept(Table([a, b, c])) == [c, b]
  {
    assert [a, b, c][..2] == [a, b] && [a, b][..1] == [a] && [a][..0] == [];
    assert Table([a]) == Manifests([a.name], map[a.name := a]);
    assert Table([a, b]) == Put(Table([a]), b);
    assert Table([a, b]).names == [a.name, b.name];
    assert Table([a, b, c]) == Put(Table([a, b]), c);
    assert Table([a, b, c]).names == [a.name, b.name];
  }
}
