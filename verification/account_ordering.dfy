/** What the check says of service accounts, and which manifests it looks at. */
module AccountOrdering {
  import opened HookOrdering

  // ---------------------------------------------------------------------------
  // The readers
  // ---------------------------------------------------------------------------

  function OneSecretOneReader(kind: string, weight: int, secretHook: bool, secretWeight: int): seq<Doc> {
    [Doc("s", "Secret", secretHook, secretWeight, [], []), Doc("h", kind, true, weight, ["s"], [])]
  }

  lemma OnlyReader(docs: seq<Doc>, secret: Doc, reader: Doc)
    requires docs == [secret, reader] && secret.kind == SECRET && secret.name != reader.name
    requires reader.secretRefs == [secret.name] && secret.secretRefs == []
    ensures NamesAreUnique(docs)
    ensures NoSecretProblem(docs) <==> (RunsAPodAsHook(reader) ==> Before(secret, reader))
  {
    assert docs[0] == secret && docs[1] == reader;
    assert secret.name in reader.secretRefs && reader.name !in reader.secretRefs;
    CheckIsExact(docs);
    SafeExactlyWhenReadsComeBefore(docs);
    if RunsAPodAsHook(reader) { assert Reads(docs[1], docs[0]); }
  }

  /** Hooks of these six kinds are held to their references, and hooks of no other kind. */
  lemma CheckedKindsAre(kind: string, weight: int)
    ensures NoSecretProblem(OneSecretOneReader(kind, weight, false, 0)) <==>
      kind !in {"CronJob", "DaemonSet", "Deployment", "Job", "Pod", "StatefulSet"}
  {
    var docs := OneSecretOneReader(kind, weight, false, 0);
    OnlyReader(docs, docs[0], docs[1]);
  }

  /** A secret that is a hook must have the lower weight, and one of the same weight is refused. */
  lemma EqualWeightsAreRefused(weight: int, secretWeight: int)
    ensures NoSecretProblem(OneSecretOneReader("Job", weight, true, secretWeight)) <==> secretWeight < weight
  {
    var docs := OneSecretOneReader("Job", weight, true, secretWeight);
    OnlyReader(docs, docs[0], docs[1]);
  }

  // ---------------------------------------------------------------------------
  // Service accounts
  // ---------------------------------------------------------------------------

  ghost predicate NoAccountProblem(docs: seq<Doc>) {
    forall p: Problem :: ProblemAmong(p, Table(docs), Kept(Table(docs))) ==> !p.AccountIsNoHook?
  }

  /** A hook's pod runs as an account of this name. */
  predicate NamesAccount(r: Doc, d: Doc) {
    RunsAPodAsHook(r) && d.name in r.accountRefs
  }

  lemma AccountProblemFound(m: Manifests, i: nat, j: nat)
    requires Coherent(m) && i < |m.names| && j < |m.names|
    requires NamesAccount(Kept(m)[j], Kept(m)[i]) && !Kept(m)[i].hook
    ensures exists p: Problem :: ProblemAmong(p, m, Kept(m)) && p.AccountIsNoHook?
  {
    var kept, ref := Kept(m), Kept(m)[i].name;
    assert m.names[i] in m.names && m.entry[ref] == kept[i];
    var p := AccountIsNoHook(kept[j].name, ref);
    assert AccountProblem(p, m, kept[j], ref) && ProblemOf(p, m, kept[j]) && ProblemAmong(p, m, kept);
  }

  lemma AccountProblemMeant(m: Manifests, p: Problem) returns (i: nat, j: nat)
    requires Coherent(m) && ProblemAmong(p, m, Kept(m)) && p.AccountIsNoHook?
    ensures i < |m.names| && j < |m.names|
    ensures NamesAccount(Kept(m)[j], Kept(m)[i]) && !Kept(m)[i].hook
  {
    var kept := Kept(m);
    j :| 0 <= j < |kept| && ProblemOf(p, m, kept[j]);
    var ref :| ref in kept[j].accountRefs && AccountProblem(p, m, kept[j], ref);
    i := EntryIsKept(m, ref);
  }

  predicate AccountsAreHooks(docs: seq<Doc>) {
    forall i, j :: 0 <= i < |docs| && 0 <= j < |docs| && NamesAccount(docs[j], docs[i]) ==> docs[i].hook
  }

  /** With unique names the check finds no fault with accounts exactly when every one that a hook's
      pod names and the chart has is a hook itself. */
  lemma AccountCheckAsksForHooks(docs: seq<Doc>)
    requires NamesAreUnique(docs)
    ensures NoAccountProblem(docs) <==> AccountsAreHooks(docs)
  {
    var m := Table(docs);
    TableKeepsUniqueNames(docs);
    forall i, j | 0 <= i < |docs| && 0 <= j < |docs| && NamesAccount(docs[j], docs[i]) && !docs[i].hook
      ensures !NoAccountProblem(docs)
    {
      AccountProblemFound(m, i, j);
    }
    forall p: Problem | ProblemAmong(p, m, Kept(m)) && p.AccountIsNoHook? ensures !AccountsAreHooks(docs) {
      var i, j := AccountProblemMeant(m, p);
    }
  }

  /** The pod that `r` runs as a hook cannot be created before the account `d`. */
  predicate RunsAs(r: Doc, d: Doc) {
    NamesAccount(r, d) && d.kind == "ServiceAccount"
  }

  predicate EveryAccountIsThere(order: seq<nat>, docs: seq<Doc>)
    requires InOrder(order, docs)
  {
    forall p, q :: 0 <= p < |order| && 0 <= q < |order| && RunsAs(docs[order[q]], docs[order[p]]) && p != q ==> p < q
  }

  /** Whatever order the cluster chooses, a hook's pod finds its account. */
  ghost predicate AccountsInTime(docs: seq<Doc>) {
    forall order :: Admissible(order, docs) ==> EveryAccountIsThere(order, docs)
  }

  predicate AccountsComeBefore(docs: seq<Doc>) {
    forall i, j :: 0 <= i < |docs| && 0 <= j < |docs| && RunsAs(docs[j], docs[i]) && i != j ==> Before(docs[i], docs[j])
  }

  lemma AccountMayBeMissing(docs: seq<Doc>, i: nat, j: nat)
    requires i < |docs| && j < |docs| && i != j && RunsAs(docs[j], docs[i]) && !Before(docs[i], docs[j])
    ensures !AccountsInTime(docs)
  {
    var order, p, q := MayComeFirst(docs, i, j);
    assert !EveryAccountIsThere(order, docs);
  }

  lemma {:induction false} OrderedOnce(order: seq<nat>, docs: seq<Doc>, p: nat, q: nat)
    requires Admissible(order, docs) && p < q < |order|
    ensures order[p] != order[q]
  {
    var all, x := Everything(docs), order[p];
    EveryOnce(all, x);
    assert order == order[..p] + [order[p]] + order[p + 1..q] + [order[q]] + order[q + 1..];
  }

  lemma {:induction false} EveryOnce(all: seq<nat>, x: nat)
    requires forall i, j :: 0 <= i < j < |all| ==> all[i] != all[j]
    ensures multiset(all)[x] <= 1
  {
    if all != [] {
      EveryOnce(all[1..], x);
      assert all == [all[0]] + all[1..];
      if all[0] == x { assert x !in all[1..]; }
    }
  }

  /** Every order the cluster may choose has each account in time exactly when each is a hook of lower
      weight than the pods that run as it. */
  lemma AccountsInTimeExactlyWhen(docs: seq<Doc>)
    ensures AccountsInTime(docs) <==> AccountsComeBefore(docs)
  {
    forall i, j | 0 <= i < |docs| && 0 <= j < |docs| && RunsAs(docs[j], docs[i]) && i != j && !Before(docs[i], docs[j])
      ensures !AccountsInTime(docs)
    {
      AccountMayBeMissing(docs, i, j);
    }
    if AccountsComeBefore(docs) {
      forall order | Admissible(order, docs) ensures EveryAccountIsThere(order, docs) {
        forall p, q | 0 <= p < |order| && 0 <= q < |order| && RunsAs(docs[order[q]], docs[order[p]]) && p != q
          ensures p < q
        {
          if q < p { OrderedOnce(order, docs, q, p); }
        }
      }
    }
  }

  /** So of a chart that it passes the accounts are in time exactly when none of them is a hook of the
      same weight as a pod that runs as it, or of a higher one: the check looks at no account's weight. */
  lemma AccountCheckIsRightExactlyWhen(docs: seq<Doc>)
    requires NamesAreUnique(docs) && NoAccountProblem(docs)
    ensures AccountsInTime(docs) <==>
      forall i, j :: 0 <= i < |docs| && 0 <= j < |docs| && RunsAs(docs[j], docs[i]) && i != j ==>
        docs[i].weight < docs[j].weight
  {
    AccountCheckAsksForHooks(docs);
    AccountsInTimeExactlyWhen(docs);
  }

  const LATE := [Doc("runner", "ServiceAccount", true, 5, [], []), Doc("migrate", "Job", true, 0, [], ["runner"])]

  lemma LateNamesAreUnique()
    ensures NamesAreUnique(LATE)
  {
    assert LATE[0].name != LATE[1].name;
  }

  lemma LateReadsNoSecret()
    ensures ReadsComeBefore(LATE) && NamesakesComeBefore(LATE)
  {
    assert LATE[0].secretRefs == [] && LATE[1].secretRefs == [];
  }

  lemma LateAccountIsAHook()
    ensures AccountsAreHooks(LATE)
  {
    assert LATE[0].hook && LATE[1].hook;
  }

  /** An account that is a later hook than its pod passes, and the pod cannot start. */
  lemma LateAccountPasses()
    ensures NamesAreUnique(LATE) && NoAccountProblem(LATE) && NoSecretProblem(LATE) && !AccountsInTime(LATE)
  {
    LateNamesAreUnique();
    LateReadsNoSecret();
    LateAccountIsAHook();
    AccountCheckAsksForHooks(LATE);
    CheckIsExact(LATE);
    SafeExactlyWhenReadsComeBefore(LATE);
    AccountMayBeMissing(LATE, 0, 1);
  }
}
