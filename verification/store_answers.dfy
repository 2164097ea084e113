/** What the website store answers to a request, and what it writes, case by case. */
module StoreAnswers {
  import opened Options
  import opened EditorProtocol
  import opened WebsiteStore
  import opened WebsiteWorld

  /** A request made on the latest draft, for a version there is if it restores one. */
  predicate Timely(s: Store, r: Request) {
    r.expected + 1 == |s.drafts| && (r.op.Restore? ==> 1 <= r.op.version < |s.versions|)
  }

  /** A new request is taken exactly when it is made on the latest draft, names a version there is,
      and passes validation; otherwise nothing is written and the answer says the first reason. */
  lemma NewRequestIsTakenExactlyWhen(s: Store, id: RequestId, r: Request, acceptable: bool)
    requires s.drafts != [] && s.versions != [] && id !in s.receipts
    ensures
      var (s', reply) := Process(s, id, r, acceptable);
      && (reply.Committed? <==> Timely(s, r) && acceptable)
      && (reply.Conflict? <==> r.expected + 1 != |s.drafts|)
      && (reply.NotFound? <==> r.expected + 1 == |s.drafts| && !Timely(s, r))
      && (reply.Invalid? <==> Timely(s, r) && !acceptable)
      && (!reply.Committed? ==> s' == s)
  {
  }

  /** What a request that is taken writes: a save one draft, a publication one version of the draft
      there is, a restoration both, of the version it names. */
  lemma TakenRequestWrites(s: Store, id: RequestId, r: Request)
    requires s.drafts != [] && s.versions != [] && id !in s.receipts && Timely(s, r)
    ensures
      var (s', reply) := Process(s, id, r, true);
      var latest := |s.drafts| - 1;
      && match r.op {
         case Save(d) => s'.drafts == s.drafts + [Commit(d, Some(id))] && s'.versions == s.versions
         case Publish(_) =>
           && s'.drafts == s.drafts
           && s'.versions == s.versions + [Version(s.drafts[latest].document, latest, Some(id))]
         case Restore(v) =>
           && s'.drafts == s.drafts + [Commit(s.versions[v].document, Some(id))]
           && s'.versions == s.versions + [Version(s.versions[v].document, latest + 1, Some(id))]
         }
      && s'.receipts == s.receipts[id := reply.receipt]
      && reply.receipt.request == r && reply.receipt.draftRevision == |s'.drafts| - 1
      && reply.receipt.version == |s'.versions| - 1
  {
  }

  /** A known identifier writes nothing. It is answered with its receipt exactly when the request is
      the one recorded, whatever its editor had on screen when publishing; any other is refused. */
  lemma KnownRequestIsAnswered(s: Store, id: RequestId, r: Request, acceptable: bool)
    requires s.drafts != [] && s.versions != [] && id in s.receipts
    ensures
      var (s', reply) := Process(s, id, r, acceptable);
      var known := s.receipts[id].request;
      && s' == s
      && reply == (if r == known || (r.op.Publish? && known.op.Publish? && r.(op := known.op) == known)
                   then Committed(s.receipts[id]) else Conflict)
  {
  }

  /** A copy of a new request that reaches the store is granted exactly when it is taken, and refused
      as a conflict exactly when it was made on another draft than the latest. */
  lemma CopyIsRefusedExactlyWhen(s: Store, id: RequestId, r: Request, acceptable: bool)
    requires s.drafts != [] && s.versions != [] && id !in s.receipts
    ensures
      var verdict := VerdictOf(Process(s, id, r, acceptable).1);
      && (verdict == Granted <==> Timely(s, r) && acceptable)
      && (verdict == Refused(true) <==> r.expected + 1 != |s.drafts|)
      && (verdict == Granted || verdict.Refused?)
  {
  }

  /** A later copy of the same request is granted, and one of another under its identifier is refused
      as a conflict. */
  lemma LaterCopyIsGranted(s: Store, id: RequestId, r: Request, acceptable: bool)
    requires s.drafts != [] && s.versions != [] && id in s.receipts
    ensures
      var verdict := VerdictOf(Process(s, id, r, acceptable).1);
      verdict == if SameChange(s.receipts[id].request, r) then Granted else Refused(true)
  {
  }
}
