# Antifailure, modelled and proved

This project models the parts of the Antifailure repository whose correctness depends on order,
state or several functions at once, and proves what those parts promise. Each component has a
specification on plain values, an imperative version in the form of the source that is proved
against it, and theorems about the specification.

**Website autosave.** `editor_protocol.dfy` is one editor's save protocol as a transition system
(debounced edits, one request in the air, an attempt that survives ambiguous failures, conflicts,
suspension, disposal, flushes that wait), and `editor_steps.dfy` says what each call and each answer
does to the editor, field by field. `autosave_queue.dfy` is the queue itself, a class whose methods
are the source's atomic steps. `website_world.dfy` puts any number of editors in front of
the store of `web/apps/api/src/admin/website-store.ts`, over a network that may lose, delay, repeat
and reorder every copy of a request, and proves what every run keeps; `store_answers.dfy` says which
requests the store takes and what they write. `website_copies.dfy` follows
the copies of one save and says what a refusal of it means; `silent_copies.dfy` has a run for every
number of copies that end without a word, and when a refusal is proof. The assumptions on the environment are
in `Possible`, `Answers` and `MaySubmit`: request identifiers are never reused; a save is answered
successfully only when the server has granted the copy it waits for, and then with what the store
recorded; it is refused for certain only when the server has refused that copy, in that way; any
other failure may be reported at any time; and a version handed to an editor is one the store has
had. A copy may be turned away before it reaches the store, as for being signed out.

**Section order.** `section_order.dfy` says, without the algorithm, when a list shows a page's
sections rightly, and that at most one list does. `section_resolver.dfy` is the algorithm: recording
anchors, removing cycles, grouping, sorting, emitting. It is written in `docs/public/cms-bridge.js`
and again in `web/packages/website/src/resolve.ts`, which adds hidden sections; the model has both.
`website_client.dfy` has the editor's operations on sections, `listed_sections.dfy` says which
sections and moves a page's list is made from. What they do to the list shown is in
`section_moves.dfy` (moves on a page whose anchors chain), `move_conditions.dfy` (moves on any page,
exactly), `page_rows.dfy` (the rows of one page out of the whole list), `custom_sections.dfy`,
`copied_sections.dfy` (what a duplicate, a removal and a new section hold),
`removed_sections.dfy` (what a removal leaves), `removal_conditions.dfy` (when it shows the rest as
before, exactly) and `added_sections.dfy`.

**Report parser.** `report_lines.dfy` has the line predicates on characters, `report_blocks.dfy` the
blocks and exactly when the parser ends, `report_parser.dfy` its loops, and `report_composition.dfy`
what becomes of every line and exactly when reports can be put together. `report_writing.dfy` puts
each kind of line together from its parts, with every choice of spacing a writer has, and
`report_roundtrip.dfy` whole reports: the parser gives back the blocks they were written from.
`report_rewriting.dfy` writes what any report parses as plainly and parses it again.

**Live view.** `live_view.dfy` has the event reducer and the summary of a history it amounts to;
`live_events.dfy` says what a single event changes.

**Fetch hook.** `fetch_protocol.dfy`, `use_api.dfy` and `fetch_runs.dfy` are the hook, the class that
keeps its refs and states, and every run of renders, effects, replies, reloads and mounts;
`fetch_steps.dfy` says what a reload, a new question, a failure and an unmount come to in any run.

**Credential history.** `token_history.dfy` groups dead credentials with line objects that a list
and a map share, and proves what each line stands for.

**Copy-on-write verdict.** `copy_on_write.dfy` has the settings with their 64-bit product, the two
statistics, the verdict and what it depends on.

**Hook ordering.** `hook_ordering.dfy` has the manifest table, the check, and the creation orders
that the check is about; `account_ordering.dfy` does the same for service accounts.

## What the proofs found

The code is kept as it is; each of these is a lemma with a concrete input beside the exact condition
under which the promise holds.

- The comment at `console/lib/website-autosave.ts:83` says that a definitive refusal did not commit.
  That is so exactly when no earlier copy of the same save was granted and then ended without a word,
  and the refused copy itself was not granted in another delivery (`RefusedSaveIsCommittedExactlyWhen`,
  `FirstRefusalIsTrue`). After any number of silent copies the editor sees the same in a run where the
  save is a draft and in one where it is not (`DefinitiveRefusalMayFollowCommit`), so what it can go
  by is whether the copy refused is the first (`RefusalIsProofExactlyForFirstCopies`). A refusal as a conflict is
  always right (`ConflictingSaveIsNeverCommitted`), and no update is lost either way (`NoLostUpdate`).
- The report parser loops forever on a line that starts `<sub>`, `<details>` or a heading without
  being one (`UnclosedFootnoteNeverEnds`); it ends exactly on reports without such lines
  (`ParserHaltsOnCleanReports`).
- What a report parses as, written out and parsed again, can come out different: lines of a paragraph
  that are no comment, heading or item each can be one together (`ParagraphMayReadAsAComment`). It is
  the same exactly when no paragraph reads so (`ParsingAgainGivesTheSameExactlyWhen`).
- A section added or duplicated after one that already has a custom section there is not shown next
  to it (`SecondCopyIsNotNext`, exact condition in `AddedSectionIsShownNext`).
- On a page with two sections after the same one a move can show something else than what was dropped
  (`MoveOfUnchainedPageMayFail`); `MoveShowsTheDropExactlyWhen` says by the page before the move when
  it shows the drop, `MoveWithoutCyclesShowsTheDropExactlyWhen` says it without cycles, and
  `RowsShowTheDropExactlyWhen` says it of the rows of one page.
- Removing a section can reorder the ones that were placed after it (`RemovalMayReorder`);
  `RemovalShowsTheRestExactlyWhen` says by the document before, cycles or not, when it does not, and
  `WhatIsLeft` what anchor and turn each section is left with.
- `refreshing` can stay set over a skeleton, when the question changes while a reload is in flight
  (`RefreshingMayStandOverASkeleton`); that is so exactly when the newest request asked afresh and a
  reload went out before it, after the last reply that landed (`RefreshingWithoutDataExactlyWhen`,
  `FreshQuestionLeavesRefreshing`).
- The ratio floor on copy-on-write sizes multiplies in 64 bits and can wrap
  (`WrappedRatioIsAccepted`, `RatioHoldsExactlyWithoutWrapping`); and a copy slower than the
  published rate can pass when every small sample was noisy (`SlowCopyMayPass`,
  `CopyIsRefusedExactlyWhen`).
- The hook-order check looks a secret up by its name alone. With unique names it passes exactly the
  safe charts in which no other resource of a secret's name comes too late (`CheckIsExact`), so a
  deployment named like an operator's secret is a false alarm (`NamesakeIsTakenForASecret`). It keeps
  one manifest a name, so a config map can hide a secret (`SharedNameHidesASecret`); its pass can be
  relied on for every chart with given names exactly when no name repeats
  (`PassIsSoundExactlyForUniqueNames`).
- The same check looks at no service account's weight: one that is a later hook than the pod that
  runs as it is passed (`LateAccountPasses`). Of a chart that it passes the accounts are in time
  exactly when each has a lower weight than its pods (`AccountCheckIsRightExactlyWhen`).

## Model

| member | source | states |
|---|---|---|
| `EditorProtocol.Step` | console/lib/website-autosave.ts:116-284 | every step keeps the protocol's invariant, never lowers the acknowledged revision, and a flush that resolves leaves nothing in the air, unsaved, failed or conflicting |
| `EditorProtocol.StepEffect` | console/lib/website-autosave.ts:153-191 | only an answer or an accepted version changes what is acknowledged; every other step keeps the outstanding request, drops it, or starts one against that revision |
| `EditorProtocol.FlightStarts` | console/lib/website-autosave.ts:153-191 | with no save in the air a step starts at most one, of the outstanding attempt if there is one and under a new identifier otherwise |
| `EditorProtocol.FlightEnds` | console/lib/website-autosave.ts:161-188 | when a save ends its attempt is kept exactly after a failure that may have committed |
| `EditorProtocol.DisplayedDocumentIsKept` | console/lib/website-autosave.ts:161-173 | the displayed document changes only by an edit, by the acknowledgement of exactly what is displayed, or by an explicit reload |
| `EditorProtocol.OlderAcknowledgementKeepsNewerEdit` | console/lib/website-autosave.ts:168-173 | the answer to an older edit leaves the newer one displayed, and unsaved exactly when it differs from what was acknowledged |
| `EditorProtocol.AttemptSurvives` | console/lib/website-autosave.ts:153-181 | an attempt keeps its identifier, payload and revision through every step but its answer, a certain refusal, or a reload |
| `EditorProtocol.UnsavedEditHasANextStep` | console/lib/website-autosave.ts:142-151 | whatever is unsaved has a timer, a save in the air or a flush about to go on, or the status says why not |
| `EditorSteps.EditIsAdopted` | console/lib/website-autosave.ts:240-253 | an edit of an open, unsuspended editor is displayed whatever is in the air; a new document drops the error exactly without an attempt or a conflict, and every other field is kept |
| `EditorSteps.EditIsRefusedExactlyWhen` | console/lib/website-autosave.ts:240-246 | an edit is refused exactly by a closed or suspended editor or as invalid, and then changes nothing |
| `EditorSteps.EditStaysUntilAcknowledged` | console/lib/website-autosave.ts:161-173 | an edit stays displayed through any events until all that is displayed is acknowledged with no attempt left, the next edit, or a loaded version |
| `EditorSteps.AmbiguousExactlyWhen` | console/lib/website-autosave.ts:66-87 | a failure leaves the commit in doubt exactly if it names no conflict and has no status from 400 to 499 other than 408 and 429 |
| `EditorSteps.SaveEndsWell` | console/lib/website-autosave.ts:161-175 | an answer that acknowledges the save takes over its revision and document, replaces what is displayed only if that is what was sent, and ends attempt and error |
| `EditorSteps.SaveEndsBadly` | console/lib/website-autosave.ts:176-181 | any other end of the save keeps documents and revision, says why, and keeps the attempt exactly if it may have committed |
| `EditorSteps.SaveIsOver` | console/lib/website-autosave.ts:182-188 | a finished save leaves nothing in the air and wakes exactly the flushes that waited, with its failure if it failed |
| `EditorSteps.FlushDecides` | console/lib/website-autosave.ts:193-210 | a flush rejects on a closed, failing or conflicting editor, resolves on a clean one, and otherwise waits for the save in the air or for the one it starts |
| `EditorSteps.WokenFlushDecides` | console/lib/website-autosave.ts:198-209 | a woken flush rejects with the failure that woke it, or goes on by the same rules |
| `EditorSteps.RetryDecides` | console/lib/website-autosave.ts:255-261 | a retry is a flush without the error, unless there is a conflict |
| `EditorSteps.VersionIsTakenExactlyWhen` | console/lib/website-autosave.ts:212-230 | a version is loaded exactly by an open editor with nothing in the air, if valid and not older, and then becomes what is acknowledged |
| `EditorSteps.ResumeUndoesSuspend` | console/lib/website-autosave.ts:264-275 | suspending only sets its flag and stops the timer, and resuming gives the editor back |
| `EditorSteps.ClosedForGood` | console/lib/website-autosave.ts:276-282 | through any events a closed editor stays closed and says so, wants no timer and refuses every edit |
| `EditorSteps.StatusMeans` | console/lib/website-autosave.ts:122-127 | each status is shown exactly under its condition, in the order of the source |
| `AutosaveQueue.Queue.constructor` | console/lib/website-autosave.ts:92-114 | a new queue is the protocol's opening state |
| `AutosaveQueue.Queue.Emit` | console/lib/website-autosave.ts:122-131 | the published snapshot is the one the protocol state determines |
| `AutosaveQueue.Queue.Schedule` | console/lib/website-autosave.ts:142-151 | afterwards a timer is armed if and only if there is something to save and nothing in the way |
| `AutosaveQueue.Queue.StartSave` | console/lib/website-autosave.ts:153-160 | a save starts only when none is active and something is unsaved, and reuses an outstanding attempt |
| `AutosaveQueue.Queue.TimerFires` | console/lib/website-autosave.ts:145-149 | the timer's step is the protocol's send, and the one live timer is used up |
| `AutosaveQueue.Queue.SaveSettles` | console/lib/website-autosave.ts:161-181 | the response handlers make exactly the protocol's settling step |
| `AutosaveQueue.Queue.SaveFinishes` | console/lib/website-autosave.ts:182-188 | the final handler frees the writer, wakes every waiting flush and re-arms the timer when due |
| `AutosaveQueue.Queue.Flush` | console/lib/website-autosave.ts:193-210 | a flush call runs the loop's first pass as the protocol says: resolves, rejects, or waits for the active save |
| `AutosaveQueue.Queue.FlushContinues` | console/lib/website-autosave.ts:198-209 | a woken flush goes on with the loop, or rejects with the failure that woke it |
| `AutosaveQueue.Queue.Retry` | console/lib/website-autosave.ts:255-261 | a retry forgets the error and flushes, unless there is a conflict |
| `AutosaveQueue.Queue.Edit` | console/lib/website-autosave.ts:240-253 | an edit is refused, ignored or adopted as the protocol says, and the timer and snapshot follow |
| `AutosaveQueue.Queue.AcceptServer` | console/lib/website-autosave.ts:212-230 | loading a version is refused during a save or when stale; otherwise it replaces what is acknowledged, and what is displayed only on a reload |
| `AutosaveQueue.Queue.Suspend` | console/lib/website-autosave.ts:264-269 | suspending disarms the timer and keeps everything else |
| `AutosaveQueue.Queue.Resume` | console/lib/website-autosave.ts:270-275 | resuming arms the timer again exactly when something is to be saved |
| `AutosaveQueue.Queue.Dispose` | console/lib/website-autosave.ts:276-282 | disposal disarms the timer and returns the last snapshot, unsaved edits included |
| `WebsiteWorld.NoLostUpdate` | web/apps/api/src/admin/website-store.ts:112-172 | in every run each new draft is written on top of the latest one, by an editor that had that draft, with the document that was asked for |
| `WebsiteWorld.EachRequestCommitsOnce` | web/apps/api/src/admin/website-store.ts:68-86 | however often a request is delivered, it writes at most one draft and one version |
| `WebsiteWorld.SavedIsTheStoredDraft` | console/lib/website-autosave.ts:153-188 | at every moment an editor's saved document is the store's draft at the editor's revision, and its attempt is based on it |
| `WebsiteWorld.AcknowledgedSaveIsCommitted` | console/lib/website-autosave.ts:161-175 | an acknowledged save is the draft right after the one it was based on, under its own identifier |
| `WebsiteWorld.FlushMeansStored` | console/lib/website-autosave.ts:193-210 | what a resolved flush returns is what the store holds at that revision |
| `WebsiteWorld.PublishedIsApproved` | web/apps/api/src/admin/website-store.ts:131-172 | what goes live is what its editor had on screen and flushed, or an earlier live version |
| `WebsiteWorld.StoreRefusalIsExact` | web/apps/api/src/admin/website-store.ts:68-92 | the store answers a delivery with a receipt if and only if that request has gone through |
| `WebsiteWorld.ConflictIsFinal` | web/apps/api/src/admin/website-store.ts:88-92 | after a conflict no later copy of that request goes through, in any continuation of the run |
| `WebsiteWorld.CommittedIffNextDraft` | web/apps/api/src/admin/website-store.ts:112-129 | a writing request has gone through exactly when the draft after the one it was based on carries its identifier |
| `WebsiteWorld.OutstandingSaveIsCommittedIffNextDraftIsIts` | console/lib/website-autosave.ts:116-120 | whether an unacknowledged save was committed is decided by the one draft after the editor's own: it was not if there is no such draft or it has another document |
| `StoreAnswers.NewRequestIsTakenExactlyWhen` | web/apps/api/src/admin/website-store.ts:88-118 | a request with a new identifier is taken exactly when its revision is the draft's, it is acceptable, and a version to restore exists; a refusal changes nothing |
| `StoreAnswers.TakenRequestWrites` | web/apps/api/src/admin/website-store.ts:112-172 | a save writes the next draft, a publication the next version of the draft, a restore both from the version named, and the receipt says what was written |
| `StoreAnswers.KnownRequestIsAnswered` | web/apps/api/src/admin/website-store.ts:68-80 | a known identifier changes nothing: the same change gets its first receipt, another is a conflict |
| `StoreAnswers.CopyIsRefusedExactlyWhen` | web/apps/api/src/admin/website-store.ts:88-118 | a copy of a new request is granted exactly when it is taken, and refused as a conflict exactly when it was made on another draft than the latest |
| `WebsiteCopies.ToldIsKept` | console/lib/website-autosave.ts:153-191 | every step keeps that what copies were answered is true of their request, that the store granted what it recorded to some copy, and that a save is sent again only after all its copies ended without a word |
| `WebsiteCopies.RefusedSaveIsCommittedExactlyWhen` | console/lib/website-autosave.ts:79-87 | in every run a save refused for certain is in the store if and only if an earlier copy of it was granted and ended without a word, or the refused copy was also granted, which takes two deliveries |
| `WebsiteCopies.FirstRefusalIsTrue` | console/lib/website-autosave.ts:83-85 | a refusal of a save none of whose earlier copies ended without a word, delivered at most once, does mean that it never committed |
| `WebsiteCopies.ConflictingSaveIsNeverCommitted` | console/lib/website-autosave.ts:82-86 | a save refused as a conflict was never committed and never will be, whatever became of its other copies |
| `SilentCopies.DefinitiveRefusalMayFollowCommit` | console/lib/website-autosave.ts:79-87 | after any number of lost responses a definitive refusal tells nothing: two runs that the editor cannot tell apart end in it, and the save is a draft in one of them only |
| `SilentCopies.RefusalIsProofExactlyForFirstCopies` | console/lib/website-autosave.ts:83-85 | where copies are delivered at most once, a refusal without a conflict means in every run that the save never committed if and only if no copy went before it |
| `SectionOrder.WithoutCyclesIsAcyclic` | docs/public/cms-bridge.js:226-234 | dropping every cycle as a unit leaves no cycle |
| `SectionOrder.ShownListIsUnique` | docs/public/cms-bridge.js:235-251 | at most one list shows a page, so the rules for one entry after another fix the whole list |
| `SectionResolver.RecordMoves` | docs/public/cms-bridge.js:220-225 | each section's anchor and priority are those of its last move that counts |
| `SectionResolver.LassoIsCycle` | docs/public/cms-bridge.js:229-232 | a walk that comes back to a section of its own path has found exactly the sections of a cycle |
| `SectionResolver.OpenPathIsNoCycle` | docs/public/cms-bridge.js:229-233 | a walk that ends, or runs into finished sections, passed no section on a cycle |
| `SectionResolver.FollowFrom` | docs/public/cms-bridge.js:227-233 | one walk ends and prunes exactly the cycle it met, keeping the tails that lead into it |
| `SectionResolver.BreakCycles` | docs/public/cms-bridge.js:226-234 | the anchors deleted are precisely those of sections on a cycle |
| `SectionResolver.GroupChildren` | docs/public/cms-bridge.js:235-242 | each anchor's children are its sections, in the order of their last moves |
| `SectionResolver.Emitter.Emit` | docs/public/cms-bridge.js:244-248 | emitting a section appends it and everything that hangs off it, each fitting after what precedes it |
| `SectionResolver.Emitter.EmitAll` | docs/public/cms-bridge.js:249-251 | the three passes emit the list that shows the page |
| `SectionResolver.NothingIsMissing` | docs/public/cms-bridge.js:251 | after the first two passes every section is out: the final pass emits nothing |
| `SectionResolver.ResolveOrder` | web/packages/website/src/resolve.ts:138-190 | the result is the list that shows the page, without its hidden sections |
| `WebsiteClient.PageSections` | console/lib/website-client.ts:57-72 | the list has each section once, and has exactly the source sections of the group without the custom prefix and the custom sections of the group, as the resolver orders them |
| `ListedSections.OtherSourceSectionIsIgnored` | console/lib/website-client.ts:57-72 | a source section of another group, or with the custom prefix, changes nothing on the page |
| `ListedSections.OtherCustomSectionIsIgnored` | console/lib/website-client.ts:57-72 | nor does a custom section of another group |
| `ListedSections.OtherMoveIsIgnored` | console/lib/website-client.ts:66-69 | nor a move of another group |
| `ListedSections.OwnMoveCounts` | console/lib/website-client.ts:66-69 | a move of the group, or of no group, counts last on the page, and a custom section counts as moved to its place before any move |
| `ListedSections.UnmovedKeepSourceOrder` | console/lib/website-client.ts:57-72 | sections that no move places are listed in the order of the source, and before every added section that none places |
| `WebsiteClient.MoveSection` | console/lib/website-client.ts:75-88 | a move replaces the recorded moves of the three sections whose predecessor changes, and no other |
| `SectionMoves.AnchorsAfterMove` | console/lib/website-client.ts:82-87 | after a move the affected sections are anchored where they now stand, by the last moves, and all others as before and in the same turn |
| `SectionMoves.ChainedListIsShown` | docs/public/cms-bridge.js:214-251 | a list in which every recorded anchor names the section just before, and unmoved sections keep base order, is the one resolved |
| `SectionMoves.MoveShowsWhatWasDropped` | console/lib/website-client.ts:75-88 | on such a page the resolver shows, after a move, exactly the list that was dropped, and the page stays such |
| `SectionMoves.AnyMovesShowWhatWasDropped` | console/lib/website-client.ts:75-88 | so any sequence of moves shows what was dropped |
| `SectionMoves.UntouchedPageIsChained` | console/lib/website-client.ts:57-72 | a page nobody has rearranged shows the source's order and is such a page |
| `MoveConditions.PlacedAlwaysFits` | console/lib/website-client.ts:82-87 | a section that the move places, if on no cycle, always fits where it was dropped |
| `MoveConditions.PlacingShowsExactlyWhen` | docs/public/cms-bridge.js:220-251 | re-anchoring some sections as in a list shows that list if and only if the other sections still stand right by their old anchors and turns, cycles or none |
| `MoveConditions.MoveShowsTheDropExactlyWhen` | console/lib/website-client.ts:75-88 | on any page the dropped list is shown if and only if, by the anchors and turns before the move, every section it does not place still stands right |
| `MoveConditions.MoveWithoutCyclesShowsTheDropExactlyWhen` | console/lib/website-client.ts:75-88 | where anchors form no cycle: if and only if no other section has the anchor of an affected one, and each other section still follows its own with only what hangs off it between |
| `MoveConditions.MoveOfUnchainedPageMayFail` | console/lib/website-client.ts:75-88 | with two sections after the same one, a move can show another list than the one dropped |
| `PageRows.RowsAreShownAlone` | docs/public/cms-bridge.js:208-253 | sections with no anchor outside are shown in the whole list as they are shown by themselves |
| `PageRows.RowsAfterMove` | console/components/admin/website/WebsiteEditor.tsx:404-411 | a move made with one page's rows leaves them chained rows of that page, in the dropped order |
| `PageRows.RowsShowTheDropExactlyWhen` | console/components/admin/website/WebsiteEditor.tsx:404-411 | for any rows of one page, chained or not, the whole list shows them as dropped if and only if, by the anchors and turns before, every row not placed still stands right |
| `PageRows.RowsShowWhatWasDropped` | console/components/admin/website/WebsiteEditor.tsx:404-411 | however many moves are made among one page's rows, the whole list shows those sections as dropped |
| `PageRows.EditorRowsAreTheScriptsList` | docs/public/cms-bridge.js:208-253 | the rows the editor picks from its whole list are the list that the page's own script resolves |
| `CustomSections.DuplicateSection` | console/lib/website-client.ts:101-111 | a duplicate copies what is stored under the section to its own keys and stands after it |
| `CustomSections.RemovalLeavesNoTrace` | console/lib/website-client.ts:113-124 | after a removal nothing refers to the section, and a removal changes nothing exactly when nothing did |
| `CustomSections.DuplicateThenRemove` | console/lib/website-client.ts:101-124 | removing a duplicate gives the document back if and only if its identifier was new to the document |
| `CopiedSections.DuplicateHasWhatItsSourceHas` | console/lib/website-client.ts:101-111 | every field, style and collection under the section, and its own style and collection, is found under the renamed key with the same value; the lists gain exactly the copy, placed after its source |
| `CopiedSections.DuplicateKeepsTheRest` | console/lib/website-client.ts:101-111 | every key that is not the copy's keeps its value and none is added; without a source nothing changes |
| `CopiedSections.RemovalTakesOutOnly` | console/lib/website-client.ts:113-124 | a removal drops exactly the keys, section, moves and hidden entry of the section, and sends what was added after it to the front |
| `CopiedSections.NewSectionStartsWith` | console/lib/website-client.ts:90-99 | a new section starts with exactly the presets of its kind and nothing else changes |
| `CopiedSections.KeysBelongToOneSection` | console/lib/website-client.ts:107-109 | no key belongs to two sections whose identifiers have no dot |
| `RemovedSections.WhatIsLeft` | console/lib/website-client.ts:113-124 | a section is left with the anchor and turn of its last other counting move, where a custom section placed after the removed one goes to the front |
| `RemovedSections.AnchorStaysExactlyWhen` | console/lib/website-client.ts:113-124 | a removal leaves a section's anchor as it was if and only if that is not the removed section |
| `RemovedSections.RemovalShowsTheRest` | console/lib/website-client.ts:113-124 | removing a section that no other is anchored to shows the others as before |
| `RemovalConditions.RemovalShowsTheRestExactlyWhen` | console/lib/website-client.ts:113-124 | on any page, cycles or not, the others are shown as before if and only if those that resolve by another anchor afterwards stand right by the anchors and turns they are left with, all read off the document before |
| `RemovalConditions.OnlyTheseChange` | docs/public/cms-bridge.js:226-234 | only what was anchored to the removed section, or is on a cycle before or after, resolves by another anchor |
| `RemovalConditions.RemovalWithoutCyclesShowsTheRestExactlyWhen` | console/lib/website-client.ts:113-124 | without cycles those are exactly the sections that were anchored to the removed one |
| `RemovedSections.RemovalMayReorder` | console/lib/website-client.ts:113-124 | removing the middle one of three placed one after the other sends the last to the front |
| `AddedSections.AddSection` | console/lib/website-client.ts:90-99 | the new section is there with the presets of its kind under its own keys, and nothing else changes |
| `AddedSections.AddThenRemove` | console/lib/website-client.ts:90-124 | removing an added section gives the document back if and only if its identifier was new to the document |
| `AddedSections.KeptGrows` | docs/public/cms-bridge.js:220-234 | a section with a new identifier adds its own anchor and changes no cycle and no other anchor |
| `AddedSections.ShownAfterItsAnchor` | docs/public/cms-bridge.js:235-251 | a new section is shown right after its anchor, all else in place, if and only if no section follows that anchor by an earlier move |
| `AddedSections.AddedSectionIsShownNext` | console/lib/website-client.ts:90-99 | the same for an added section: exact when the editor's promise to place it after the selection holds |
| `AddedSections.DuplicateIsShownNext` | console/lib/website-client.ts:101-111 | the same for a duplicate and the section it copies |
| `AddedSections.SecondCopyIsNotNext` | console/lib/website-client.ts:101-111 | a second copy of a section is never shown right after it |
| `ReportLines.ReadingIsCoherent` | console/lib/reportblocks.ts:67-79 | what the line patterns imply about each other, proved on characters |
| `ReportWriting.SpacesAroundALineDoNotMatter` | console/lib/reportblocks.ts:67-100 | no spaces around a line change anything the parser asks of it |
| `ReportWriting.CellsAreRead` | console/lib/reportblocks.ts:72-79 | a row of pipe-free cells reads as exactly those cells, whatever the spaces around them, with a pipe at either edge or without |
| `ReportWriting.CellsReadAreCells` | console/lib/reportblocks.ts:72-79 | what is read as cells is trimmed and free of pipes, and never empty |
| `ReportWriting.HeadingHasItsParts` | console/lib/reportblocks.ts:102 | a line is a heading only as two to four hashes, spaces and a text on one line |
| `ReportWriting.FoldIsRead` | console/lib/reportblocks.ts:124 | a line opens a folded block if and only if its text is the two tags around a summary on one line |
| `ReportWriting.NoteIsRead` | console/lib/reportblocks.ts:137 | a line is a footnote if and only if its text is the two tags around a text on one line |
| `ReportWriting.BulletHasItsParts` | console/lib/reportblocks.ts:69 | a line is an item only as a dash or star, spaces and a text |
| `ReportWriting.LineEndsDoNotMatter` | console/lib/reportblocks.ts:89 | carriage returns before line feeds make no difference to any line |
| `ReportBlocks.TakesSomething` | console/lib/reportblocks.ts:93-174 | a round of the loop makes progress exactly on lines that are not stuck |
| `ReportParser.TakeBody` | console/lib/reportblocks.ts:126-131 | a folded block takes every line up to its end |
| `ReportParser.TakeParagraph` | console/lib/reportblocks.ts:159-172 | a paragraph takes plain lines up to the first that starts something else |
| `ReportParser.Round` | console/lib/reportblocks.ts:93-174 | one round makes the first block of what is left and leaves the cursor where that block ends |
| `ReportBlocks.ParserHaltsOnCleanReports` | console/lib/reportblocks.ts:93-174 | the loop ends if and only if no line outside a folded block starts like a heading, block or footnote without being one |
| `ReportParser.ParseReport` | console/lib/reportblocks.ts:88-177 | the parser computes the blocks of a clean report |
| `ReportComposition.EveryLineIsAccountedFor` | console/lib/reportblocks.ts:93-174 | the lines fall, in order and with none left, into skipped lines and the lines of single blocks |
| `ReportComposition.BlockIsLocal` | console/lib/reportblocks.ts:102-173 | a block depends on its own lines only |
| `ReportComposition.ClosedReportsCompose` | console/lib/reportblocks.ts:88-177 | a closed report, a blank line and another report give the blocks of the one and then of the other |
| `ReportComposition.ReportComposesExactlyWhenClosed` | console/lib/reportblocks.ts:124-135 | a report can be put before every other if and only if it leaves no folded block open |
| `ReportRoundTrip.BlockIsRead` | console/lib/reportblocks.ts:93-174 | the lines of any block, written with any spacing, parse as exactly that block: level and text, cells of header and rows, summary and lines, items, joined paragraph |
| `ReportRoundTrip.ReportIsReadAsMeant` | console/lib/reportblocks.ts:88-177 | a report written from any blocks with blank lines between parses as exactly those blocks in order |
| `ReportRoundTrip.TextIsReadAsMeant` | console/lib/reportblocks.ts:88-177 | the same from the text of the report |
| `ReportRewriting.BlocksAreFit` | console/lib/reportblocks.ts:88-177 | every block the parser makes can be written, but for a paragraph that reads as another line |
| `ReportRewriting.ParsingAgainGivesTheSameExactlyWhen` | console/lib/reportblocks.ts:159-173 | for every report that parses, its blocks written out plainly parse as the same blocks if and only if no paragraph reads as a heading, an item or a comment |
| `ReportRewriting.ParagraphMayReadAsAComment` | console/lib/reportblocks.ts:159-173 | two lines that start and end a comment make a paragraph that is lost when written on one line |
| `ReportBlocks.UnclosedFootnoteNeverEnds` | console/lib/reportblocks.ts:159-173 | a line starting with sub that is not closed on that line is never taken |
| `LiveView.FoldIsSummary` | console/lib/live.ts:158-243 | folding any events gives their summary: agents once each in first-seen order, the last 200 steps, the count of all, the maximum sequence, the newest frame, the last fields given |
| `LiveView.FramesMayComeInAnyOrder` | console/lib/live.ts:201-216 | frames of distinct sequence may arrive in any order |
| `LiveEvents.OneAgentChanges` | console/lib/live.ts:224-243 | an event about one agent leaves every other as it was |
| `LiveEvents.StepIsShown` | console/lib/live.ts:179-200 | a step is the last one listed with its own fields, the list keeps the last 200, and the count and sequence go up |
| `LiveEvents.FrameIsShown` | console/lib/live.ts:201-216 | a frame replaces an older one with its own fields, and a late one changes nothing but the sequence |
| `LiveEvents.NoticeIsHeld` | console/lib/live.ts:167-178 | a notice overwrites surface, state and the texts it gives and keeps those it does not |
| `LiveEvents.RunIsNamedAndSummedUp` | console/lib/live.ts:158-166 | the run and its counts are those last announced |
| `LiveEvents.MalformedEventsAreSkipped` | console/lib/live.ts:158-219 | an event that lacks what its type needs changes nothing, and any other is heard by the agent it names |
| `UseApi.FetchHook.SameDeps` | console/lib/api.ts:263-266 | the comparison of dependencies holds exactly when they are the same list |
| `UseApi.FetchHook.Effect` | console/lib/api.ts:260-276 | an effect run makes the protocol's step and hands its callbacks the request number and whether it is a reload |
| `UseApi.FetchHook.Resolve` | console/lib/api.ts:281-285 | an answer lands only when it is the current one |
| `UseApi.FetchHook.Reject` | console/lib/api.ts:286-294 | so does a failure, beside the data when it was a reload |
| `FetchRuns.ScreenShowsTheHistory` | console/lib/api.ts:239-303 | in every run the state, `refreshing` and `refreshError` are what the requests and their replies say |
| `FetchRuns.ReadyDataAnswersTheQuestion` | console/lib/api.ts:260-294 | shown data answers the question last asked, from the newest request that succeeded |
| `FetchRuns.ReadyDataAnswersTheRender` | console/lib/api.ts:260-294 | with no effect left to run, shown data answers the dependencies just rendered |
| `FetchRuns.AnswersNeverGoBack` | console/lib/session-freshness.ts:24-30 | the number of the request whose answer is shown never decreases |
| `FetchRuns.DataIsLostExactlyWhen` | console/lib/api.ts:262-276 | data leaves the screen exactly with an effect for other dependencies, a remount, or a reload pressed before the data was rendered |
| `FetchRuns.FailedReloadKeepsData` | console/lib/api.ts:286-294 | no failure takes data off the screen; a current one is reported beside it |
| `FetchRuns.RefreshingMeansUnanswered` | console/lib/api.ts:270-285 | over data, `refreshing` holds exactly while the newest request is unanswered |
| `FetchRuns.LateReplyChangesNothing` | console/lib/session-freshness.ts:24-30 | only the newest request of a mounted component can change anything |
| `FetchRuns.RefreshingMayStandOverASkeleton` | console/lib/api.ts:271-276 | `refreshing` can stand while the state is loading |
| `FetchRuns.RefreshingWithoutDataExactlyWhen` | console/lib/api.ts:262-294 | without data, `refreshing` is set if and only if the newest request asked afresh and a reload went out before it, after the last reply that landed |
| `FetchRuns.FreshQuestionLeavesRefreshing` | console/lib/api.ts:271-276 | an effect that asks afresh shows the skeleton and keeps `refreshing` exactly as it was |
| `FetchSteps.PressedReloadAsksAgain` | console/lib/api.ts:260-300 | in every run a reload pressed over data sends the same question again, keeps the data and sets `refreshing` |
| `FetchSteps.PressedOverNoDataAsksAfresh` | console/lib/api.ts:260-300 | pressed over an error or a skeleton it asks afresh |
| `FetchSteps.OtherDependenciesAskAfresh` | console/lib/api.ts:260-276 | other dependencies ask afresh over a skeleton, whether or not a reload was pressed in the same commit |
| `FetchSteps.RenderingAgainAsksNothing` | console/lib/api.ts:260-299 | a render asks nothing if and only if its dependencies are the same and no reload was pressed |
| `FetchSteps.FailureSaysWhy` | console/lib/api.ts:286-294 | a failure is told in the words of the API, or as a network that could not be reached |
| `FetchSteps.UnmountedHookIsDeaf` | console/lib/api.ts:281-297 | after an unmount nothing but a remount changes the hook or sends a request |
| `TokenHistory.Line.Add` | console/lib/tokens.ts:127-138 | taking a row into a line merges it as the specification says |
| `TokenHistory.Take` | console/lib/tokens.ts:103-138 | one row changes the shared line objects as the specification says, and list and map still share them |
| `TokenHistory.GroupHistory` | console/lib/tokens.ts:100-142 | the history is fresh, distinct line objects that hold exactly the specified lines in order |
| `TokenHistory.RunKeyIsInjective` | console/lib/tokens.ts:121 | a run's key determines its state and its name |
| `TokenHistory.LinesStandForTheDead` | console/lib/tokens.ts:100-140 | one line for each group with a dead row, standing for all of its dead rows and no other; only workflow identities of one name and state are merged |
| `TokenHistory.NewestFirstIsAStableSort` | console/lib/tokens.ts:141 | the list is newest first, has every line once, and keeps lines of one moment in order |
| `TokenHistory.HistoryConserves` | console/lib/tokens.ts:78-142 | the counts sum to the dead rows, the used ones to those ever used, and nothing live is listed |
| `TokenHistory.HistoryCountsTheDead` | console/lib/tokens.ts:44-48 | the history counts exactly the rows that are revoked or whose expiry can be read and is not after now |
| `TokenHistory.LinesSayWhatIsSo` | console/lib/tokens.ts:100-142 | a line reads revoked exactly when its rows are, and expired exactly when they are past expiry and not revoked; a single credential keeps its prefix, key and times |
| `TokenHistory.OneLineForARun` | console/lib/tokens.ts:119-126 | two dead rows share a line if and only if they are workflow identities of one name, both revoked or both not |
| `TokenHistory.RunIsKnownBy` | console/lib/tokens.ts:121-126 | the key of a run's line is what became of its credentials and its name |
| `CopyOnWrite.CopyOnWriteSettings` | engine/conformance/cow.go:553-622 | options, overrides and defaults are resolved or refused as the floors say, the product in 64 bits |
| `CopyOnWrite.SettingsAreAcceptedExactlyWhen` | engine/conformance/cow.go:553-622 | each refusal and the acceptance of settings under its exact condition on what the environment, else the options, else the defaults give |
| `CopyOnWrite.WrappedIsCongruent` | engine/conformance/cow.go:586-592 | the 64-bit product is the exact one less a multiple of 2^64 |
| `CopyOnWrite.DeltaTooSmallExactlyWhen` | engine/conformance/cow.go:338-346 | a run is refused before timing exactly when less than half the declared difference is on disk |
| `CopyOnWrite.AllowanceIs` | engine/conformance/cow.go:246-255 | the allowance is the larger of the floor and the scaled gap between the two best readings |
| `CopyOnWrite.RatioHoldsExactlyWithoutWrapping` | engine/conformance/cow.go:586-592 | accepted sizes are sixteenfold apart if and only if the product did not wrap |
| `CopyOnWrite.DeltaIsPositive` | engine/conformance/cow.go:338-346 | with such settings a run that gets to timing divides by a positive delta |
| `CopyOnWrite.WrappedRatioIsAccepted` | engine/conformance/cow.go:586-592 | a small size of 2^60 bytes is accepted with a smaller large one |
| `CopyOnWrite.MinDuration` | engine/conformance/cow.go:827-835 | the loop finds the least reading |
| `CopyOnWrite.SortSlice` | engine/conformance/cow.go:253 | sorting in place leaves the same readings ascending |
| `CopyOnWrite.MinimaGap` | engine/conformance/cow.go:251-255 | the distance between the best and the second best reading, counting repeats |
| `CopyOnWrite.StatisticsAreUnique` | engine/conformance/cow.go:246-255 | best and second best are fixed by the readings as a multiset |
| `CopyOnWrite.CopyOnWriteMatchesTheDeclaration` | engine/conformance/cow.go:323-480 | each refusal is given exactly under its condition; the growth test refuses one declaration or the other |
| `CopyOnWrite.VerdictIgnoresOrder` | engine/conformance/cow.go:379-382 | the verdict does not depend on the order of the samples |
| `CopyOnWrite.VerdictIgnoresACommonDelay` | engine/conformance/cow.go:379-382 | nor on a delay common to every sample |
| `CopyOnWrite.VerdictIgnoresSlowSamples` | engine/conformance/cow.go:187-244 | nor on samples other than the small arm's two best and the large arm's best being slower |
| `CopyOnWrite.CopyIsRefusedExactlyWhen` | engine/conformance/cow.go:431-468 | under fixed costs and noise, a copy is refused exactly when it beats the allowance by the difference of the best noise |
| `CopyOnWrite.SlowCopyMayPass` | engine/conformance/cow.go:386-394 | a copy that costs more than the allowance can pass |
| `HookOrdering.Parse` | deploy/helm/hook-ordering-check.py:38-52 | the table is what the documents give it, the last of a name winning |
| `HookOrdering.TableKeepsUniqueNames` | deploy/helm/hook-ordering-check.py:38-52 | nothing is lost in the table if and only if no two documents share a name |
| `HookOrdering.SecretProblems` | deploy/helm/hook-ordering-check.py:66-82 | a reader is charged with exactly the references to normal resources and to hooks not earlier by weight |
| `HookOrdering.Check` | deploy/helm/hook-ordering-check.py:55-105 | the problems reported are exactly those of the kept manifests, and the exit code follows |
| `HookOrdering.SafeExactlyWhenReadsComeBefore` | deploy/helm/hook-ordering-check.py:4-19 | every admissible creation order has each secret before the pod that reads it if and only if each read is of a hook of lower weight |
| `HookOrdering.CheckJudgesWhatItKeeps` | deploy/helm/hook-ordering-check.py:61-82 | no secret problem is found if and only if the kept documents are safe in every order and every other resource that bears the name of a secret read comes before its reader |
| `HookOrdering.CheckIsExact` | deploy/helm/hook-ordering-check.py:61-82 | with unique names the same holds of the chart itself: the check passes exactly the safe charts without a namesake that comes too late |
| `HookOrdering.NamesakeIsTakenForASecret` | deploy/helm/hook-ordering-check.py:66-82 | a chart that reads no secret of its own is refused for a deployment of the secret's name |
| `HookOrdering.PassIsSoundExactlyForUniqueNames` | deploy/helm/hook-ordering-check.py:38-52 | the pass means safety for every chart with these names if and only if no name repeats |
| `HookOrdering.SharedNameHidesASecret` | deploy/helm/hook-ordering-check.py:38-52 | with a shared name an install that cannot work is passed |
| `AccountOrdering.CheckedKindsAre` | deploy/helm/hook-ordering-check.py:34-35 | hooks of six kinds are held to their references and hooks of no other kind |
| `AccountOrdering.EqualWeightsAreRefused` | deploy/helm/hook-ordering-check.py:77-82 | a secret that is a hook passes exactly at a lower weight than its reader |
| `AccountOrdering.AccountCheckAsksForHooks` | deploy/helm/hook-ordering-check.py:84-90 | with unique names no fault is found with accounts exactly when each one named by a hook's pod is itself a hook |
| `AccountOrdering.AccountsInTimeExactlyWhen` | deploy/helm/hook-ordering-check.py:4-19 | every admissible creation order has each account before its pods if and only if it is a hook of lower weight |
| `AccountOrdering.AccountCheckIsRightExactlyWhen` | deploy/helm/hook-ordering-check.py:84-90 | of a chart that passes, the accounts are in time if and only if each has a lower weight than the pods that run as it |
| `AccountOrdering.LateAccountPasses` | deploy/helm/hook-ordering-check.py:84-90 | an account that is a later hook than its pod passes |

## Left out

- MoveShowsWhatWasDropped: holds on whole pages whose anchors each name the section just before; `MoveConditions` decides every other page and `PageRows` the rows of one page.
- MoveShowsTheDropExactlyWhen: takes the whole list of the group; `RowsShowTheDropExactlyWhen` is the same for the rows of one page.
- OutstandingSaveIsCommittedIffNextDraftIsIts: the identifier of a draft's writer is kept by the store only; an editor can see the two conditions on drafts and documents that follow from it.
- ParseReport: is given clean reports only, because the source's loop does not end on any other (`ParserHaltsOnCleanReports`).
- The inline `segments` of a report's text. The parser starts from the lines; `SourceLines` splits a text into them.
- Check: the order of the messages and their wording; `problems` is compared as a set of charges.
- SortSlice: the library's sort is given as an insertion sort, and its comparison as `<=` on numbers.
- CopyOnWriteMatchesTheDeclaration: takes the readings as given; clocks, branches, ballast, logging, the floating-point figures and the weighing of the last branch are not modelled.
- Website documents are abstract values that stand for their canonical JSON text; validating, copying and freezing them is a flag or absent.
- Listeners: `subscribe`, `onChange` and calls made from inside them.
- Store checks on assets, incomplete pages and stored documents are one flag, `acceptable`; the audit log and refresh jobs are absent.
- Identifiers the website package would not accept are not filtered out before ordering.
- Labels, kinds and content of sections as displayed; `resetSection`.
- Line terminators inside a line, and numbers that are not whole, in live events and elsewhere.
- Rendering: that a render takes in every state set before it, and that an effect runs before the next render, is assumed.
- Timestamps of credentials are numbers in the order of their text.
- The parsing of rendered YAML, and hooks that run after the release.
- `usePages`, whose further pages have no sequence guard.
