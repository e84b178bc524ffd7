# PressLabz: the content core, verified

PressLabz is a content management system. Several editors, a scheduler and a public site share
one database and one page cache. This project models the parts whose guarantees come from
hand-written protocols and index arithmetic, and proves what they promise.

**The content repository** (`Store*.dfy`). Documents, translation groups, revisions and the
media mirror are committed tables. Transactions run one statement at a time: take one row lock
and read the latest committed row, read a statement snapshot without locks, commit, or abort.
A transaction's writes become visible together. Abort is always possible, so the theorems are
about safety, over every interleaving: the page tree stays a forest of depth at most 8 although
the height of a moved subtree is read without locks; groups stay sound; no save is lost;
a scheduled document is published by exactly one pass; the mirror stays exact; everything the
public can see was put there by somebody allowed to publish. The proof is a rely argument:
`StoreInvariants` says what a transaction may rely on while it holds its locks, `StoreSteps`
that its own steps build that up, `StoreCommits` and `StoreCommitProofs` that nobody else's
commit takes it away. `ParentCheck` proves the ancestor walk itself, as the loop it is, against
a description that mentions no walk. `StoreHistories` traces what a state holds back to the
steps behind it; `StoreWalks` and `StoreProgress` say exactly when a write nobody is in the way
of commits, in the terms of `ParentCheck`. `StoreExamples` builds runs that reach the states the
theorems warn of.

**The page cache** (`Cache*.dfy`, `PageCache.dfy`). `CacheState` describes each script as one
step, `PageCache` proves the scripts' loops equal to those steps, `CacheCoherence` interleaves
lookups, renders, writes, purges and stores, and shows that no hit predates a purged write.
Content is known by its version per tag, so a page is known by the versions it was rendered
from. A set that loses its last member stays as an empty one, which no script can tell apart
from a deleted one.

**Text editing** (`InlineText.dfy`, `Editing.dfy`, `UniqueIds.dfy`). An edit of marked text is
proved to be a splice on characters with marks, and to leave no run to spare.

**Rendering** (`HtmlTokens.dfy`, `Render.dfy`). A reader of HTML, written without the renderer in
mind, finds balanced tags from the whitelist in everything the renderer prints, and gets back
the plain text with its marks.

**The rest**: the media mirror as a table (`MediaReferences.dfy`, `MediaMirror.dfy`), revisions
(`Revisions.dfy`), permissions (`Access.dfy`), patches and restores (`ContentModel.dfy`), the
public reads (`ReadSide.dfy`), listing pages and their cursors (`Paging.dfy`, `CursorToken.dfy`)
and the listing of a repository that is written to meanwhile (`Listing.dfy`), the upload gate
(`Admission.dfy`). `Ranges.dfy` cuts sequences.

## What does not hold as written

- Pruning orders by `createdAt`, which is the start time of the recording transaction. A writer
  that started first and waited for another commits a newer version with an older time.
  `StoreTheorems.HistoryIsTheNewestIff` gives the exact condition over a run,
  `StoreExamples.HistoryCanHaveAGap` a run that keeps an older version and drops a newer one,
  `Revisions.LateWriterLosesItsRevision` a history that drops its newest. The bound of 50 needs
  no condition.
- At `limit = 100` the look-ahead row is cut off and there is never a second page:
  `Paging.TraversalCompleteIff`.
- A new document's instant has microseconds, a cursor has milliseconds. A row inserted in the
  same millisecond as the last row of a page is skipped: `Paging.SameMillisecondRowIsLost`, and
  the exact conditions in `Paging.TraversalCompleteIff` and `Paging.UntouchedRowsComeOnce`.
- A save stamps whole milliseconds, so a document saved in the millisecond it was created in
  moves down the listing and can be shown twice: `Listing.NewDocumentCanComeTwice`. Nothing else
  is ever shown twice: `Listing.ComesTwiceOnlyWhenNew`.
- `decodeCursor` says it is null for anything the API did not issue. It also accepts tokens with
  spare bits set, with padding, whitespace or the other alphabet's letters, with a date spelled
  in another way, and with the id in capitals: `CursorToken.AcceptedButNeverIssued`,
  `CursorToken.OtherSpellingIsAccepted`, `Listing.CapitalsAreAccepted`. Of the tokens that name
  a place, `Listing.PlaceTokenIsIssuedIff` says exactly which one is issued for a row there;
  whether a row is there is not looked up.
- One page's cache entry and another page's tag list have the same key exactly when the first
  page's key is the second's followed by `:tags`: `CacheKeys.PageMeetsTagListIff`. The cache
  theorems are about keys that do not meet.
- A render that takes longer than the stamp lifetime can store a stale page; no other can:
  `CacheCoherence.NeverStaleIff`.
- The first block with an id keeps it only if no id drawn for an earlier block happens to be the
  same: `UniqueIds.FirstKeepsItsId`, `UniqueIds.FirstCanLoseItsId`.

## Model

| member | source | states |
|---|---|---|
| StoreTheorems.TreeStaysForest | packages/db/src/repositories/contents.ts:1136-1233 | in every interleaving of creates, moves and deletes, each document reaches a root within 8 rows, none is its own ancestor, and a parent shares its child's type and language |
| StoreTheorems.GroupsStaySound | packages/db/src/repositories/contents.ts:455-565 | every committed group has a member, one type and one document per language, and no document names a missing group |
| StoreHistories.JoinSeesFinalMembers | packages/db/src/repositories/contents.ts:515-565 | whenever a joining document is about to be inserted, there was an earlier step at which its author was allowed to join, and the group still has exactly the members it had at that step |
| StoreTheorems.MirrorStaysExact | packages/db/src/repositories/contents.ts:946-983 | at every commit point the mirror holds a row if and only if the live document names the asset there, and every named asset exists |
| StoreTheorems.VersionsMoveByOne | packages/db/src/repositories/contents.ts:646-690 | an accepted save, restore or publication adds exactly one version; any other event leaves version, revisions and all fields but the parent alone |
| StoreTheorems.VersionsNeverGoBack | packages/db/src/repositories/contents.ts:675-690 | along any run a document's version never decreases and a deleted document never returns |
| StoreTheorems.NoLostUpdate | packages/db/src/repositories/contents.ts:652-657 | a committed save replaced exactly the version it was composed against, and was authorized against that row |
| StoreTheorems.StaleSaveNeverCommits | packages/db/src/repositories/contents.ts:646-657 | once a document has moved past a version, no save composed against that version ever commits |
| StoreTheorems.PassReturnsWhatItPublished | packages/db/src/repositories/contents.ts:855-908 | a pass returns exactly the documents it moved from scheduled and due to published, each with one version and one revision, and touches no other |
| StoreTheorems.PublishedExactlyOnce | packages/db/src/repositories/contents.ts:824-831 | two passes that both return a document return different publications of it, in version order |
| StoreTheorems.DueStaysInPass | packages/db/src/repositories/contents.ts:866-878 | a row that stays due from the scan on is still to be claimed or claimed, however long the pass waits for locks |
| StoreHistories.PassMissesNothing | packages/db/src/repositories/contents.ts:866-900 | a pass gets round to every row that was due at its scan, however long it waits for the row's lock, and publishes it if and only if the row is still due when it is claimed |
| StoreTheorems.EditorRefusedAfterPublication | packages/db/src/repositories/contents.ts:816-828 | an editor still holding the version a pass superseded never gets a save accepted |
| StoreTheorems.HistoryIsBounded | packages/db/src/repositories/contents.ts:912-925 | never more than 50 revisions, all of versions before the current one |
| StoreTheorems.HistoryIsTheNewest | packages/db/src/repositories/contents.ts:1024-1051 | over any run that records in order, the history in each state is exactly the last 50 superseded versions, without a gap |
| StoreTheorems.HistoryIsTheNewestIff | packages/db/src/repositories/contents.ts:1024-1051 | throughout a run the history is exactly the last 50 superseded versions if and only if at every write that finds it full the lowest version is the one recorded first |
| StoreExamples.HistoryCanHaveAGap | packages/db/src/repositories/contents.ts:1040-1051 | a run in which two writers commit in the other order than they began, after which pruning has kept version 1 and dropped version 2 |
| StoreHistories.RevisionsAreReal | packages/db/src/repositories/contents.ts:1024-1036 | in every reachable state each revision kept is the document as it stood in an earlier state of the run, at that version |
| StoreHistories.RestoreReturnsToRealState | apps/api/src/content/routes.ts:583-636 | a restore that commits puts the document back to the state it had in an earlier state of the run, less a parent the type no longer has |
| StoreHistories.EveryWriteIsUndoable | apps/api/src/content/routes.ts:575-636 | in every run, restoring the revision a save, restore or publication recorded brings back the state it replaced, whatever happened in between |
| StoreTheorems.PublicChangeIsApproved | apps/api/src/content/routes.ts:842-850 | the status, slug, text, metadata and date of a published or scheduled document change, appear or vanish only by a write whose actor passed the publish check on the row replaced, or by a pass |
| StoreTheorems.EverythingShownWasApproved | packages/core/src/content-types.ts:450-495 | whatever is published or scheduled was put there, word for word, by an earlier write of an actor allowed to publish |
| StoreTheorems.ScheduledHasDate | packages/core/src/content-types.ts:302-305 | in every reachable state a scheduled document has a date |
| StoreEffects.EventEffect | packages/db/src/repositories/contents.ts:624-810 | an event does to a document one of seven things: nothing, detach it from a deleted parent, save, publish, insert, remove, leave it absent, each with its whole new row and its authorization |
| StoreSafety.ApplyKeepsInv | packages/db/src/repositories/contents.ts:440-455 | no event of any transaction breaks the committed invariants or what any other transaction in flight relies on |
| StoreProgress.SaveCommitsIff | packages/db/src/repositories/contents.ts:624-700 | an uncontended save commits if and only if version, rules, authorization, slug and added assets all pass and, when it moves the document, the new parent is one the parent check describes as usable |
| StoreProgress.CreateCommitsIff | packages/db/src/repositories/contents.ts:455-565 | an uncontended create commits if and only if the group lets it in, its parent is usable, and slug and assets pass |
| StoreWalks.MovesOnlyUnderUsable | packages/db/src/repositories/contents.ts:671-683 | in every interleaving, a save that moves a document commits only when at that moment the new parent is usable in the sense of the parent check |
| StoreProgress.OppositeMovesOnlyAbort | packages/db/src/repositories/contents.ts:1128-1134 | two saves placing two documents under one another can take no further step but an abort |
| StoreExamples.OppositeMovesHappen | packages/db/src/repositories/contents.ts:1128-1134 | a run that reaches such a state |
| Forest.GraftKeepsForest | packages/db/src/repositories/contents.ts:1200-1207 | depth of the parent plus height of the moved subtree at most 8 keeps every row of the table within depth 8 |
| Forest.GraftLevels | packages/db/src/repositories/contents.ts:1128-1134 | hanging a row under a chain adds nothing to the subtree of any row off that chain, so a locked row's subtree cannot grow |
| Forest.RemovalKeepsForest | packages/db/src/repositories/contents.ts:794-796 | detaching children and deleting a row keeps the depth bound |
| Forest.SubtreeHeightExact | packages/db/src/repositories/contents.ts:1217-1233 | the bounded recursive query gives the exact height up to the limit, and exceeds the limit exactly when the subtree does |
| ParentCheck.AssertUsableParent | packages/db/src/repositories/contents.ts:1136-1208 | accepts exactly the parents at the end of a root path that avoids the child, with the right type and language and room below; on a forest each refusal names its reason |
| ParentCheck.AcceptedMoveKeepsForest | packages/db/src/repositories/contents.ts:1136-1208 | an accepted placement leaves a forest within the limit |
| Revisions.TopIsBounded | packages/db/src/repositories/contents.ts:1040-1051 | pruning leaves 50 rows, or all of them when there are fewer |
| Revisions.PruneKeepsNewestIff | packages/db/src/repositories/contents.ts:1040-1051 | pruning keeps the newest versions if and only if there is nothing to prune or the lowest version was recorded first |
| Revisions.RecordingKeepsNewest | packages/db/src/repositories/contents.ts:1024-1051 | recording in time order keeps the last 50 versions contiguous |
| Revisions.RecordingKeepsNewestIff | packages/db/src/repositories/contents.ts:1024-1051 | one recording keeps the history contiguous if and only if there is room or the lowest version was recorded first |
| Revisions.SwappedWritersLeaveAGap | packages/db/src/repositories/contents.ts:1040-1051 | two neighbouring versions recorded in swapped order: the older one stays and the newer one is dropped |
| Revisions.LateWriterLosesItsRevision | packages/db/src/repositories/contents.ts:1040-1051 | a full history for which pruning drops the revision just written |
| ContentModel.PatchMeaning | packages/db/src/repositories/contents.ts:659-664 | for every field, an absent key keeps the stored value, a null clears it, a value replaces it; only entering published without a word on the date fills in a missing one; the result follows the type's rules |
| ContentModel.EmptyPatchIsIdentity | packages/core/src/content-types.ts:328-347 | a save that says nothing changes nothing |
| ContentModel.RestoreIsExact | packages/db/src/repositories/contents.ts:1085-1096 | from any current state a restore is accepted exactly when the recorded state, less a parent the type no longer has, satisfies the type; then it reproduces all eight recorded fields, empty ones included |
| ContentModel.RestoreIsUndoable | apps/api/src/content/routes.ts:625-636 | restoring the revision a restore leaves behind brings back the state before it |
| Access.WriteCostsPublish | packages/core/src/content-types.ts:450-475 | entering, staying in or leaving a publishable status costs the publish check, and nothing else does |
| Access.DeleteCostsPublish | packages/core/src/content-types.ts:482-495 | deleting costs the publish check exactly when the document is publishable |
| MediaReferences.MediaReferencesOf | packages/core/src/content-types.ts:656-679 | exactly what the document names, each asset and source once, in lock order, each at its first place |
| MediaReferences.SortedEntries | packages/core/src/content-types.ts:676-678 | all entries of a map, strictly ascending by asset and then source |
| MediaMirror.MirrorTable.SyncMediaReferences | packages/db/src/repositories/contents.ts:946-983 | the table becomes what a full rewrite would give by inserting only missing rows in ascending order, or is left as it was when an added asset is absent |
| MediaMirror.MirrorTable.DeleteMedia | packages/db/src/repositories/media.ts:138-170 | an asset goes if and only if it exists and no mirror row names it, and no mirror row is ever left naming a missing asset |
| MediaMirror.MirrorTable.ReconcileMediaReferences | packages/db/src/repositories/media-references.ts:91-291 | ready means the table is exactly the wanted set from any starting table, pending means no row changed and every dangling reference is listed |
| MediaMirror.MirrorTable.ReconcileTwice | packages/db/src/repositories/media-references.ts:87-89 | a second run with no write between adds and removes nothing and gives the same verdict |
| MediaMirror.SyncMatchesRebuild | packages/db/src/repositories/contents.ts:937-983 | saving one document by difference gives what rebuilding the whole table would |
| ReadSide.AncestryCompleteIff | packages/db/src/repositories/public-contents.ts:198-230 | on any table the walk is complete exactly when a root path of at most 8 rows of that type and language exists, and returns that path |
| ReadSide.ListedIff | packages/db/src/repositories/public-contents.ts:274-337 | on any table a row is in the recursive query's result exactly when a fully visible root path within the limit leads to it |
| ReadSide.SitemapListsIff | packages/db/src/repositories/public-contents.ts:274-337 | on any table the sitemap lists, newest first, rows with a fully visible root path, and leaves such a row out only when it already lists as many as its limit, none of them older |
| ReadSide.ReadSideIsTotal | packages/db/src/repositories/public-contents.ts:198-337 | on any tree the write side accepts, ancestry is complete, and the sitemap lists a document at exactly that path if and only if it and all its ancestors are visible |
| ReadSide.ReadSideIsTotalInEveryRun | packages/db/src/repositories/public-contents.ts:157-170 | the same in every reachable state of the repository |
| ReadSide.PathsIdentify | packages/db/src/repositories/public-contents.ts:189-197 | two listed documents of one type and language never share a path |
| CacheState.TickKeepsIndex | packages/cache/src/store.ts:196-204 | expiry never removes a live page from a set it belongs to, because sets outlive the pages in them |
| CacheState.StoreKeepsIndex | packages/cache/src/store.ts:101-139 | a store leaves every live page in the set of every tag it was last stored with |
| CacheState.PurgeKeepsIndex | packages/cache/src/store.ts:141-177 | so does a purge |
| CacheState.PurgeReachesEveryPage | packages/cache/src/store.ts:152-177 | no live page last stored with a purged tag survives the purge |
| CacheState.StoreKeepsInverse | packages/cache/src/store.ts:119-139 | while nothing expires, the two tag indexes stay exact inverses under stores |
| CacheState.PurgeKeepsInverse | packages/cache/src/store.ts:145-150 | and under purges |
| CacheState.PurgeIsExact | packages/cache/src/store.ts:145-177 | while nothing expires, a purge removes exactly the pages that carry a purged tag |
| PageCache.PageCache.Lookup | packages/cache/src/store.ts:88-93 | a hit is a live page standing in the set of each of its tags, so that a purge of any of them removes it; on hit and miss the clock is no earlier than any stamp, so a page rendered from here is refused only for a purge of that millisecond or later |
| PageCache.PageCache.Store | packages/cache/src/store.ts:101-139 | refused, with nothing changed, exactly when a tag's stamp is at or after the lookup; otherwise the two index loops amount to one replacement of the page's tags |
| PageCache.PageCache.PurgeTags | packages/cache/src/store.ts:152-177 | the nested loops remove every page with a purged tag, leave every other set in step, and return how many pages went, each counted once |
| PageCache.PurgeOneMore | packages/cache/src/store.ts:152-177 | purging tag after tag equals purging them together, in any order |
| CacheCoherence.HitsAreCoherent | packages/cache/src/astro/runtime.ts:79-130 | in every interleaving, a hit carries every tag it was rendered from and includes every write a finished purge of that tag covers |
| CacheCoherence.PurgedWriteIsNeverMissed | packages/cache/src/store.ts:101-117 | after a write's purge has run, no later hit of a page with that tag predates the write |
| CacheCoherence.LetThroughIsFresh | packages/cache/src/store.ts:101-117 | a page the stamp check lets through read nothing purged at or after its lookup, same millisecond included |
| CacheCoherence.NeverStaleIff | packages/cache/src/store.ts:79-84 | for any lifetimes, no run with renders up to a given delay holds a stale page if and only if that delay is at most the stamp lifetime |
| CacheKeys.PageMeetsTagListIff | packages/cache/src/store.ts:202-208 | a page's key is a tag list's key exactly when the page's name is the other's followed by the suffix |
| CacheKeys.FamiliesAreApart | packages/cache/src/store.ts:202-208 | no other two kinds of key ever meet |
| CacheKeys.FamiliesAreInjective | packages/cache/src/store.ts:202-208 | within a kind, different names have different keys |
| CacheKeys.PageKeysAreDistinct | packages/cache/src/store.ts:183-194 | different paths keep different entries as far as the digest tells two unreadable ones apart |
| CacheKeys.ReadablePagesCanMeet | packages/cache/src/store.ts:189-194 | the readable form does not exclude the meeting |
| InlineText.CanonicalIsMinimal | packages/blocks/src/editing.ts:125-148 | content without empty runs and without equal neighbours has exactly as many runs as its characters have stretches of equal marks |
| Editing.CommonPrefix | packages/blocks/src/editing.ts:19-24 | the longest common prefix |
| Editing.CommonSuffix | packages/blocks/src/editing.ts:27-34 | the longest common suffix that stays clear of the prefix |
| Editing.Slice | packages/blocks/src/editing.ts:37-55 | exactly the characters of the range, each with its marks |
| Editing.NodeAt | packages/blocks/src/editing.ts:58-68 | the run an offset falls in, and none exactly past the end |
| Editing.InlineToText | packages/blocks/src/editing.ts:70-72 | the text of all runs |
| Editing.InheritedMarks | packages/blocks/src/editing.ts:100-123 | the marks of the one run that holds the whole change, none when there is no such run |
| Editing.Merge | packages/blocks/src/editing.ts:132-148 | the same marked characters with no empty run and no equal neighbours |
| Editing.ReplaceInlineText | packages/blocks/src/editing.ts:84-123 | the text becomes the target; every character outside the change keeps its marks in place; inserted characters share the inherited marks; a changed result is canonical with at most one run more |
| Editing.RunsAfterSplice | packages/blocks/src/editing.ts:100-123 | an edit adds at most one run of marks |
| UniqueIds.WithUniqueIds | packages/blocks/src/editing.ts:171-186 | all ids differ, nothing but ids changes, each block's id changes exactly when it is already in use, and the new ids are those the generator offers first |
| UniqueIds.DistinctStaysPut | packages/blocks/src/editing.ts:157-170 | a document without repeated ids comes back unchanged |
| UniqueIds.FirstKeepsItsId | packages/blocks/src/editing.ts:166-169 | the first block with an id keeps it if and only if the id is not among those drawn from the generator for the blocks before it |
| UniqueIds.ForeignIdsTakeNobodysPlace | packages/blocks/src/editing.ts:166-169 | a generator that never yields an id of the document leaves every first occurrence as it is |
| UniqueIds.FirstCanLoseItsId | packages/blocks/src/editing.ts:166-169 | with a generator that counts up from 2, the ids 1, 1, 2 cost the last block its id |
| HtmlTokens.ReadsValue | packages/blocks/src/render.ts:43-45 | an escaped string between quotes reads back as itself |
| Render.RenderInline | packages/blocks/src/render.ts:78-88 | the mark loop, run from the innermost mark, nests the first mark outermost |
| Render.InlineRoundTrip | packages/blocks/src/render.ts:43-88 | for any runs and marks the tags nest, are whitelisted and link only to safe targets; removing tags and escapes gives the plain text, and taking tags for marks gives every character back with its marks, unsafe links aside |
| Render.BlocksAreProper | packages/blocks/src/render.ts:90-138 | every block list renders to balanced, whitelisted HTML in which every character and image is seen once, in order, under exactly the tags of its block |
| Render.BlocksToPlainText | packages/blocks/src/render.ts:149-177 | every non-empty text of every block, in order, one a line |
| Render.PlainTextMatchesHtml | packages/blocks/src/render.ts:136-181 | the HTML and the plain text say the same words in the same order if and only if no captioned image is missing |
| Paging.TraversalCompleteIff | packages/db/src/repositories/contents.ts:288-290 | following the cursors returns the listing, each row once and in order, if and only if the limit is below 100 and no boundary loses a row, or the limit is 100 and one page holds everything |
| Paging.WholeLosesNothing | apps/api/src/content/routes.ts:326-340 | with whole-millisecond instants no boundary loses a row |
| Paging.LostIff | packages/db/src/repositories/contents.ts:274-278 | exactly which later rows the rounded cursor skips |
| Paging.UntouchedRowsComeOnce | apps/api/src/content/routes.ts:326-340 | while others write between pages, a row nobody touches comes exactly once if and only if it lies after the start and no page's last row loses it |
| Paging.ShownInOrder | packages/db/src/repositories/contents.ts:270-283 | whatever rows do between pages, the rows shown are in strict listing order |
| Paging.WholeUntouchedRowsCome | apps/api/src/content/routes.ts:326-340 | with whole-millisecond instants every untouched row after the start comes exactly once |
| Paging.NoDocumentComesTwice | packages/db/src/repositories/contents.ts:230-237 | while instants only grow, no document is shown twice, even one that is saved in between |
| Listing.ComesTwiceOnlyWhenNew | packages/db/src/repositories/contents.ts:230-237 | in every run of the repository, a document shown twice is shown first unsaved and then saved, in the very millisecond it was created in |
| Listing.InstantsRarelyGoBack | packages/db/src/repositories/contents.ts:686-690 | along any run a document's modification instant goes back only by a first save in the millisecond of its creation |
| Listing.NewDocumentCanComeTwice | packages/db/src/repositories/contents.ts:230-237 | a run of the repository, and two pages read from it, that show such a document twice |
| Listing.TokensFollow | apps/api/src/content/routes.ts:300-340 | sending back each page's token is never refused and shows the same rows as following the places themselves |
| Paging.SameMillisecondRowIsLost | packages/db/src/repositories/contents.ts:274-278 | a listing in which a new row is never shown |
| CursorToken.Base64UrlRoundTrip | packages/core/src/cursor.ts:31-42 | what was printed from Latin-1 text reads back as that text |
| CursorToken.TokenIsUrlSafe | packages/core/src/cursor.ts:31-34 | the token uses only the alphabet of section 5 of RFC 4648, without padding |
| CursorToken.AcceptedTokenIsIssuedIff | packages/core/src/cursor.ts:44-65 | of the tokens that decode to a cursor, whatever characters they use, the one printed for it is the one of url letters only, with zero spare bits and the date spelled as the printer spells it |
| Listing.PlaceTokenIsIssuedIff | packages/core/src/cursor.ts:29-65 | of the tokens that name a place in the listing, the one issued for it is the one of url letters only, with zero spare bits and with both date and id spelled as they are printed |
| Listing.CapitalsAreAccepted | packages/db/src/repositories/contents.ts:274-278 | a row's token with the id in capitals names the same row and differs from an issued token in nothing else |
| CursorToken.AlteredTokenIsAccepted | packages/core/src/cursor.ts:48-65 | an issued token with its last letter replaced by any of the fifteen that differ in spare bits decodes to the same cursor and was never issued |
| CursorToken.OtherSpellingIsAccepted | packages/core/src/cursor.ts:60-63 | so does a token whose date text is any other spelling the date reader takes |
| CursorToken.CursorRoundTrip | packages/core/src/cursor.ts:44-65 | a printed cursor reads back as the same place |
| CursorToken.AcceptedButNeverIssued | packages/core/src/cursor.ts:48-65 | a concrete cursor with an issued token ending in one letter, and the same token ending in the next letter, accepted and never issued |
| Admission.PermitsAreConserved | apps/api/src/media/admission.ts:135-190 | over any run, permits in use are the slots given out and not given back, never above the limit; waiters are bounded and wait only while every permit is out |
| Admission.AnswersAreFinal | apps/api/src/media/admission.ts:191-227 | a request is answered at most once, and whoever has no answer is in the queue |
| Admission.GrantedInArrivalOrder | apps/api/src/media/admission.ts:143-165 | when a request holds a slot, everybody who arrived before it has had an answer |
| Admission.ReleaseIsIdempotent | apps/api/src/media/admission.ts:150-156 | a second release of a slot changes nothing |
| Admission.ApplyKeeps | apps/api/src/media/admission.ts:135-227 | acquire, release, abort and deadline keep the count, the bounds, the listeners and the order |
| Admission.AdmissionGate.Acquire | apps/api/src/media/admission.ts:181-227 | a slot at once, a place in the queue or a refusal, by the permits and places left, keeping the gate's invariant |
| Admission.AdmissionGate.Release | apps/api/src/media/admission.ts:146-166 | the permit passes to the longest waiting request, or becomes free |
| Admission.AdmissionGate.GiveUp | apps/api/src/media/admission.ts:196-222 | a deadline or an abort takes a waiting request out of the queue, and does nothing to an answered one |

## Left out

- StoreTheorems.DueStaysInPass: the pass claims its rows in any order, not by date and id; the fixed order serves to avoid deadlock, and liveness is not claimed anywhere.
- ContentModel.PatchMeaning: the field validators (slug shape, lengths, metadata schema) are one predicate of the content type.
- Render.InlineRoundTrip: which link targets are safe is a predicate the caller supplies, because URL parsing is not modelled.
- CursorToken.CursorRoundTrip: the language's date printer and reader are parameters that are assumed to read back what they print.
- ReadSide.SitemapListsIff: titles, excerpts and metadata in a row are not modelled; rows of one instant may come in any order, as in the query.
- Listing.ComesTwiceOnlyWhenNew: the database and the application read one clock; drift between two is not modelled.
- UniqueIds.WithUniqueIds: the id generator must go on offering unused ids, or the loop would not end.
- Editing.InheritedMarks: a run is known by its position; one object standing at two positions is not modelled. Marks are compared by their fields.
- PageCache.PageCache.Lookup: a stored payload that no longer parses, which counts as a miss, is not modelled; neither is clearing the whole namespace.
- MediaMirror.MirrorTable.ReconcileMediaReferences: runs on one unchanging set of documents, as its table lock provides; the read-back comparison and the count of revisions are not modelled.
- Whether a page's tags cover everything it reads, and pages that become visible with no write: the tags are taken as given.
- Locks on assets and the unique index: foreign keys and slug uniqueness are checked at the moment of commit. Deleting a document takes its mirror rows and revisions with it, and a new document has version 1, as the schema says.
- Deleting a user, which empties author columns, and repairing tables written before the constraints existed.
- Ids are numbers; only their equality and order matter.
- HTTP, hooks, rate limits, sessions, image processing, object storage and orphaned bytes, the admin and the themes.
- The timers of the upload gate: a deadline may strike at any moment. The range checks on its options are a precondition.
- Deadlock freedom, fairness and termination of transactions.
