# Memory service: a verified model

This project models the stateful core of a personal memory service and proves what it keeps: a
bi-temporal knowledge graph, the protocol by which processes own palace directories, the lock and
the cancellation-safe executor in front of a vector store, an invalidation that spans three stores
without a transaction, and four small algorithms around them.

`dafny verify dfyconfig.toml` checks everything.

## How it is laid out

- **The graph.** `KnowledgeGraph` gives every SQL statement its meaning on the three
  tables (statements, entities, mentions), with "now" and the timestamp parser as parameters.
  `GraphStore` is the object whose methods update the tables and is proved against those functions.
  `GraphWrites` says in columns what each write stores and which reads show it,
  `GraphRuns` proves what any run of writes keeps, `GraphMoves` what audience moves do to that,
  `GraphMentions` which mentions are stored, `GraphHistory` what writes do to the past, and
  `Forgetting` what receipts are worth when a disk fails or a forget is cut off.
  `Timestamps` has the normaliser and the order of its texts, `Audience` the audience tokens,
  `Text` string order, white space and occurrence.
- **The reads.** `Ranking` is the theory of an ordered query that is cut: `IsTop` is the answer,
  `Covers` says what a cut may lose. `EntityMatching`, `RelevanceQuery`, `SubjectQuery`, `Timeline`
  and `SourceTurnSeeds` prove the rewritten fast forms (substring seeks in chunks, a union of two
  cut branches, one branch per subject, keyset paging, aggregation in chunks) against the plain
  questions. SQL leaves the order of equal rows open, so the answer is a relation and not a function.
- **Palace ownership.** `LockFiles` and `SafeNames` are the lock files and how they are named.
  `PalaceOwnership` is the protocol: any number of processes, one step between two points where
  another process can be scheduled, crashes included. `PalaceRouter` is the router object of one
  process; each of its calls is also shown to be a run of the protocol.
- **Lock and executor.** `SpaceLock` is the readers-writer lock as the steps its users take between
  awaits, including lost and found wake-ups. `LockedBackend` puts operations, their cancellable
  callers and the close on top. Both are tasks interleaving on an event loop, so they are state
  machines; the executor object has a method for each thing its tasks do between two awaits, each
  proved to be one step.
- **Invalidation.** `CanonicalInvalidation` has the attempt as a function of how far it gets, the
  theorems about sequences of attempts, and the routine as methods over the three stores. The drawer
  store is the in-memory one of the repository.
- **Small cores.** `Ndcg` (exact reals, over any positive strictly decreasing discounts, of which
  `1 / log2(i + 2)` is one), `Subjects` (sections 4 and 5 of RFC 4648), `Ports`.

Foreign functions are parameters without assumptions unless a lemma names one: the timestamp parser
(assumed, where stated, to read back the canonical form), lower-casing, the digests and the seed of
the port search.

## Where the code does less than it says

- *Redelivery.* A turn whose fact was already open from another turn leaves no row of its own. If
  the fact is ended before the turn is redelivered, the redelivery opens it again
  (`RedeliveryReopensFact`; exactly this case, `RedeliveryAfterClosingIff`). A row that has been
  moved to another audience does not answer its turn either (`RedeliveryAnsweredIff`,
  `MoveThenRedeliveryReopens`).
- *Audience move.* It looks for no duplicates and can leave two open rows of one scoped triple, or
  two rows of one turn (`MoveKeepsNoDuplicatesIff`, `MoveMakesDuplicates`).
- *Supersede.* If a row already answers for the new statement and is not open from the boundary, the
  change leaves a gap or an overlap (`SupersedeHandsOverIff`, `LateChangeOverlaps`,
  `LateChangeLeavesAGap`).
- *Receipts.* The read-back counts the whole day's file, so a lost write can be believed
  (`RowsGoWithoutReceiptIff`, `LostReceiptsGoUnnoticed`).
- *Mentions.* The key glues its parts with colons that the parts may contain, so an accepted mention
  can be lost (`MentionStoredIff`, `MentionLost`).
- *Bare dates.* The normaliser needs two passes on a bare date, and a bare date sorts after the full
  moments of its first second (`CanonicalIdempotentIff`, `OrderIsTimeIff`).
- *"Exactly equivalent" matching.* Not for names longer than 64 characters: some are not found
  (`SeeksAgreeIff`) and others lose their place to shorter ones (`SeeksRefineScanIff`,
  `LongNameLosesItsPlace`); nor for a stored name such as `pet: rex` whose tail starts with white space
  (`StrippingTheQueryIff`).
- *"The per-subject bound is unchanged".* Not when two names asked about are one subject
  (`WindowedIff`).
- *Space locks.* The file name loses dots, so serving `a.b` makes `a_b` unavailable
  (`UnownedSpaceRefusedIff`, `DottedSpaceRefused`).
- *Canonical drawers.* Only the first drawer of a source id is ever archived, also on retries
  (`TwinDrawerSilentIff`, `TwinDrawerStaysRecallable`).

## Model

| member | source | states |
|---|---|---|
| GraphStore.SqliteKnowledgeGraph.AddTriple | eidolon/memory/adapters/kg_sqlite.py:317-447 | The id returned states what was asked; an id that was there leaves the tables alone, a new one is one row with the columns of the request, stored only when no row stood for it; an error changes nothing; the tables stay valid and free of duplicates |
| GraphWrites.AddInColumns | eidolon/memory/adapters/kg_sqlite.py:339-447 | In columns: when each refusal is given, when nothing is stored because a row stands for the statement already (by projection id, open, or from the same turn), and the row and entity names that are stored otherwise |
| GraphWrites.AddReuses | eidolon/memory/adapters/kg_sqlite.py:339-397 | Which row answers when several stand for the statement: the one with the projection id, else the one from the turn, closed or not, else the open one |
| GraphWrites.AddedIsReadIff | eidolon/memory/adapters/kg_sqlite.py:401-403 | From write to read: a new statement is among the rows of a read exactly when it holds then, its audience is asked for, and it is not sensitive or sensitive rows are; without a flag the three health predicates are sensitive and no others |
| GraphWrites.SensitiveStaysHidden | eidolon/memory/adapters/kg_sqlite.py:401-403 | Whatever is written later, a surviving sensitive row is in no read that leaves sensitive rows out |
| GraphWrites.SpellingsMeet | eidolon/memory/adapters/kg_sqlite.py:126-133 | A blank for an underscore, or an apostrophe for nothing, is the same entity; ids hold neither blanks nor apostrophes |
| GraphWrites.IdsTellStatementsApart | eidolon/memory/adapters/kg_sqlite.py:136-156 | Without separators in the fields and with a digest that tells the two texts apart: equal ids mean one claim and one projection, or one claim, start and recording time |
| GraphRuns.NamesStayOverRuns | eidolon/memory/adapters/kg_sqlite.py:449-457 | Over every run an entity keeps the display name it was first stored under for as long as it is stored, whatever later writes call it |
| GraphStore.SqliteKnowledgeGraph.Invalidate | eidolon/memory/adapters/kg_sqlite.py:473-499 | Exactly the open rows of the triple in the given audiences are closed at the normalised moment and counted; one refused audience changes nothing |
| GraphWrites.InvalidateInColumns | eidolon/memory/adapters/kg_sqlite.py:473-499 | Row by row: the open rows of the triple in one of the accepted audiences get the end and nothing else changes |
| GraphStore.SqliteKnowledgeGraph.SoftForget | eidolon/memory/adapters/kg_sqlite.py:568-624 | Row by row: the open rows that carry one of the stripped, non-blank keys as their turn, id or assertion get the end, are counted, and nothing else changes |
| GraphStore.SqliteKnowledgeGraph.HardForget | eidolon/memory/adapters/kg_sqlite.py:594-691 | Receipts, then rows, for every way the disk can behave and every point at which it can stop: unless a silent loss goes unnoticed, each row that has left the table has its receipt in the log; which error is reported when |
| GraphWrites.ForgetWhatWasAdded | eidolon/memory/adapters/kg_sqlite.py:594-660 | Adding a statement and forgetting by its assertion, turn or id removes it with every row that carries the key, and no other |
| GraphStore.SqliteKnowledgeGraph.RecordForgotten | eidolon/memory/adapters/kg_sqlite.py:698-743 | The lines that land are a prefix of one receipt per row, after what the day had; the write is believed exactly when nothing was raised and the file read back is long enough |
| Forgetting.RemovedRowsHaveReceipts | eidolon/memory/adapters/kg_sqlite.py:646-660 | At every point at which a hard forget can stop, a row that has left the table has its receipt, unless a silent loss goes unnoticed |
| Forgetting.RowsGoWithoutReceiptIff | eidolon/memory/adapters/kg_sqlite.py:731-743 | Rows go without a receipt exactly when the forget is not stopped, the disk silently loses lines, and the day had at least as many lines before as were lost |
| Forgetting.LostReceiptsGoUnnoticed | eidolon/memory/adapters/kg_sqlite.py:731-743 | The failing family: on a day with as many receipts as rows are removed, a write of which nothing lands is believed and the rows go without a receipt |
| Forgetting.EveryRowIsAccountedFor | eidolon/memory/adapters/kg_sqlite.py:594-743 | Over every run of writes with hard forgets cut off anywhere and no loss unnoticed, a row that was ever stored is still stored or has a receipt with its identifiers |
| Forgetting.DayOfMoment | eidolon/memory/adapters/kg_sqlite.py:713-713 | The receipts of a normalised moment are in the file of its date |
| GraphStore.SqliteKnowledgeGraph.DropUnreferenced | eidolon/memory/adapters/kg_sqlite.py:650-672 | The loop over candidate entities deletes exactly those no statement refers to, with their mentions |
| GraphStore.SqliteKnowledgeGraph.MoveSourceTurns | eidolon/memory/adapters/kg_sqlite.py:519-557 | The rows of the turns, open or closed, are the same before and after, are all in the target audience and are otherwise unchanged, and so is every other row; the graph stays valid, and free of duplicates exactly when no two rows meet |
| GraphStore.SqliteKnowledgeGraph.Supersede | eidolon/memory/adapters/kg_sqlite.py:777-803 | The old statement is ended and the new one added at one boundary; the result is what the add returns |
| GraphWrites.SupersedeInColumns | eidolon/memory/adapters/kg_sqlite.py:763-803 | The columns of both halves: the open rows of the old object end at the moment of the change, and the new row starts there, open, with the confidence and turn of the change |
| GraphStore.SqliteKnowledgeGraph.RecordMention | eidolon/memory/adapters/kg_sqlite.py:824-884 | An accepted mention is there afterwards exactly when its key was free or its own; mentions stored before stay; blank input and refused audiences change nothing |
| GraphMentions.KeysFitOverRuns | eidolon/memory/adapters/kg_sqlite.py:866-884 | Over every run each mention stands under the key made of its own audience, entity and alias |
| GraphMentions.MentionStoredIff | eidolon/memory/adapters/kg_sqlite.py:866-884 | Whatever the graph, an accepted mention is stored exactly when its key is free or stands for it already |
| GraphMentions.MentionLost | eidolon/memory/adapters/kg_sqlite.py:866-884 | The failing family: an alias x of the entity p:r hides the alias r:x of the entity p |
| GraphWrites.MentionJoins | eidolon/memory/adapters/kg_sqlite.py:866-884 | An alias recorded under any spelling of a name joins to the entity its statements gave it, in lower case and stripped, in the checked audience |
| GraphWrites.MentionSkippedIff | eidolon/memory/adapters/kg_sqlite.py:866-870 | Only a blank alias, an empty entity id or a refused audience stores nothing |
| GraphRuns.EntitiesExactOverRuns | eidolon/memory/adapters/kg_sqlite.py:405-457 | Over every run of writes the entity table is exactly the set of subjects and objects of stored statements, so every stored row survives its joins |
| GraphRuns.HardForgetIsExact | eidolon/memory/adapters/kg_sqlite.py:626-672 | A hard forget removes exactly the keyed rows, the entities that lost their last reference and the mentions of those, and nothing else |
| GraphRuns.NoDuplicatesOverRuns | eidolon/memory/adapters/kg_sqlite.py:339-397 | Over every run without an audience move: one open row per scoped triple, one row per projection id, one row per turn and scoped triple |
| GraphMoves.MoveKeepsNoDuplicatesIff | eidolon/memory/adapters/kg_sqlite.py:546-557 | An audience move keeps the graph free of duplicates, open rows and rows of one turn alike, exactly when no two rows would meet in the target audience |
| GraphMoves.MoveMakesDuplicates | eidolon/memory/adapters/kg_sqlite.py:546-557 | A run from the empty graph after which a move leaves two open rows of one scoped triple |
| GraphMoves.ProjectionsUniqueOverRuns | eidolon/memory/adapters/kg_sqlite.py:342-364 | One row per projection id over every run, audience moves included |
| GraphRuns.ClosingTimeIsFinal | eidolon/memory/adapters/kg_sqlite.py:486-499 | A closing time once set never changes, and a surviving row keeps everything else but its audience |
| GraphRuns.RedeliveryChangesNothing | eidolon/memory/adapters/kg_sqlite.py:339-397 | Once an add has inserted its row, delivering it again after any writes short of an audience move returns that row and changes nothing, even if the row has been closed |
| GraphMoves.RedeliveryAnsweredIff | eidolon/memory/adapters/kg_sqlite.py:339-397 | Over every run, audience moves included: the row an add has inserted answers a redelivery, which then changes nothing, exactly when its audience at that time is the one the add asks for |
| GraphMoves.MoveThenRedeliveryReopens | eidolon/memory/adapters/kg_sqlite.py:546-557 | The failing family: a turn is delivered, its row moved and the turn redelivered; the fact is open again in the audience the move took it from |
| GraphRuns.RedeliveryAfterClosingIff | eidolon/memory/adapters/kg_sqlite.py:365-397 | For a turn delivered, then ended, then redelivered: the second delivery changes nothing exactly when the first was not absorbed by an open row of another turn |
| GraphRuns.RedeliveryReopensFact | eidolon/memory/adapters/kg_sqlite.py:365-397 | The failing family: two turns state a fact, the fact is ended, the second turn is redelivered, and the fact is open again |
| GraphHistory.PastIsStable | eidolon/memory/adapters/kg_sql.py:263-275 | For any moment, any run of writes that start and end things only after it leaves every read as of that moment with the same candidates |
| GraphHistory.ClosingRewritesPastIff | eidolon/memory/adapters/kg_sqlite.py:486-499 | Closing rows as of a moment changes an earlier question exactly when the question is not before that moment and a closed row held then |
| GraphHistory.BoundaryIsShared | eidolon/memory/adapters/kg_sqlite.py:763-803 | Both halves of a supersede normalise the boundary again and get one text, also for a bare date |
| GraphHistory.SupersedeLeavesNoGap | eidolon/memory/adapters/kg_sqlite.py:763-803 | With an open old statement that starts by the boundary and no row for the new object: at every later moment exactly one of the two holds, never both |
| GraphHistory.SupersedeHandsOverIff | eidolon/memory/adapters/kg_sqlite.py:763-803 | The change leaves no gap and no overlap exactly when, in the graph before it, no row answers for the new statement or every row that does is open and starts at the boundary |
| GraphHistory.LateChangeOverlaps | eidolon/memory/adapters/kg_sqlite.py:763-803 | A run from the empty graph in which the new statement was open before the boundary: both hold at one moment |
| GraphHistory.LateChangeLeavesAGap | eidolon/memory/adapters/kg_sqlite.py:763-803 | A run in which it starts after the boundary: at the boundary neither holds |
| GraphHistory.SampleIsLate | eidolon/memory/adapters/kg_sqlite.py:763-803 | Such runs exist: concrete names and moments of both kinds |
| Timestamps.CanonicalIdempotentIff | eidolon/memory/adapters/kg_sqlite.py:95-123 | Normalising is idempotent exactly on values that are not a bare day of the calendar |
| Timestamps.CanonicalStableAfterTwo | eidolon/memory/adapters/kg_sqlite.py:95-123 | A third pass never changes anything |
| Timestamps.CanonicalIsStripped | eidolon/memory/adapters/kg_sqlite.py:95-123 | A canonical value is never blank and has no outer white space |
| Timestamps.NormaliserWrites | eidolon/memory/adapters/kg_sqlite.py:95-123 | Every well-formed day or moment is a value the normaliser writes |
| Timestamps.CanonicalKeepsTheMoment | eidolon/memory/adapters/kg_sqlite.py:95-123 | Blank texts and only they become nothing; a day stands for its midnight, a text the parser reads for what it reads, any other is kept |
| Timestamps.FormatReadsBack | eidolon/memory/adapters/kg_sqlite.py:86-123 | The stored form character by character: separators in their places and digits that read back to the fields |
| Timestamps.OrderIsTimeIff | eidolon/memory/adapters/kg_sqlite.py:86-123 | String order is time order, both ways, except for a bare day against a full moment in its first second, where the bare day sorts last |
| EntityMatching.SubstringsAreOccurrences | eidolon/memory/adapters/kg_sqlite.py:159-175 | The windows of a text are exactly the non-empty pieces up to the bound that occur in it |
| EntityMatching.Substrings | eidolon/memory/adapters/kg_sqlite.py:159-175 | Every distinct piece once, longest first |
| EntityMatching.LookupNames | eidolon/memory/adapters/kg_sqlite.py:1305-1330 | Over all chunks the result is sorted and without duplicates, and every hit a per-chunk LIMIT lost is beaten by cap rows that were kept |
| EntityMatching.SeeksFindTheRule | eidolon/memory/adapters/kg_sqlite.py:1247-1283 | Looking substrings up finds exactly the names the rule accepts whose tail, or whole name if there is none, is at most 64 characters |
| EntityMatching.SeeksAgreeIff | eidolon/memory/adapters/kg_sql.py:339-357 | The seeks agree with the rule on whether a name matches, for every text, exactly when its tail, or the name if it has none, is at most 64 characters |
| EntityMatching.RuleAccepts | eidolon/memory/adapters/kg_sql.py:339-357 | The scan accepts a name exactly when the rule does |
| EntityMatching.SeeksAreTheScan | eidolon/memory/adapters/kg_sqlite.py:1228-1240 | With names of at most 64 characters the answers of the seeks are exactly the answers of a scan by the rule: same names, same order, same cut |
| EntityMatching.SeeksRefineScanIff | eidolon/memory/adapters/kg_sqlite.py:1228-1240 | For any names and any text, every answer of the seeks is an answer of the scan, whatever the cap, exactly when every accepted name can be found and each longer name keeps its place |
| EntityMatching.LongNameLosesItsPlace | eidolon/memory/adapters/kg_sqlite.py:1228-1240 | The failing family: a name of more than 64 characters next to a shorter one; with room for one the scan returns the long name and the seeks the other |
| EntityMatching.StrippingTheQueryIff | eidolon/memory/adapters/kg_sqlite.py:1243-1246 | Stripping the phrase changes no answer for a stored name exactly when its tail does not start with white space |
| EntityMatching.MatchCanonical | eidolon/memory/adapters/kg_sqlite.py:1250-1283 | The first cap of: whole matches longest first, then tail-only matches longest first |
| EntityMatching.MatchEntities | eidolon/memory/adapters/kg_sqlite.py:1243-1283 | The canonical part against the entity table, with the early exits |
| EntityMatching.PrefixedNameFoundIff | eidolon/memory/adapters/kg_sqlite.py:1271-1283 | For a name prefix:rest on its own: it is the answer exactly when rest has at most 64 characters and occurs in the text |
| EntityMatching.PlainNameFoundIff | eidolon/memory/adapters/kg_sqlite.py:1258-1270 | For a name without a colon: exactly when it has at most 64 characters and occurs |
| EntityMatching.CanonicalAnswerOrder | eidolon/memory/adapters/kg_sqlite.py:1243-1283 | Names found whole first, longer before shorter in each stage, and what is left out could not have come earlier |
| EntityMatching.CanonicalAnswerComplete | eidolon/memory/adapters/kg_sqlite.py:1305-1330 | No name twice, never more than cap, only names the rule accepts, and when the cap is not reached exactly those whose deciding piece is at most 64 characters |
| Ranking.CoversUnion | eidolon/memory/adapters/kg_sqlite.py:916-974 | Two cut branches together still cover the top of the union |
| Ranking.TopOfCover | eidolon/memory/adapters/kg_sqlite.py:916-974 | Cutting a cover gives the top of the pool it covers |
| Ranking.TopKeysAgree | eidolon/memory/adapters/kg_sql.py:322-326 | Two answers to one ordered, cut query have the same sort keys in the same places |
| RelevanceQuery.UnionOfBranches | eidolon/memory/adapters/kg_sqlite.py:937-974 | The two top-N branches, merged, deduplicated and cut, are a top N of all rows touching the entity; a self-loop counts once |
| RelevanceQuery.QueryEntity | eidolon/memory/adapters/kg_sqlite.py:907-974 | In each direction the answer is a top N of the valid, visible statements on that side |
| RelevanceQuery.AnswerInColumns | eidolon/memory/adapters/kg_sql.py:263-324 | In columns: the rows shown are about the entity, hold at the moment and may be seen; a shown row is at least as confident as one after it or left out, then started no earlier, then was recorded no earlier |
| RelevanceQuery.AnswersShowSameKeys | eidolon/memory/adapters/kg_sql.py:322-326 | Any two answers show the same confidence, start and recording time at each place |
| RelevanceQuery.PastAnswersAreStable | eidolon/memory/adapters/kg_sql.py:263-286 | The ranked answers as of a moment are the same before and after writes that concern only later moments |
| SubjectQuery.QuerySubjects | eidolon/memory/adapters/kg_sqlite.py:992-1039 | The branches, one for each name, give each name the top N of its subject, in the order asked |
| SubjectQuery.AskedOncePerName | eidolon/memory/adapters/kg_sqlite.py:1001-1001 | A subject is asked about once for each name of it that is not blank |
| SubjectQuery.AskedInOrder | eidolon/memory/adapters/kg_sqlite.py:1001-1001 | In the order of the names |
| SubjectQuery.AllowancePerName | eidolon/memory/adapters/kg_sqlite.py:1007-1039 | A subject gets its allowance once for each name it is asked under, whatever the other subjects have |
| SubjectQuery.WindowedIff | eidolon/memory/adapters/kg_sql.py:328-336 | Each subject has exactly its ranked window, row for row, exactly when no subject with something to show is named twice |
| Timeline.Timeline | eidolon/memory/adapters/kg_sqlite.py:1084-1133 | One page is a newest-first top N of the matching rows strictly below the cursor |
| Timeline.JoinsDropNothing | eidolon/memory/adapters/kg_sql.py:316-320 | On a graph built by writes the joins drop no row |
| Timeline.BelowLast | eidolon/memory/adapters/kg_sqlite.py:1113-1126 | The cursor of the last row shown leaves exactly the rows not shown yet |
| Timeline.ShowNext | eidolon/memory/entrypoints/owner_memory_http.py:230-281 | One row more than shown tells whether a page follows, and the next cursor is exact |
| Timeline.FollowCursors | eidolon/memory/entrypoints/owner_memory_http.py:230-281 | Following cursors shows every row within the bounds, of the entity, audiences and sensitivity asked for, exactly once, the later start first, then the later recording, then the greater id, for any page size and filter, and stops |
| SourceTurnSeeds.AddPage | eidolon/memory/adapters/kg_sqlite.py:1167-1177 | Adding one chunk to the tally adds its counts name by name |
| SourceTurnSeeds.TallyIsGroupBy | eidolon/memory/adapters/kg_sqlite.py:1160-1177 | The tally over distinct chunks is the group-by over their union |
| SourceTurnSeeds.EntitiesForTurns | eidolon/memory/adapters/kg_sqlite.py:1148-1182 | The loop over chunks of 900 ids returns the first cap of one global group-by: names with more statements first, of equally many the one that sorts first, none blank, and nothing left out that should come earlier |
| SourceTurnSeeds.OneMoreStatement | eidolon/memory/adapters/kg_sqlite.py:1160-1176 | A statement adds to a name one for each different end with that name, if it comes from the turns and may be seen, and nothing otherwise |
| SourceTurnSeeds.SeedsAreUnique | eidolon/memory/adapters/kg_sqlite.py:1178-1182 | Hits and names leave no ties: two answers to one question are the same list |
| SourceTurnSeeds.HiddenRowsDoNotCount | eidolon/memory/adapters/kg_sqlite.py:1135-1182 | For a fixed entity table the counts depend only on rows the caller may see |
| Audience.ValidateIdempotent | contracts/eidolon_memory_contracts/audience.py:46-60 | An accepted audience token is accepted again as it is |
| Audience.AcceptedTokens | contracts/eidolon_memory_contracts/audience.py:46-60 | The accepted tokens in full: owner, companion: or council: with an id |
| Audience.AcceptsPrefixed | contracts/eidolon_memory_contracts/audience.py:27-60 | White space around a token and after its prefix does not count |
| LockFiles.FileNamesDiffer | eidolon/memory/adapters/local_palace_router.py:395-402 | Different claims are different files: a space lock and a palace lock never share a name |
| SafeNames.SafeNameFixesPlain | eidolon/memory/infrastructure/nats/names.py:13-29 | A name is its own safe form exactly when it has only safe characters, no outer underscore and at most 180 characters |
| SafeNames.SafeNameIsPlain | eidolon/memory/infrastructure/nats/names.py:13-29 | Every name has a safe form of at most 180 safe characters, which is its own safe form |
| SafeNames.RunsMeet | eidolon/memory/infrastructure/nats/names.py:21-21 | Any run of unsafe characters between plain pieces becomes one underscore, so names that differ only there share a lock file |
| SafeNames.NothingSafe | eidolon/memory/infrastructure/nats/names.py:22-23 | A name without a safe character is called default |
| SafeNames.PlainNamesNeverMeet | eidolon/memory/infrastructure/nats/names.py:13-29 | Two such names share a safe form only if they are equal |
| SafeNames.DotAndUnderscoreMeet | eidolon/memory/infrastructure/nats/names.py:13-29 | Two valid space ids, a.b and a_b, share one safe form |
| PalaceOwnership.StepKeeps | eidolon/memory/adapters/local_palace_router.py:157-483 | Every step of every process, crashes included, keeps the books of each router and the lock table in exact agreement |
| PalaceOwnership.OneOwner | eidolon/memory/adapters/local_palace_router.py:302-441 | In every reachable state of any number of processes no two spaces that are being prepared, built or published and not in release share a space id or a resolved directory |
| PalaceOwnership.PublishedShareOnlyInRelease | eidolon/memory/adapters/local_palace_router.py:464-480 | Two published runtimes share a space or a directory only while one of them, its backend and graph closed, is giving its claims back |
| PalaceRouter.PublishedCanShare | eidolon/memory/adapters/local_palace_router.py:478-480 | A reachable world in which they do |
| PalaceOwnership.BooksExactWhenSettled | eidolon/memory/adapters/local_palace_router.py:157-256 | Between builds and releases held locks, owners of directories, open graphs and published runtimes coincide, and open backends too until a close begins; at most max_spaces; and the lock files hold exactly their claims |
| PalaceOwnership.LocksOutliveStorage | eidolon/memory/adapters/local_palace_router.py:464-483 | A living process gives a lock file back only when both the backend and the graph it protects are closed |
| PalaceOwnership.BuiltAtMostOnce | eidolon/memory/adapters/local_palace_router.py:167-183 | Once published, or once its process is closing without it, a space is never built by that process again |
| PalaceOwnership.NeverPublishedTwice | eidolon/memory/adapters/local_palace_router.py:167-183 | Two publications by one process, however far apart, are of different spaces |
| PalaceOwnership.ClosedForGood | eidolon/memory/adapters/local_palace_router.py:456-483 | After a successful close the process holds no claim, no runtime and no storage, and never again opens a space |
| PalaceRouter.LocalPalaceRouter.ClaimPalaceDirectory | eidolon/memory/adapters/local_palace_router.py:302-311 | A claim succeeds exactly when the space has its directory afterwards, and no directory ever changes hands |
| PalaceRouter.LocalPalaceRouter.AcquireSpaceLock | eidolon/memory/adapters/local_palace_router.py:391-441 | Both files are taken, the space first, or neither: a refusal names the holder and leaves table and locks as they were |
| PalaceRouter.LocalPalaceRouter.ReleaseClaims | eidolon/memory/adapters/local_palace_router.py:448-454 | Exactly the space's files and directories are given back |
| PalaceRouter.LocalPalaceRouter.Build | eidolon/memory/adapters/local_palace_router.py:196-256 | Claims, locks and preparation all succeed, or the fields and the lock files are what they were |
| PalaceRouter.LocalPalaceRouter.BuildOnce | eidolon/memory/adapters/local_palace_router.py:167-194 | Under the pool lock: the outcome for every state, the check repeated, and at most one new runtime |
| PalaceRouter.LocalPalaceRouter.Resolve | eidolon/memory/adapters/local_palace_router.py:143-194 | Which of the refusals is given in which state; every refusal changes nothing; success makes the space open |
| PalaceRouter.LocalPalaceRouter.Close | eidolon/memory/adapters/local_palace_router.py:456-483 | Spaces are closed, backend then graph, in the order they were opened up to the first that fails; a failed close can be asked for again, a running or successful one is not started twice |
| PalaceRouter.OpeningIsARun | eidolon/memory/adapters/local_palace_router.py:167-256 | What a successful resolve does is a run of the protocol, in any world of other processes |
| PalaceRouter.RefusedBuildLeavesNothing | eidolon/memory/adapters/local_palace_router.py:196-256 | A build refused at any check is a run of the protocol that ends in the world it started in |
| PalaceRouter.CloseIsARun | eidolon/memory/adapters/local_palace_router.py:456-483 | What a close does is a run of the protocol |
| PalaceRouter.CloseOutcome | eidolon/memory/adapters/local_palace_router.py:464-483 | After a close exactly the first space that failed and those opened after it remain; none remain if and only if it succeeded |
| PalaceRouter.UnownedSpaceRefusedIff | eidolon/memory/adapters/local_palace_router.py:391-424 | A space nobody owns is refused as owned exactly when the file of another space with the same safe name is held |
| PalaceRouter.PlainSpaceRefusedIffOwned | eidolon/memory/adapters/local_palace_router.py:391-424 | With plain ids a space is refused as owned exactly when it is owned |
| PalaceRouter.SharedNameRefused | eidolon/memory/adapters/local_palace_router.py:391-424 | Two ids with one safe form: serving the first makes the second unavailable in every process |
| PalaceRouter.DottedSpaceRefused | eidolon/memory/adapters/local_palace_router.py:391-424 | The instance: a reachable world in which a_b is refused because a.b is served |
| SpaceLock.MoveKeeps | eidolon/memory/domain/space_lock.py:92-129 | Every step of every user, cancellations included, keeps the counters right, a writer alone, and every sleeper with a reason to sleep |
| SpaceLock.WriterIsAlone | eidolon/memory/domain/space_lock.py:92-129 | Never a writer inside together with anybody else |
| SpaceLock.WritersFirst | eidolon/memory/domain/space_lock.py:92-123 | For as long as a writer waits, whatever steps are taken, no reader gets in |
| SpaceLock.SomebodyGetsIn | eidolon/memory/domain/space_lock.py:108-129 | When nobody is inside and somebody wants in, somebody's next look succeeds: no wake-up is lost |
| SpaceLock.EntersIff | eidolon/memory/domain/space_lock.py:92-123 | A reader gets in exactly when no writer is inside or queueing, a writer exactly when nobody is inside |
| LockedBackend.LockedBackend.Serialized | eidolon/memory/adapters/locked_backend.py:151-199 | A call is admitted exactly when closing has not been asked for, and then has one task on its side of the lock; a refusal changes nothing |
| LockedBackend.LockedBackend.RunTask | eidolon/memory/adapters/locked_backend.py:177-183 | An operation starts in the step in which it gets the lock, which is exactly when nobody is in its way: no writer inside or queueing for a read, nobody inside for a write |
| LockedBackend.LockedBackend.CallerDeadline | eidolon/memory/adapters/locked_backend.py:201-212 | A started operation is left running, a waiting one is cancelled; the lock does not move |
| LockedBackend.LockedBackend.LeaveLock | eidolon/memory/adapters/locked_backend.py:177-192 | A task leaves the lock only after its work has ended, and is then finished |
| LockedBackend.LockedBackend.StartDraining | eidolon/memory/adapters/locked_backend.py:85-87 | What the close gathers includes every operation that has not ended |
| LockedBackend.LockedBackend.EndDraining | eidolon/memory/adapters/locked_backend.py:85-88 | When what was gathered has ended, every admitted operation has |
| LockedBackend.LockedBackend.Close | eidolon/memory/adapters/locked_backend.py:76-83 | Closing is set; a close that was not asked for or has failed is started, and any other is left as it is |
| LockedBackend.StepKeeps | eidolon/memory/adapters/locked_backend.py:151-212 | Every step of operations, callers and the close keeps the invariant |
| LockedBackend.StorageExclusion | eidolon/memory/adapters/locked_backend.py:171-212 | Storage never works on a write together with any other operation, whichever callers cancel and when |
| LockedBackend.OperationHistory | eidolon/memory/adapters/locked_backend.py:171-212 | An operation never changes side, a cancelled one never starts, a started one is never cancelled |
| LockedBackend.CancelledBeforeStartNeverRuns | eidolon/memory/adapters/locked_backend.py:201-212 | An operation given up before it started does no storage work |
| LockedBackend.DetachedStillHoldsTheLock | eidolon/memory/adapters/locked_backend.py:196-212 | A caller that gives up later leaves the operation inside the lock until the work ends |
| LockedBackend.ClosedOnlyWhenDrained | eidolon/memory/adapters/locked_backend.py:85-91 | When the inner store is closed every admitted operation has ended, though only the ones listed when the close began to drain were waited for; nobody else is inside the lock |
| LockedBackend.NoneAdmittedAfterClosing | eidolon/memory/adapters/locked_backend.py:76-83 | Once closing is asked for no operation is admitted, and a successful close is final |
| LockedBackend.NoDeadlock | eidolon/memory/adapters/locked_backend.py:151-212 | Whenever an operation has not ended and nobody is inside, a step is possible that lets somebody in or out of the queue |
| LockedBackend.CloseIsNeverStuck | eidolon/memory/adapters/locked_backend.py:76-91 | From every reachable state, a failed close included, some run reaches a close that succeeds |
| CanonicalInvalidation.ExactInvalidation.RegisterInvalidation | eidolon/memory/infrastructure/canonical_facts.py:751-854 | A known fact is registered once for an intent; a reused intent id with other content is a conflict and changes nothing; the projection named is the current one |
| CanonicalInvalidation.ExactInvalidation.GetBySource | eidolon/memory/adapters/fake_backend.py:179-191 | The first drawer with the source id |
| CanonicalInvalidation.ExactInvalidation.ArchiveMany | eidolon/memory/adapters/fake_backend.py:202-214 | Exactly the drawers with these keys are silenced; missing keys are skipped |
| CanonicalInvalidation.ExactInvalidation.MarkInvalidated | eidolon/memory/infrastructure/canonical_facts.py:1110-1154 | The invalidation and its assertion are marked; a marked one stays as it is |
| CanonicalInvalidation.ExactInvalidation.InvalidateExact | eidolon/memory/application/canonical_invalidation.py:25-94 | For every cut-off point the stores are those of the specified attempt, and a complete attempt reports what it silenced and closed |
| CanonicalInvalidation.CompleteAttemptInFull | eidolon/memory/application/canonical_invalidation.py:54-94 | In the stores: the first drawer with the source id of the current activation, spelled out, is silent and no other has changed; no row of the triple is open; the ledger has the state asked for |
| CanonicalInvalidation.ActivationsHaveTheirOwnDrawers | eidolon/memory/infrastructure/canonical_facts.py:1488-1491 | Two activations of one fact never share a source id |
| CanonicalInvalidation.ReuseConflictsIff | eidolon/memory/infrastructure/canonical_facts.py:793-812 | An intent id used again is refused exactly when fact, event, claim, reason or outcome differ, or a named moment is not the one registered |
| CanonicalInvalidation.NeverMarkedWhileShown | eidolon/memory/application/canonical_invalidation.py:54-94 | Whatever attempts are made and wherever each is cut off: among any facts that include those of the attempts and that the digest tells apart, none is marked over while its drawer can be recalled or a row of it is open |
| CanonicalInvalidation.MarkingIsHonest | eidolon/memory/application/canonical_invalidation.py:69-88 | Only a completed attempt moves the ledger, and by then its fact is shown nowhere |
| CanonicalInvalidation.CutThenComplete | eidolon/memory/application/canonical_invalidation.py:54-94 | Completing after a cut-off try gives the state of one uninterrupted attempt |
| CanonicalInvalidation.RetriesReachTheSingleRun | eidolon/memory/application/canonical_invalidation.py:54-94 | Any number of tries ending in a complete one reach the state of a single run, with the first closing time kept |
| CanonicalInvalidation.GivenMomentDecides | eidolon/memory/application/canonical_invalidation.py:76-82 | With a moment of its own the intent ends the fact at the same time whenever it is attempted |
| CanonicalInvalidation.TwinDrawerSilentIff | eidolon/memory/application/canonical_invalidation.py:62-74 | After an attempt all drawers with the source id are silent exactly when all but the first were silent before |
| CanonicalInvalidation.TwinDrawerStaysRecallable | eidolon/memory/application/canonical_invalidation.py:62-74 | The instance: one projection filed under two keys; the ledger says the fact is over and the second drawer can be recalled, after any number of further tries |
| Ndcg.Dcg | benchmarks/upstream/longmemeval_bench.py:52-57 | The accumulating loop computes the discounted gain of the first k items |
| Ndcg.SortDownSorts | benchmarks/upstream/longmemeval_bench.py:63-63 | The ideal list is the descending order of the same items |
| Ndcg.DescendingUnique | benchmarks/upstream/longmemeval_bench.py:63-63 | There is only one such list |
| Ndcg.Rearrangement | benchmarks/upstream/longmemeval_bench.py:60-67 | No order of the items gains more than the descending one, and only that one gains as much |
| Ndcg.ScoreBounds | benchmarks/upstream/longmemeval_bench.py:60-67 | The score lies between 0 and 1; it is 0 exactly when nothing is relevant and 1 exactly when something is and no irrelevant item precedes a relevant one |
| Ndcg.NdcgAt | benchmarks/upstream/longmemeval_bench.py:60-67 | The method computes that score of the relevances of the top k |
| Ndcg.SingleAnswer | benchmarks/upstream/longmemeval_bench.py:52-67 | One answer at place i scores its discount against that of the first place |
| Ndcg.PromotionPays | benchmarks/upstream/longmemeval_bench.py:52-67 | Moving an answer up past an irrelevant item raises the score by the difference of the discounts as a share of the best gain |
| Ndcg.EvaluateRetrieval | benchmarks/upstream/longmemeval_bench.py:70-80 | What the two recalls mean, and that the score is positive exactly when some answer is in the top k |
| Subjects.DecodeEncode | contracts/eidolon_memory_contracts/subjects.py:48-50 | Unpadded base64url decodes to the bytes it was made from, and uses only its alphabet |
| Subjects.EncodeUnpadded | contracts/eidolon_memory_contracts/subjects.py:48-50 | Exactly the padding is cut off |
| Subjects.TokenIsReversible | contracts/eidolon_memory_contracts/subjects.py:36-50 | An id has a token exactly when it is valid; the token reads back to the validated id and holds no separator or wildcard |
| Subjects.PatternTakes | contracts/eidolon_memory_contracts/subjects.py:71-74 | A family's pattern takes exactly the base followed by one non-empty token |
| Subjects.OwnPatternOnly | contracts/eidolon_memory_contracts/subjects.py:65-92 | A subject is taken by the pattern of its own family and no other |
| Subjects.SubjectsNeverCollide | contracts/eidolon_memory_contracts/subjects.py:65-92 | Equal subjects mean one family and one validated id |
| Subjects.SubjectsInFull | contracts/eidolon_memory_contracts/subjects.py:7-92 | The three subjects and patterns spelled out |
| Subjects.GroupsAreNumbers | contracts/eidolon_memory_contracts/subjects.py:48-50 | Bytes and digits are one number: three bytes are four digits, two and one are filled up with two and four zero bits |
| Subjects.EncodedInThrees | contracts/eidolon_memory_contracts/subjects.py:48-50 | Longer inputs are encoded three bytes at a time, in order |
| Subjects.DigitsInOrder | contracts/eidolon_memory_contracts/subjects.py:48-50 | The 64 digits are capitals, small letters, figures, hyphen and underscore, in this order |
| Ports.ProbeOnce | contracts/eidolon_memory_contracts/runtime_route.py:43-48 | Each port of the window is probed at exactly one offset |
| Ports.StablePort | contracts/eidolon_memory_contracts/runtime_route.py:34-53 | The port is free and is the specified choice; nothing is returned exactly when all 65535 are taken |
| Ports.ProbesInNumbers | contracts/eidolon_memory_contracts/runtime_route.py:40-46 | The first probe in numbers, and each next one a port higher, from the end of the window back to the base |
| Ports.ChoiceInNumbers | contracts/eidolon_memory_contracts/runtime_route.py:34-53 | The choice in numbers: while the window has a free port, the one nearest after the first probe, going up and round; after that the lowest free port of the host |
| Ports.ChoiceIsUnique | contracts/eidolon_memory_contracts/runtime_route.py:43-52 | There is one choice: the first free port in cyclic order, or the lowest free one when the window is full |
| Ports.MovesIffOwnPort | contracts/eidolon_memory_contracts/runtime_route.py:43-52 | Taking one more port moves a realm exactly when it is the realm's own port |
| Ports.Allocate | contracts/eidolon_memory_contracts/runtime_route.py:66-72 | The shared set grows by the port returned and by nothing else |
| Ports.RouteForRealm | contracts/eidolon_memory_contracts/runtime_route.py:56-78 | With a shared set the port is taken from it; without one every call returns the first choice |
| Ports.ServedAreDistinct | contracts/eidolon_memory_contracts/runtime_route.py:66-72 | Any sequence of allocations from one set gives different ports, and the set grows by one each time |

## Left out

- EntityMatching.MatchEntities: the canonical part only; the alias stage that follows it has a LIMIT that counts alias rows and a last sort by the length of the entity's name, so only soundness would hold.
- `query_entity_combined`: a loop over `query_entity` that deduplicates.
- Integrity checks, palace initialisation, checkpoints, fsync and the file format of receipts: the work on disk is one flag that says whether it succeeds.
- Per-thread connections, indexes, metrics, logging, schema migration.
- Timestamps: digits other than ASCII in a date, and moments the parser moves out of the calendar; a parser that raises something other than ValueError.
- Ranking.SelectTop: stands for one SQL query with ORDER BY and LIMIT; how the engine finds the rows is not modelled.
- GraphStore.SqliteKnowledgeGraph.Supersede: the code commits it as two transactions; a crash between them is not modelled, readers are kept out by the writer lock.
- GraphStore.SqliteKnowledgeGraph.RecordForgotten: lines land whole; a last line cut in the middle, which the read-back would reject, is not modelled, and the order of the lines is left open.
- PalaceOwnership.StepKeeps: a build opens backend and graph in one step, so a build that fails between the two is not modelled; a space without a graph is one whose graph closes at once.
- PalaceRouter.LocalPalaceRouter.Close: the final sweep over leftover locks is omitted, because the books are exact there and it finds none; the pool lock makes one resolve or close run at a time, so the object is sequential and the interleavings are in `PalaceOwnership`.
- LockedBackend.StorageExclusion: speaks of the store's operations; the graph's own calls share the lock without the shield, so a cancelled graph call may leave its worker thread behind. Cancellation of the operation's own task by the loop's shutdown is not modelled.
- CanonicalInvalidation.NeverMarkedWhileShown: the digest is assumed to tell the facts under consideration apart; reactivation and other writers of the ledger are not part of this model, nor are timestamps of the last update.
- CanonicalInvalidation.RetriesReachTheSingleRun: no other write happens between the tries; a blank moment is excluded because the wire model turns it into none.
- CanonicalInvalidation.ExactInvalidation.InvalidateExact: the check that the archived key came back cannot fail on the in-memory store and is omitted.
- Ndcg.EvaluateRetrieval: floating-point rounding of the quotient, negative k and indices outside the corpus.
- Subject families other than the three, and the stream configuration that binds the patterns.
- URL properties of a runtime route, the wire models and their single-field validators.
