# Postroom: a verified model of its mail core

Postroom is a self-hosted mail server. This project models its stateful and its streaming cores and
proves what they promise, for every run, every input and every way of cutting the input into chunks:

- **IMAP store and views** (`Flags`, `MailStore`, `ViewModel`, `ViewProofs`, `Sessions`, `SessionFlags`, `MailboxView`):
  mailbox transactions with UIDs and modification sequences, and the view a session keeps of a mailbox
  that other sessions change under it. A model client replays the responses it is sent and keeps the flags it is told.
- **SEARCH** (`Search`, `SearchMeaning`): criteria split between the database and the evaluator, and what they mean.
- **MIME structure and FETCH** (`MimeScan`, `MimeProofs`, `MimeClosing`, `MimeHeaders`, `MimeStream`, `MimeLines`,
  `MimeCompose`, `StructureScanner`, `Fetch`, `FetchParts`): one pass over a message in chunks, the tree of its parts by
  offset, and the octets a section is answered with.
- **Delivery** (`Retry`, `Delivery`, `Jobs`): the retry schedule, workers that claim, deliver, crash and recover,
  and jobs against the clock.
- **Submission** (`Redactor`, `Dkim`): credentials kept out of transcripts, and signing-key rotation.
- **Inbound** (`HeaderTap`, `TraceRewrite`, `TraceFields`): the header block captured from a stream, and the rename of
  Authentication-Results fields that claim to be ours.
- **DAV sync** (`DavSync`) and **ManageSieve** (`ManageSieve`, `SieveLimits`, `SieveGrammar`, `SieveStream`): sync tokens
  and paging; the command reader.
- `Sets`, `Decimal` and `Chunks` are small shared libraries.

State that the source updates in place is a class whose methods are proved equal to functions on values;
the theorems are about those functions, over all runs. Transactions are single steps; between two reads of
one command any number of other sessions' transactions may commit. Clocks, random draws, the answers of DNS,
of transports and of header parsing are parameters. Octets are chars below 256.

## What the code does not promise

Where a property does not hold of the code as it is, the model keeps the code, shows an input and proves
exactly when it does hold.

- **Delivery, several transports.** `attemptTimeoutMs < leaseMs` bounds one transport, but a job claims once, runs
  its transports one after the other, and does database work and DSN hooks between them. In every schedule of jobs
  the tables stay sound if and only if the batches of a job together, each with its timeout and an overhead for all
  else, fit in the lease (`JobsFitLease`); with the default settings two transports never do (`DefaultSettings`).
  Past the lease, a late commit lands on another attempt (`LateCommitHitsAnother`).
- **Delivery, recovery.** A recovery writes what it read as stuck with no guard but the state, so a second one
  can close a new worker's attempt (`RecoveryHitsNewAttempt`). `LookExact` and `ClaimExact` say exactly when a
  look or a claim leaves every timely future sound.
- **IMAP, silent STORE.** `STORE … .SILENT` notes the new modseq of a message without telling its flags, so a change by
  another session that the client has not heard of is taken as heard and never told (`SilentStoreLosesFlag`). The
  client stays right about the message if and only if the two differed at most in the flags the command names, or it
  replaces them all (`SilentExact`); a sync does not repair it otherwise (`HarmIsNotRepaired`). In every session
  without such a STORE the flags a client holds are right after a quiet sync (`HeldFlagsAreRight`).
- **DKIM.** With a clock reading before the active key's own, `ensureDkimKeys` makes a second active key
  (`EarlierReadingAddsKey`); `EnsureExact` says exactly when.
- **SEARCH.** Dates a month does not have, and years below 100, mean different things to the database and to
  the evaluator, or fail the query (`DatesAgree`). So do stored dates of the years 0 to 99, which the evaluator
  moves to 1900 to 1999: `EarlyRowDisagrees` is a message and a key, `DateRowExact` the condition for one row and
  `DateKeyExact` the one for all rows.
- **DAV.** With a limit of zero the token never moves (`LimitZeroNeverAdvances`).
- **Header capture.** A block that ends exactly at the limit is kept or lost depending on the chunks (`CaptureExact`).
- **ManageSieve.** A bad line longer than the limit closes the connection or not depending on the chunks
  (`LongBadLineDependsOnChunks`). No chunking closes it for a line end that has not come if and only if the text
  fits the limits (`FitsExactly`), and the events are the same for every chunking if and only if every line fits
  up to one that the whole text closes as too long (`EventsExactly`).
- **MIME.** A part with an empty body can end two octets past its parent (`EmptyPartPastItsParent`). It does so if
  and only if its body starts where the delimiter line that closes the parent starts (`PastParentExactly`).
- **Trace rewrite.** A comment allows white space before a field's colon; the code does not take such a line as
  a field, so a forged field of ours spelt that way is kept (`BlankBeforeColonIsKept`). To a reader that allows
  it, a field of ours is left if and only if some line of the block is of that kind (`LooselyLeftExactly`).

## Model

| member | source | states |
|---|---|---|
| Flags.NormalizeMeaning | apps/imap/src/flags.ts:12-23 | normalising loses nothing but `\Recent`, and the result is canonical and free of case-insensitive duplicates |
| Flags.NormalizeFlagsLoop | apps/imap/src/flags.ts:12-23 | the loop with its set of seen keys computes that normal form |
| Flags.ApplyFlagsMeaning | apps/imap/src/flags.ts:31-37 | set, add and remove act on the case-folded flag set as their names say, and keep flags normalised |
| Flags.SpellingKept | apps/imap/src/flags.ts:12-23 | a flag kept is the first one of its name as the client spelt it, or a system flag in its canonical spelling |
| Flags.StoreKeepsSpelling | apps/imap/src/flags.ts:31-37 | adding and removing flags leaves the spelling of those that stay |
| Flags.SameFlagsExact | apps/imap/src/flags.ts:39-43 | on normalised flags the length-and-membership test holds exactly when the folded sets are equal |
| Flags.SystemFlagExact | packages/imap-proto/src/ast.ts:285-291 | in normalised flags a system flag is present in some spelling exactly when its canonical spelling is |
| MailStore.ChangedSinceMeaning | apps/imap/src/store.ts:247-252 | the rows returned are exactly those above the modseq, in ascending UID order, with their flags |
| MailStore.CommitLater | apps/imap/src/store.ts:325-574 | every transaction keeps every mailbox valid and moves it only to a later state: uidnext and modseq never fall, a row changes only under a newer modseq, a removed UID is logged, a new row is above the old uidnext |
| MailStore.RunLater | apps/imap/src/store.ts:325-574 | the same over every run of transactions of all sessions |
| MailStore.UidNeverReused | packages/dsn/src/file-local-message.ts:79-103 | in every run, a UID once stored or expunged stays below uidnext, never comes back once gone, is logged when it goes, and names the same content while it stays |
| MailStore.DeltaEqualsSnapshot | apps/imap/src/store.ts:247-259 | in every run, a client that had the mailbox at some point and applies changedSince and expungedSince from that modseq has exactly the mailbox now |
| MailStore.MoveConserves | apps/imap/src/store.ts:479-520 | each message moved leaves the source, is logged there, and sits in the target under its own new UID with flags and content unchanged |
| MailStore.MoveKeepsOthers | apps/imap/src/store.ts:479-520 | a message that a MOVE does not name stays as it is, in source, target and everywhere else |
| MailStore.CopyConserves | apps/imap/src/store.ts:403-472 | the i-th message copied is in the target at the old uidnext + i with its flags and content and the modseq highestModseq + 1 + i; nothing else is new there, older rows are unchanged, and every other mailbox is as it was |
| MailStore.AppendFiles | apps/imap/src/store.ts:523-574 | at the UID returned the message has the content given, the flags given but `\Recent`, and a new modseq, and nothing else changes |
| MailStore.ExpungeExact | apps/imap/src/store.ts:372-401 | a message leaves if and only if it has `\Deleted` in some spelling and is named where names are given; it is logged under a new modseq, and one that stays stays as it is |
| MailStore.StoreExact | apps/imap/src/store.ts:325-367 | a message changes if and only if it is named, its modseq is not above UNCHANGEDSINCE and the operation changes its case-folded flags; it then has the flags the operation says, a new modseq and its content |
| MailStore.PlanUpdates | apps/imap/src/store.ts:338-347 | the loop splits the rows into refused by UNCHANGEDSINCE, unchanged, and updated with the flags the operation gives |
| MailStore.Store.StoreFlags | apps/imap/src/store.ts:325-367 | STORE commits exactly its transaction, and reports the refused UIDs and the changed rows as they then stand |
| MailStore.Store.Expunge | apps/imap/src/store.ts:372-401 | only messages flagged \Deleted, and named if names are given, go; their UIDs are returned in order |
| MailStore.Store.Copy | apps/imap/src/store.ts:403-472 | copies are filed in UID order under consecutive UIDs, and the pairs returned say which; what then sits at them is CopyConserves |
| MailStore.Store.Move | apps/imap/src/store.ts:479-520 | rows are re-homed in UID order under consecutive UIDs and one modseq above both mailboxes', and the pairs returned say which |
| MailStore.Store.Append | apps/imap/src/store.ts:523-574 | the message takes uidnext with normalised flags, and that UID is returned |
| ViewModel.ReplayExpunges | apps/imap/src/view.ts:165-196 | a client replaying the EXPUNGE numbers, or VANISHED, in the order sent drops exactly the expunged slots |
| ViewProofs.ConsistentLater | apps/imap/src/view.ts:204-246 | other sessions' commits leave a consistent view consistent |
| ViewProofs.ExpungeKeeps | apps/imap/src/view.ts:165-196 | dropping entries that are no longer stored keeps a view consistent |
| ViewProofs.CountShortcut | apps/imap/src/view.ts:214-220 | the stored count up to the view's last UID equals the live entries if and only if nothing is missing |
| ViewProofs.PendingMeaning | apps/imap/src/view.ts:214-220 | expunges noticed by count then list, on two reads, are real, and a live entry left was stored at one of them |
| ViewProofs.SyncKeeps | apps/imap/src/view.ts:204-246 | a sync leaves the view consistent with the mailbox, whatever commits between its four reads |
| ViewProofs.FlagNewsFetches | apps/imap/src/view.ts:230-243 | there is one FETCH per piece of news, in UID order |
| ViewProofs.SyncTells | apps/imap/src/view.ts:230-243 | whatever commits between the reads, every FETCH of a sync carries the flags of its row as the read of the rows found it, and its modseq exactly when CONDSTORE is enabled |
| ViewProofs.SyncForm | apps/imap/src/view.ts:165-202 | every expunge a sync tells is a VANISHED if QRESYNC is enabled and a numbered EXPUNGE if not, and there is none where the command may not announce it |
| ViewProofs.SyncReplay | apps/imap/src/view.ts:204-246 | replaying a sync's responses takes a client from the old view's slots to the new one's, every number naming the slot the server means |
| ViewProofs.NoExpungeKeepsNumbers | apps/imap/src/view.ts:204-246 | a sync that may not expunge leaves every message's sequence number as it was |
| ViewProofs.SyncConverges | apps/imap/src/view.ts:204-246 | a sync with nothing committing meanwhile makes the view exactly the mailbox, and fetches exactly the changed messages |
| Sessions.OpenConsistent | apps/imap/src/view.ts:49-67 | a view whose modseq was read before its rows is consistent, whatever commits in between |
| Sessions.StepInStep | apps/imap/src/session.ts:1027-1086 | every command step, racing with any commits, keeps view, mailbox and client in step |
| Sessions.ClientFollowsView | apps/imap/src/session.ts:354-381 | after SELECT and every run of commands and others' commits, the client's slots are the view's UIDs and no response was out of range |
| Sessions.QuietSyncCatchesUp | apps/imap/src/session.ts:366-381 | after every run, one quiet sync makes the client's slots exactly the mailbox's UIDs |
| SessionFlags.HeldFlagsAreRight | apps/imap/src/view.ts:204-246 | a client keeps the flags it was told in FETCH and assumed for its silent STOREs; after every session whose silent STOREs are harmless, one quiet sync makes all flags it holds those of the mailbox, and it holds those of every message fetched |
| SessionFlags.SilentExact | apps/imap/src/session.ts:1027-1060 | after a silent STORE the client is right about a message it holds if and only if before it the two differed at most in the flags of the command, or these replace all; right or not, the view takes the message as heard of |
| SessionFlags.HeardIsHarmless | apps/imap/src/session.ts:1027-1060 | a silent STORE to messages whose last change the client has heard of is harmless |
| SessionFlags.HarmIsNotRepaired | apps/imap/src/session.ts:1039-1041 | where a silent STORE leaves the client wrong, a quiet sync leaves it wrong |
| SessionFlags.SilentStoreLosesFlag | apps/imap/src/session.ts:1039-1041 | a session in which the client never hears that another one flagged a message, because its own silent STORE took that change as heard of |
| ViewObject.MailboxView.Open | apps/imap/src/view.ts:49-67 | the view at SELECT |
| ViewObject.MailboxView.SeqOf | apps/imap/src/view.ts:86-97 | binary search finds the number of a UID if and only if the view has it |
| ViewObject.MailboxView.NoteModseq | apps/imap/src/view.ts:104-106 | only the heard modseq of a known UID changes |
| ViewObject.MailboxView.LowerBound | apps/imap/src/view.ts:150-159 | the first position whose UID is at least the one sought |
| ViewObject.MailboxView.ExpungeVanished | apps/imap/src/view.ts:168-180 | the splices give the view without the expunged, and the response names the known ones |
| ViewObject.MailboxView.ExpungeNumbered | apps/imap/src/view.ts:181-195 | the same for numbers sent highest first |
| ViewObject.MailboxView.ExpungeNow | apps/imap/src/view.ts:165-196 | both forms, as the client enabled them |
| ViewObject.MailboxView.FlushPending | apps/imap/src/view.ts:199-202 | pending expunges are delivered when the command allows |
| ViewObject.MailboxView.NoticeExpunges | apps/imap/src/view.ts:214-220 | the pending set after the count and, if it is off, the list |
| ViewObject.MailboxView.PushArrivals | apps/imap/src/view.ts:223-228 | arrivals extend the view in UID order |
| ViewObject.MailboxView.TellNews | apps/imap/src/view.ts:230-243 | the FETCH responses and the modseqs heard; what the responses carry is SyncTells |
| ViewObject.MailboxView.Sync | apps/imap/src/view.ts:204-246 | the whole sync computes the view and the responses of SyncKeeps, SyncReplay, SyncTells, SyncForm and SyncConverges |
| Search.DatesAgree | apps/imap/src/search.ts:58-69 | the database and the evaluator read a date as the same day if and only if it is a calendar date with a year of at least 100 |
| Search.DateRowExact | apps/imap/src/search.ts:228-239 | about such a date, the query and the evaluator agree on a row if and only if the row is not of the years 0 to 99, or moved by 1900 years it still falls on the same side of the date |
| Search.DateKeyExact | apps/imap/src/search.ts:90-140 | a date key compiled to SQL agrees with the evaluator on every row of the model, whatever date it holds, if and only if its date is of the calendar and, for ON, of the year 100 or later outside 1900 to 1999, for BEFORE and SINCE of the year 2000 or later |
| Search.EarlyRowDisagrees | apps/imap/src/search.ts:62-64 | a message APPEND can store, of the last day of the year 99, that BEFORE 1-Jan-1500 finds in the database and the evaluator does not find |
| Search.CompileAgrees | apps/imap/src/search.ts:90-140 | on normalised flags and dates that fit the row every compiled key, however nested, holds of it exactly when the evaluator says so |
| Search.KeyFitsEveryRow | apps/imap/src/search.ts:90-140 | a key, however nested, whose dates fit all rows fits every row |
| Search.KeepMatching | apps/imap/src/search.ts:288-302 | the loop keeps, in order, exactly the rows not expunged that satisfy the text keys |
| Search.Search | apps/imap/src/search.ts:277-304 | when the dates fit the mailbox's rows the result is, ascending, every known unexpunged message that satisfies all criteria; it fails if and only if the database refuses a literal |
| SearchMeaning.DaysInOrder | apps/imap/src/search.ts:58-69 | days are numbered one after the other through every month and leap year, with 1 January 1970 as day 0 |
| SearchMeaning.KeyMeans | apps/imap/src/search.ts:205-260 | a key, however nested, whose dates fit the row is evaluated as it means: ON, BEFORE and SINCE compare the day the message came, their SENT forms the day of its Date header or else the day it came, LARGER and SMALLER are strict, flag keys read folded flags |
| SearchMeaning.SearchFinds | apps/imap/src/search.ts:277-304 | the messages found are exactly those known, unexpunged and stored that satisfy every criterion by that meaning |
| MimeProofs.StructureSound | apps/imap/src/structure.ts:174-317 | for every message and reading of headers: offsets in order and inside, lines equal to the body's line feeds plus an unterminated last line, parts inside and in order without overlap, an empty one ending at most two octets past its parent and no other past it, counts and depth within the limits |
| MimeClosing.PastParentExactly | apps/imap/src/structure.ts:282-304 | a part ends past its parent if and only if its body starts where the line that closes the parent starts, after the parent's own; that line is a delimiter line of a multipart of the message |
| MimeHeaders.HeaderBlocksExact | apps/imap/src/structure.ts:232-257 | every header block not cut short is the text at the part's start, and a body after it follows an empty line |
| MimeScan.MatchExact | apps/imap/src/structure.ts:320-335 | a line is an open delimiter if and only if past its two hyphens it is the boundary and then only spaces and tabs, and a closing one if and only if it is the boundary, two hyphens and then only spaces and tabs |
| MimeStream.ChunksDoNotMatter | apps/imap/src/structure.ts:113-189 | every chunking of a message gives the structure of its octets, captured line prefixes and last two octets included |
| MimeCompose.ComposedIsFound | apps/imap/src/structure.ts:206-317 | a message composed of entities, multiparts and enclosed messages inside one another to any depth, with CRLF and bare LF mixed, is scanned into exactly those entities in their places in the tree: header block, kind, boundary, parts and body octet for octet, preambles and epilogues skipped; delimiter lines are given by their text |
| MimeCompose.EmptyPartPastItsParent | apps/imap/src/structure.ts:282-304 | a message of two nested multipart/mixed in which an empty part ends two octets past its parent |
| ScannerObject.MatchLine | apps/imap/src/structure.ts:320-335 | the loop over trailing blanks decides what the line is to this boundary: open, closing or no delimiter, by its text |
| ScannerObject.StructureScanner.constructor | apps/imap/src/structure.ts:107-111 | the scanner before any octet |
| ScannerObject.StructureScanner.Write | apps/imap/src/structure.ts:113-125 | a chunk is split at line feeds and taken line by line; after the end it is refused |
| ScannerObject.StructureScanner.CaptureSegment | apps/imap/src/structure.ts:158-172 | the last two octets and the line up to its cap are kept |
| ScannerObject.StructureScanner.FinishLine | apps/imap/src/structure.ts:174-189 | the line is handed on with its break and the next one starts |
| ScannerObject.StructureScanner.TakeLine | apps/imap/src/structure.ts:206-247 | one line, as the theorems read it |
| ScannerObject.StructureScanner.SearchDelimiter | apps/imap/src/structure.ts:207-214 | the innermost open multipart whose delimiter this is |
| ScannerObject.StructureScanner.TakeDelimiterLine | apps/imap/src/structure.ts:215-229 | parts above close, the line is counted, and a child opens within the limits |
| ScannerObject.StructureScanner.CloseDownTo | apps/imap/src/structure.ts:282-304 | frames close from the top down |
| ScannerObject.StructureScanner.CountLine | apps/imap/src/structure.ts:191-204 | the line is counted in every open body |
| ScannerObject.StructureScanner.TakeContentLine | apps/imap/src/structure.ts:232-247 | a body line, the empty line after headers, or a header line within the limits |
| ScannerObject.StructureScanner.Finish | apps/imap/src/structure.ts:127-138 | the tree and the size; asked again, the same |
| ScannerObject.ScanStructure | apps/imap/src/structure.ts:346-350 | a whole stream gives the structure of its concatenation |
| Fetch.ResolvePart | apps/imap/src/structure.ts:355-374 | the loop follows a part path down the tree, or finds no such part; which entity that is, is SectionOfComposed |
| Fetch.SpanInside | apps/imap/src/fetch.ts:78-98 | for every message and section, a range named lies inside the message |
| Fetch.BlobRange | apps/imap/src/content.ts:75-94 | for every chunking, what is yielded is exactly the octets from start to end |
| Fetch.SliceStream | apps/imap/src/content.ts:131-143 | for every chunking, what is yielded is exactly that slice |
| Fetch.SpanData | apps/imap/src/fetch.ts:100-111 | the size announced is the number of octets sent, and they are the part of the span asked for |
| Fetch.FetchSection | apps/imap/src/fetch.ts:78-111 | for every message, section, path and partial range, and any two chunkings: announced size, octets sent and slice of the section agree; what the section is, is SectionOfComposed |
| Fetch.BinarySize | apps/imap/src/content.ts:121-128 | the decoded size, counted or remembered |
| Fetch.DecodedBody | apps/imap/src/content.ts:109-118 | for every chunking, the loop yields the decoding of the part's body octets |
| Fetch.BinaryData | apps/imap/src/fetch.ts:113-122 | for every message, path (the empty one included) and partial range, and any chunking on each reading: announced size, octets sent and slice of the decoded part agree, and there is nothing exactly when the path names no part; which part that is, is BinaryOfComposed |
| Fetch.HeaderThenText | apps/imap/src/fetch.ts:91-92 | HEADER followed by TEXT is the whole message, for every message |
| FetchParts.SectionOfComposed | apps/imap/src/structure.ts:355-374 | for every composed message, path and section: BODY[path] is the body of the entity the path names, counting parts from one at each level, without the break its delimiter takes; BODY[path.MIME] is its header block; HEADER and TEXT of an enclosed message are its head and body; a path past the parts gives nothing |
| FetchParts.BinaryOfComposed | apps/imap/src/fetch.ts:113-122 | BINARY[path] is the decoded body of that entity, by the encoding its own header names if it is no container |
| FetchParts.PartialsJoin | apps/imap/src/fetch.ts:100-111 | ranges fetched one after the other are the range they cover together, and one from the start that is long enough is all |
| Retry.JitterBounds | apps/delivery/src/state.ts:40-51 | a delay lies within 15% of its base, for every draw |
| Retry.TemporaryFailure | apps/delivery/src/state.ts:144-195 | a temporary failure that ends before the five-day mark is retried strictly later, no sooner than the least delay and no later than the mark; one that ends at or after it bounces |
| Retry.BoundedRetries | apps/delivery/src/state.ts:144-195 | every history of temporary failures has at most 42 attempts, each retry strictly later and not past the five-day mark, and bounces exactly at the first failure at or after it |
| Retry.FortyTwoAttained | apps/delivery/src/state.ts:21-51 | 42 attempts do happen |
| Retry.OutcomeMeaning | apps/delivery/src/state.ts:144-195 | delivered exactly on delivery; bounced exactly on a permanent failure or any failure five days or more after queueing; otherwise deferred, to within the jitter of the schedule or to the five-day mark; the result logged and the reason match |
| Retry.NotificationsDue | apps/delivery/src/state.ts:144-195 | a failure notification is due exactly when the recipient bounced, failure was asked for and none was sent, a delay notification exactly when it was deferred four hours or more after queueing and likewise; there is no other |
| Retry.ScheduleIs | apps/delivery/src/state.ts:21-44 | the delays before jitter are 5, 10, 20 and 40 minutes, then 1, 2, 3 and 4 hours, and 4 hours from then on |
| Delivery.FinishHitsItsOwn | apps/delivery/src/worker.ts:267-315 | an outcome commits on the recipient that is attempting under exactly this attempt, and leaves no open attempt; what it makes of the recipient is FinishOutcome |
| Delivery.FinishOutcome | apps/delivery/src/worker.ts:267-315 | under the invariant a live attempt commits the recipient as delivered, bounced or deferred as outcome and age say, the next attempt within the jitter of the schedule or at the five-day mark, and logs the result to match |
| Delivery.FinishNotifies | apps/delivery/src/worker.ts:267-315 | it hands on a failure notification exactly when the recipient bounced, failure was asked for and none was sent, a delay notification exactly when it was deferred after four hours and likewise, and no other |
| Delivery.ClaimThenFinish | apps/delivery/src/worker.ts:158-315 | from claim to commit: one attempt more, judged by the age, the notifications and the number of attempts the recipient had at the claim |
| Delivery.StuckIsRecovered | apps/delivery/src/worker.ts:124-155 | a recipient is listed as stuck if and only if it is attempting and untouched past the lease; recovery makes it wait, due at once, with its attempts closed in error and its count as it was, and touches no other |
| Delivery.CancelOrClaim | apps/delivery/src/cancel.ts:27-38 | a cancelled recipient cannot be claimed, a claimed one cannot be cancelled, and a final one is not touched |
| Delivery.ReportActsOnce | apps/delivery/src/feedback.ts:223-246 | a report moves a recipient if and only if it is trusted and final and the recipient is delivered; it then logs a closed row, and a second report changes nothing |
| Delivery.ClaimExact | apps/delivery/src/worker.ts:158-182 | after a claim every timely continuation keeps one open attempt when attempting and none otherwise, if and only if no recovery has still to write its recipient |
| Delivery.LookExact | apps/delivery/src/worker.ts:124-134 | after a look every timely continuation keeps that, if and only if no worker still owns what it lists |
| Delivery.RecoverKeeps | apps/delivery/src/worker.ts:136-147 | writing a listed recipient keeps it, whatever happened since |
| Delivery.CancelKeeps | apps/delivery/src/cancel.ts:27-38 | a cancel keeps it |
| Delivery.FeedbackKeeps | apps/delivery/src/feedback.ts:223-246 | an asynchronous bounce keeps it |
| Delivery.RunKeeps | apps/delivery/src/worker.ts:121-315 | in every timely interleaving of workers, crashes, recoveries, cancels and bounces: one open attempt when attempting, none otherwise, and the count is the number of attempts |
| Delivery.FinalStaysFinal | apps/delivery/src/worker.ts:273-284 | in every run, timely or not, a final state stays, except delivered to bounced, and then the run holds a trusted, final report about that recipient |
| Delivery.LateCommitHitsAnother | apps/delivery/src/worker.ts:285-288 | past the lease a late commit, whenever it comes, marks delivered a recipient whose other attempt is open |
| Delivery.RecoveryHitsNewAttempt | apps/delivery/src/worker.ts:124-147 | two recoveries of one recipient can close a new worker's attempt under it |
| Jobs.ScheduleKeeps | apps/delivery/src/worker.ts:184-264 | when the batches of a job, each with its timeout and overhead, fit in the lease together, every run of jobs on schedule, with crashes, recoveries, cancels and reports between, is timely and keeps the invariant |
| Jobs.JobsFitLease | apps/delivery/src/worker.ts:234-264 | every run of jobs on schedule, each batch of a job holding a recipient it claimed, keeps the tables sound, and is timely, if and only if the number of transports times timeout and overhead is at most the lease |
| Jobs.DefaultSettings | apps/delivery/src/worker.ts:113-121 | with the default timeout and lease one transport is safe if and only if everything besides it takes at most a minute, and two or more never are |
| Delivery.DeliveryStore.Begin | apps/delivery/src/worker.ts:158-182 | the due recipients of a group are claimed, each with its own open attempt |
| Delivery.DeliveryStore.CommitOutcomes | apps/delivery/src/worker.ts:267-315 | a batch commits every outcome as FinishOutcome says and returns, in order, the notifications FinishNotifies says are due; under the invariant none is lost |
| Delivery.DeliveryStore.ListStuck | apps/delivery/src/worker.ts:124-134 | the stuck recipients, and nothing else, are listed |
| Delivery.DeliveryStore.RecoverInterrupted | apps/delivery/src/worker.ts:135-155 | the listed recipients still attempting are deferred and their attempts closed |
| DavSync.WritesKeepValid | packages/dav-store/src/store.ts:237-309 | in every run of writes the members are what the change log says |
| DavSync.LastWriteWins | packages/dav-store/src/store.ts:237-309 | after every run of writes a name is a member if and only if its last write put it, or none named it and it was one; what is put takes a new sequence number |
| DavSync.ScanMeaning | apps/dav/src/server.ts:608-619 | the scan holds the last state of each name changed up to the token it reached |
| DavSync.SyncCollection | apps/dav/src/server.ts:584-634 | one report, over reads that other writes may fall between, is the page the theorems are about |
| DavSync.IncrementalPage | apps/dav/src/server.ts:603-628 | an incremental page takes a client that is right up to its token to one right up to the page's token, whatever was written between the reads |
| DavSync.InitialPage | apps/dav/src/server.ts:593-602 | a first page, truncated or not, makes a client right up to its token |
| DavSync.PageKeepsInSync | apps/dav/src/server.ts:584-634 | both, for any request and later writes |
| DavSync.PageWithinLimit | apps/dav/src/server.ts:584-634 | a page has no more rows than its limit, is refused exactly for a token of the future, and is at the end of the log as first read unless it was cut short |
| DavSync.CaughtUp | apps/dav/src/server.ts:587 | a client right up to the end of the log has exactly the collection |
| DavSync.PageUntilDone | apps/dav/src/server.ts:584-634 | once writes stop, paging with a limit of at least one ends with the client equal to the collection |
| DavSync.LimitZeroNeverAdvances | apps/dav/src/server.ts:611-615 | with a limit of zero every incremental page is empty and returns the token it was asked with |
| Redactor.InitialResponseHidden | apps/submission/src/transcript.ts:43-50 | any two AUTH lines with the same mechanism and something after it, however spelt and spaced, are stored alike |
| Redactor.AuthLineHasParts | apps/submission/src/transcript.ts:43-50 | every AUTH line that does not end with its mechanism is such a line |
| Redactor.SummaryExact | apps/submission/src/transcript.ts:43-50 | all that is stored of an AUTH line is the verb, its first word if that is a mechanism name of at most 40 letters, digits, hyphens and underscores and [redacted] if not, and [redacted] exactly when something not blank follows |
| Redactor.AuthCommandExact | apps/submission/src/transcript.ts:37 | an AUTH line is the verb in any case, alone or before a space or tab |
| Redactor.FinalCodeExact | apps/submission/src/transcript.ts:40 | a line ends a reply if and only if it is three digits, alone or before a space |
| Redactor.AuthRedactor.constructor | apps/submission/src/transcript.ts:86-88 | nothing seen yet |
| Redactor.AuthRedactor.RedactIncoming | apps/submission/src/transcript.ts:95-107 | one client line, and what is shown of it |
| Redactor.AuthRedactor.NoteBody | apps/submission/src/transcript.ts:110-112 | a body counts as a line |
| Redactor.AuthRedactor.ObserveOutgoing | apps/submission/src/transcript.ts:115-130 | one server line moves the state only if it ends a reply |
| Redactor.ContinuationsRedacted | apps/submission/src/transcript.ts:53-131 | in every conversation and every order in which lines and replies are observed, a line the server reads inside a SASL exchange is stored as [redacted] or * |
| Redactor.RedactionEnds | apps/submission/src/transcript.ts:115-130 | when all lines are answered and the last answer was not 334, redaction is off |
| Redactor.ShownAfterwards | apps/submission/src/transcript.ts:95-130 | from then on a line that is no AUTH is stored as it is |
| Redactor.PlainSessionShown | apps/submission/src/transcript.ts:95-130 | a session without an AUTH line is stored line for line, in every order of observing it |
| Dkim.DatedSelector | apps/submission/src/dkim.ts:66-73 | the loop ends, with a selector nobody has |
| Dkim.RunKeeps | apps/submission/src/dkim-rotation.ts:166-312 | in every run: one active and one pending key at most per algorithm, no selector twice, states and their dates consistent |
| Dkim.RunForward | apps/submission/src/dkim-rotation.ts:166-312 | states only move forward, a key keeps its selector, and an algorithm with an active key always has one |
| Dkim.RetiredNoSooner | apps/submission/src/dkim-rotation.ts:179-190 | no key is retired within seven days of a moment at which it was still signing |
| Dkim.RetiredExactly | apps/submission/src/dkim-rotation.ts:179-233 | in every run after a switch the key that was signing is retired if and only if a retirement of it came seven days after the switch or later |
| Dkim.EnsureExact | apps/submission/src/dkim.ts:136-160 | ensuring keys leaves two active keys for an algorithm if and only if it had one and every active one starts after the clock reading used |
| Dkim.EarlierReadingAddsKey | apps/submission/src/dkim.ts:136-160 | a domain with one active key and any clock reading from before it: ensuring keys adds a second active one |
| Dkim.KeyStore.EnsureKey | apps/submission/src/dkim.ts:109-178 | afterwards the algorithm has an active key |
| Dkim.KeyStore.RetireKey | apps/submission/src/dkim-rotation.ts:181-186 | only a key past its overlap is retired |
| Dkim.KeyStore.RetireKeys | apps/submission/src/dkim-rotation.ts:179-190 | of an algorithm exactly the superseded keys past their overlap are retired, and no other key changes |
| Dkim.KeyStore.SwitchTo | apps/submission/src/dkim-rotation.ts:219-233 | the pending key signs and the previous one starts its overlap; a key no longer pending changes nothing |
| Dkim.KeyStore.CreateSuccessor | apps/submission/src/dkim-rotation.ts:272-296 | a pending key under a new selector, unless one was made meanwhile |
| Dkim.KeyStore.Rotate | apps/submission/src/dkim-rotation.ts:166-312 | a pass is a fair run of the steps above and keeps the invariant; it retires exactly what is past its overlap, switches if and only if there is a pending key and its record is visible, and creates a successor if and only if there is no pending key and an active one is due |
| HeaderCapture.CaptureExact | apps/smtp-in/src/spool.ts:38-72 | every chunking captures the header block of the message if and only if the block does not end exactly at the limit |
| HeaderCapture.CapturedAs | apps/smtp-in/src/spool.ts:38-72 | what is captured: the block, the whole message when it has no empty line, or nothing past the limit |
| HeaderCapture.CaptureIs | apps/smtp-in/src/spool.ts:38-72 | a block that ends with its line break at the first empty line is captured as it is if it is within the limit, and lost if not |
| HeaderCapture.CaptureWithoutBody | apps/smtp-in/src/spool.ts:38-72 | a message without an empty line is all header |
| HeaderCapture.HeaderTap.constructor | apps/smtp-in/src/spool.ts:43 | an empty tap |
| HeaderCapture.HeaderTap.Push | apps/smtp-in/src/spool.ts:45-62 | one chunk, searched from three octets before it |
| HeaderCapture.HeaderTap.Finish | apps/smtp-in/src/spool.ts:65-71 | the result once the stream has ended |
| TraceRewrite.FieldColonIndex | apps/smtp-in/src/trace-rewrite.ts:40-50 | the colon that ends a field name, if the line starts a field |
| TraceRewrite.SplitFields | apps/smtp-in/src/trace-rewrite.ts:63-83 | the loop finds every field of the block with its offsets and its unfolded value |
| TraceRewrite.ChooseRenames | apps/smtp-in/src/trace-rewrite.ts:110-115 | the fields that claim to be ours, in order |
| TraceRewrite.Splice | apps/smtp-in/src/trace-rewrite.ts:117-125 | the block with the new name at those offsets |
| TraceRewrite.RewriteAuthenticationResults | apps/smtp-in/src/trace-rewrite.ts:107-126 | offsets and splices amount to renaming line by line |
| TraceRewrite.OnlyNamesChange | apps/smtp-in/src/trace-rewrite.ts:102-126 | line by line, nothing changes but the name of an Authentication-Results field |
| TraceRewrite.FieldsKept | apps/smtp-in/src/trace-rewrite.ts:102-126 | a reader of the result sees the same fields with the same values, ours renamed |
| TraceRewrite.NoneLeft | apps/smtp-in/src/trace-rewrite.ts:102-126 | of the lines the code takes as fields, none that claims to be ours is left |
| TraceRewrite.LooselyLeftExactly | apps/smtp-in/src/trace-rewrite.ts:35-50 | to a reader that allows white space before the colon, a field of ours is left if and only if some line of the block starts one with such white space |
| TraceRewrite.BlankBeforeColonIsKept | apps/smtp-in/src/trace-rewrite.ts:35-50 | a field of ours with a space before its colon, whatever its value, passes unchanged |
| TraceRewrite.RewriteIdempotent | apps/smtp-in/src/trace-rewrite.ts:102-126 | rewriting again changes nothing |
| TraceFields.WrittenIsRead | apps/smtp-in/src/trace-rewrite.ts:63-83 | every block of well-written fields, folded or not, is read back as those fields with their folds taken out |
| TraceFields.RewriteIs | apps/smtp-in/src/trace-rewrite.ts:102-126 | the rewrite of such a block is the block with exactly the Authentication-Results fields that claim to be ours, whatever the case of the name, under the new name, and every other octet as it was |
| TraceRewrite.SkipOctets | apps/smtp-in/src/trace-rewrite.ts:148-161 | for every chunking, the stream without its first octets |
| TraceRewrite.StreamFinalMessage | apps/smtp-in/src/trace-rewrite.ts:133-162 | trace, rewritten block and the rest of the spool |
| TraceRewrite.StoreInbound | apps/smtp-in/src/trace-rewrite.ts:128-162 | for any two chunkings, capture then streaming stores trace, the block with ours renamed, and the untouched rest |
| ManageSieve.ParseStable | apps/managesieve/src/protocol.ts:143-253 | a decided answer about a buffer is unchanged by octets appended to it |
| ManageSieve.ChunksDoNotMatter | apps/managesieve/src/protocol.ts:79-129 | while no prefix of the text starves the reader, events and state depend on the text alone, not on its chunks |
| ManageSieve.StarvesExactly | apps/managesieve/src/protocol.ts:148-162 | no chunking starves the reader if and only if no prefix does |
| ManageSieve.StarvedIsLong | apps/managesieve/src/protocol.ts:94-98 | it starves only on a buffer longer than the line limit |
| SieveLimits.FitsIsWaitedFor | apps/managesieve/src/protocol.ts:143-253 | a line fits (its bad column within maxLine of its end, its quoted strings within maxLine, no string ending past both limits together) if and only if no prefix of it starves the reader |
| SieveLimits.FitsExactly | apps/managesieve/src/protocol.ts:91-162 | no chunking of a text starves the reader if and only if it fits line by line, tails of dropped literals included |
| SieveLimits.FittingChunksDoNotMatter | apps/managesieve/src/protocol.ts:79-129 | every chunking of a text that fits gives the events and state of the text |
| SieveLimits.EventsExactly | apps/managesieve/src/protocol.ts:79-129 | every chunking of a text gives its events if and only if every line fits, up to one the whole text closes as too long |
| SieveLimits.UnfinishedBadLine | apps/managesieve/src/protocol.ts:148-156 | a bad line past the limit whose end never comes starves the reader and still gives one event however it is cut |
| SieveLimits.RoomyFits | apps/managesieve/src/protocol.ts:143-253 | a line whose literals together keep to maxLiteral, or whose bad end keeps to maxLine, fits |
| SieveLimits.WithinLimitsFits | apps/managesieve/src/protocol.ts:79-129 | a text that keeps to the limits line by line fits |
| ManageSieve.LongBadLineDependsOnChunks | apps/managesieve/src/protocol.ts:148-156 | under every limit, a bad line past it is survived in one chunk and fatal in two |
| ManageSieve.TokenRoundTrip | apps/managesieve/src/protocol.ts:177-251 | a written atom, number or string, quoted or literal, is read back as itself, wherever it stands |
| ManageSieve.LineRoundTrip | apps/managesieve/src/protocol.ts:260-268 | a written line of tokens is read back as those tokens and ends where it ended, whatever follows |
| SieveGrammar.AcceptsExactly | apps/managesieve/src/protocol.ts:143-253 | the reader accepts a line as some tokens if and only if the text up to the line end is a line of the grammar for them: atoms, numbers up to 2^32 - 1, quoted strings and literals within the limits, one space between |
| SieveStream.SessionIsRead | apps/managesieve/src/protocol.ts:79-253 | any sequence of command lines, bad lines and lines with too large a literal, however cut into chunks, gives one event each, in order: the command, an error, or the loss of the literal, and none disturbs the next |
| ManageSieve.CommandReader.constructor | apps/managesieve/src/protocol.ts:73-77 | an empty reader |
| ManageSieve.CommandReader.Push | apps/managesieve/src/protocol.ts:79-88 | a chunk is skipped as far as a dropped literal reaches, and the rest kept |
| ManageSieve.CommandReader.Next | apps/managesieve/src/protocol.ts:91-129 | one call: an event, or nothing yet |
| ManageSieve.CommandReader.DropLine | apps/managesieve/src/protocol.ts:93-102 | the rest of a line whose literal was too large is dropped and reported |
| ManageSieve.CommandReader.Die | apps/managesieve/src/protocol.ts:131-135 | the connection is over |
| ManageSieve.CommandReader.ParseLine | apps/managesieve/src/protocol.ts:143-253 | the loop over a line computes the answer the theorems are about |
| ManageSieve.CommandReader.ReadToken | apps/managesieve/src/protocol.ts:177-251 | one token or the reason there is none |
| ManageSieve.CommandReader.ReadQuoted | apps/managesieve/src/protocol.ts:179-207 | the loop over a quoted string |

## Left out

- Sequence sets: `resolveSeqs`, `resolveUids` and saved results are not modelled; SEARCH takes the UIDs a set names as given.
- Mailbox management: CREATE, DELETE, RENAME (and its special case for INBOX), SUBSCRIBE and quotas.
- Blob storage: encryption, reference counts, notifications and audit rows beside each transaction.
- ENVELOPE and BODYSTRUCTURE text, header field parsing and decoding: header parsing and the transfer decoders are parameters.
- Fetch.BinaryData: the output of a transfer decoder is taken to depend on its input octets alone, not on their chunks, and a remembered size to be the decoded size.
- Jobs.JobsFitLease: a transport is taken to obey the signal that cuts it off, which the worker only sends; all other work of a batch is taken to end within the overhead; recoveries of one recipient are taken not to overlap.
- MimeCompose.ComposedIsFound: every multipart composed has its closing delimiter and every line its break; texts without them are covered by StructureSound and ChunksDoNotMatter only.
- FetchParts.SectionOfComposed: composed messages as in ComposedIsFound; which header fields HEADER.FIELDS keeps is a function parameter.
- The structure cache and its eviction order.
- MESSAGE text for SEARCH: what a text key says of a message is a parameter, the same for both uses.
- Scheduling: the job queue, `scheduleNext`, sweeps, the text of DSNs, suppression lists and message-id aliases; which DSN an outcome calls for is modelled, its sending and the marks that it was sent are not.
- Retry: delays are exact reals rounded once; the rounding of binary floating point is not modelled.
- Redactor.ContinuationsRedacted: a reply that answers no line is observed only when no line is outstanding; trailing white space outside space and tab is not trimmed; the recorder that cuts text into lines is not part of this model.
- Dkim: key material, sealing, DNS lookups and the calendar arithmetic of the due date; whether a record is visible and whether a key is due are parameters.
- DavSync: etags, preconditions, UID conflicts and the order of responses inside one report.
- ViewObject.MailboxView.ExpungeNumbered: takes distinct UIDs, as its callers give them.
- TraceRewrite.RewriteAuthenticationResults: the authserv-id a value names (comments, quotes and version) is the answer of a function parameter.
- ManageSieve: capability and status lines, and the UTF-8 encoding of strings; text is octets.
- SieveStream.SessionIsRead: a bad line is one without braces that keeps to the line limit, and a literal that is dropped is the last of its line; for other texts FitsExactly, EventsExactly and AcceptsExactly say what happens.
- Search.DateKeyExact: rows of the model hold any date; of the years 0 to 99 APPEND can store only the last days of the year 99, as EarlyRowDisagrees does, so most witnesses for ON are dates no client can store.
- Search.CompileAgrees: for compound keys dates that fit are sufficient, not necessary; the exact condition is stated for a date key by itself.
- SessionFlags.HeldFlagsAreRight: a client holds flags only from FETCH responses and its own silent STOREs; what it remembers from before SELECT is not modelled.
- Other daemons: spam scoring, Sieve execution, the HTTP API, the web client and calendar recurrence.
