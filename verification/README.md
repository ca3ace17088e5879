# blankres in Dafny

blankres reports crashes in two stages. A daemon sends a small event for every crash; the server answers
whether it wants the payload; only then, and only with the user's consent, a core dump is uploaded. This
project models that system and proves what its design promises, over every input and every interleaving.

* **The server** (`Database`, `EventsHandler`, `Storage`, `Upload`, `Ingest*`). Each SQL transaction, each chunk
  and each file operation is one step of a machine (`Ingest`), and the steps of different requests interleave
  freely with clock ticks, aborts and lost replies. The handlers and the blob writer are also methods that
  change state in place; `EventsHandler` and `IngestDisk` tie them to the machine.
* **The machine that crashes** (`DaemonState`, `Spool`, `Oops`, `Client`, `ClientRuns`, `CrashReports`). The rate limiter, the
  bounded spool, oops coalescing, the decision about one crash, and the user's decisions about pending reports,
  with restarts and several front ends at work.
* **Both together** (`Delivery`, `DeliveredCores`, `AskedCores`). A daemon that reads a journal, may be killed at any moment,
  and may miss any reply, and front ends that send what they have loaded, against the server machine.
* **Texts and signatures** (`Text`, `Numerals`, `Ordering`, `Stability`, `Utf8`, `Signature`, `FrameNames`,
  `StackTrace`, `TracePrinting`, `Apport`, `ApportLines`, `DpkgLog`, `Redact`, `Packages`, `ShippedPackages`). Parsers, the hashed bytes, and grouped package
  verification, each a loop proved against a function whose properties are then proved.

Digests, codecs and JSON validity are function parameters; where a property needs a digest without collisions,
or decoding to undo encoding, it says so. Clocks, random draws, file-system faults and network outcomes are
parameters of the steps. `dafny verify dfyconfig.toml` checks everything.

## Where the code departs from what it says or seems to promise

* The comment at `crates/blankres-server/src/db.rs:65-67` says the row lock keeps the quota from being overshot.
  The decision looks only at stored payloads, so tokens given out before the first upload ends all lead to
  payloads. The true bound is quota - 1 + k for k outstanding, it is reached for every k, and the quota is kept
  exactly when uploads are sequential (`IngestQuota.QuotaBound`, `IngestTight.QuotaKeptIff`).
* The client's size check leaves the metadata part out; the server counts it (`Upload.ClientCheckInsufficient`).
* A plus sign in a module name or in its directory cuts the module in two, so `libstdc++.so.6` and anything under
  a directory such as `/opt/c++/` is misread (`TracePrinting.LineRoundTripIff`, `StackTrace.DirectoryIff`).
* "Never for this problem" is lost when two front ends of one user decide at the same time: the second save
  replaces the first (`ClientRuns.DeclineHoldsIff` gives the exact condition).
* A daemon killed before its first position is saved restarts at the present and skips the crash it was asking
  about (`Delivery.FirstCrashSkipped`); an apt hook that writes back the state file it read earlier can undo the
  first save (`Delivery.HookUndoesSave`). `Delivery.NeverSkipsIff` says exactly when nothing can be skipped.
* A failed upload keeps the report as if it could be sent again, but the token is redeemed before the body is read,
  so no send of it can succeed any more (`DeliveredCores.FailedUploadIsFinal`). `IngestRetry.DeliverableIff` says
  exactly which tokens can still deliver.
* A clock that goes back can make the rate limiter forget crashes that still count, and 2^32 crashes in an hour are
  answered as none (`DaemonState.CountWraps`); `DaemonState.CountsRightIff` says exactly when it counts right.
* Spool files and the cursor of the apt hook are overwritten in place, so a write can be cut short. A torn spool file
  loses its event and what lay under its name (`Delivery.LossCauses`). A torn cursor file reads as none, and the hook
  reports everything again (`DpkgLog.TornWriteRepeats`); `DpkgLog.StepBackIff` says exactly when the cursor goes back.
* Spool order follows time while timestamps print equally wide (`Spool.SpoolRefinement`); across widths
  `Spool.NamesAcrossWidths` says exactly how names compare, and a crash from a machine whose clock was still near
  the epoch comes last (`Spool.WidthMatters`).
* A secret flag that stands where the value of another one is expected is redacted itself, and its own value is
  shown: `--token --password hunter2` keeps `hunter2` in the clear (`Redact.FlagHidesIff`).
* The apt hook never reports a failure logged in the second of its cursor (`DpkgLog.SameSecondMissed`), and reports
  a repeat once more on the next run (`DpkgLog.RepeatReportedNextRun`), exactly when it is newer than all that was
  reported (`DpkgLog.ReportsAgainIff`).

## Model

| member | source | states |
|---|---|---|
| Database.Database.RecordEvent | crates/blankres-server/src/db.rs:52-132 | one transaction: it fails exactly when the row id is taken and then changes nothing; otherwise the signature's event counter rises by one, the event row records the decision, and the decision is, on the columns: core available, signature not suppressed, payloads below the quota |
| Database.Database.IssueUploadToken | crates/blankres-server/src/db.rs:136-159 | stores one token row (limit cast to i64, expiry on the application's clock) or fails, exactly when the token exists or the event or signature does not, and changes nothing |
| Database.Database.RedeemUploadToken | crates/blankres-server/src/db.rs:174-197 | succeeds exactly for an unredeemed, unexpired token, marks only that row, and leaves the token unredeemable in every case |
| Database.Database.RecordReport | crates/blankres-server/src/db.rs:200-232 | adds the report row and one payload to its signature, or fails and changes nothing |
| EventsHandler.PostEvent | crates/blankres-server/src/routes.rs:137-171 | one round of the batch loop: a step or two of the server machine; what is asked for expires `ttl` after now; a database error ends the request |
| EventsHandler.PostEvents | crates/blankres-server/src/routes.rs:128-174 | the batch loop on the tables in place: what it does is a run of the server machine, so every theorem about its decisions applies; on success the reply holds one directive per event in order, and what it asks for expires `ttl` after now; on a database error no reply exists and what was committed stays |
| IngestDecision.DecisionIff | crates/blankres-server/src/db.rs:65-132 | in every run an event is recorded as wanted, and a token is about to be issued for its row, if and only if it has a core, no stored row of its signature is suppressed, and the number of report rows of the signature is below the quota; otherwise its directive says that nothing is needed |
| IngestDecision.NothingAskedWhileSuppressed | crates/blankres-server/src/db.rs:86-90 | from the moment an operator suppresses a signature until the suppression is lifted, no event of it is marked wanted, and no token is issued for it but to requests whose decision was taken before |
| IngestQuota.PotentialStep | crates/blankres-server/src/db.rs:65-132 | stored payloads + decisions without token + live tokens + uploads in flight rises only at a recorded event that saw fewer payloads than the quota, and then by exactly one |
| IngestQuota.PayloadsGrow | crates/blankres-server/src/db.rs:226-229 | stored payloads never decrease |
| IngestQuota.PotentialFrozen | crates/blankres-server/src/db.rs:86-132 | along any run, once payloads have reached the quota the potential never rises again |
| IngestQuota.PotentialBound | crates/blankres-server/src/db.rs:52-132 | with at most k outstanding at every moment the potential stays within quota - 1 + k |
| IngestQuota.QuotaBound | crates/blankres-server/src/db.rs:52-132 | in every state of every run with at most k >= 1 outstanding, payloads <= quota - 1 + k for a positive quota, and none otherwise |
| IngestTight.BoundIsReached | crates/blankres-server/src/db.rs:65-90 | for every quota and every k a run reaches that bound exactly, so the row lock named in the comment does not keep the quota from being overshot |
| IngestTight.QuotaKeptIff | crates/blankres-server/src/db.rs:65-90 | the quota is never exceeded if and only if at most one upload is outstanding at a time |
| IngestLinks.LinkedStep | crates/blankres-server/src/db.rs:52-232 | every step keeps: tokens belong to wanted events with a core, one token per event; a pending decision has no token yet; uploads hold a redeemed token and stay within its limit; reports are linked to a spent token of their event and signature, one report per event |
| IngestLinks.CountersStep | crates/blankres-server/src/db.rs:70-76 | every step keeps: a signature's `events` and `payloads` equal the numbers of its event and report rows |
| IngestLinks.FaithfulStep | crates/blankres-server/src/routes.rs:135-173 | every step keeps: a reply has as many directives as its batch has events, and directive i names a recorded row of exactly event i, its decision, and a token of that row if and only if the payload is wanted |
| IngestLinks.PreservesStep | crates/blankres-server/src/db.rs:52-232 | no step loses or alters an event row, a report row or what a token is for, and a redeemed token stays as it is |
| IngestSafety.RunSafe | crates/blankres-server/src/routes.rs:128-325 | all server invariants hold in every state of every run |
| IngestSafety.ReportsAreSolicited | crates/blankres-server/src/db.rs:174-232 | in every reachable state reports map injectively to redeemed tokens; the event behind a report had a core, was marked wanted and has the report's signature; the bytes stay within the server maximum |
| IngestSafety.RedeemedOnce | crates/blankres-server/src/db.rs:169-197 | in no run is one token redeemed by two steps |
| IngestSafety.HistoryKept | crates/blankres-server/src/db.rs:52-232 | between any two moments of a run rows survive, tokens stay spent, and without digest collisions blobs keep their bytes |
| IngestLimits.HonestStep | crates/blankres-server/src/routes.rs:148-170 | every step keeps: a directive with a token, in a request at work or in a reply, announces exactly the size its token is good for, through the signed column and back, and its expiry |
| IngestLimits.AnnouncedLimitHolds | crates/blankres-server/src/routes.rs:148-203 | in every state of every run, an upload with the token of a directive that was sent is held to exactly the announced size, and the report recorded for that event stays within it |
| IngestLimits.AnnouncedCoreFits | crates/blankres-server/src/routes.rs:148-152 | in every run, for a token of an event that announced a core of some size: what the client sends with a core of that size is accepted if and only if metadata and the other attachments take at most 1048576 bytes and all of it at most the server maximum |
| IngestLimits.RedeemableIff | crates/blankres-server/src/db.rs:169-197 | in every run, an upload can begin with an issued token if and only if it has not been redeemed since and its expiry lies ahead |
| IngestRetry.FailureKills | crates/blankres-server/src/routes.rs:194-325 | an upload that ends at any step without a report, aborts included, leaves its token dead: spent, held by no upload, its event without a report |
| IngestRetry.DeadStep | crates/blankres-server/src/db.rs:174-232 | no step of the server revives a dead token |
| IngestRetry.DeadForever | crates/blankres-server/src/db.rs:174-232 | no continuation ever records a report for the event of a dead token |
| IngestRetry.DeliverableIff | crates/blankres-server/src/routes.rs:194-325 | for a token that no upload holds and whose event has no report, and for some valid metadata within its limit: some continuation records a report if and only if the token is unredeemed and unexpired: nothing that failed can be tried again |
| Storage.LocalStorage.Begin | crates/blankres-server/src/storage.rs:53-66 | opens an empty temporary file and leaves all else alone |
| Storage.BlobWriter.Write | crates/blankres-server/src/storage.rs:83-93 | appends the chunk to hasher, count and file exactly when the sum stays within the limit; a refused chunk changes nothing |
| Storage.BlobWriter.Finish | crates/blankres-server/src/storage.rs:100-124 | returns digest and size of the bytes written; the temporary file is gone and the blob is stored unless its address was taken already |
| Storage.BlobWriter.Abort | crates/blankres-server/src/storage.rs:127-130 | removes the temporary file and nothing else |
| IngestDisk.ContentAddressedStep | crates/blankres-server/src/storage.rs:106-118 | with finishers racing between their look and their rename, every blob still lies at the digest of its bytes, and none disappears |
| IngestDisk.BlobsStable | crates/blankres-server/src/storage.rs:112-118 | without digest collisions no step changes a stored blob: the race of two equal contents is harmless |
| IngestDisk.FirstWriterStays | crates/blankres-server/src/storage.rs:100-118 | collisions or not, an upload looks for its blob as the part ends, and the stored blobs change only by the commit of one that did not find it |
| IngestDisk.FilesBackedStep | crates/blankres-server/src/storage.rs:74-118 | an open temporary file holds exactly the bytes its own writer hashed, and no two uploads share one |
| IngestDisk.RefineStep | crates/blankres-server/src/routes.rs:208-300 | interleaved chunk by chunk, every upload has accumulated what the sequential handler computes from the parts it finished, and every report row is what that handler accepts from some body |
| IngestDisk.AllResolveStep | crates/blankres-server/src/routes.rs:271-300 | without digest collisions every blob reference in an upload or report resolves to a stored blob of the stated size |
| Upload.StreamPart | crates/blankres-server/src/routes.rs:227-258 | the chunk loop: refused for size exactly when the part's bytes exceed what is left of the limit, else for truncation; the writer's own limit never fires first; a refused part leaves no temporary file |
| Upload.ReceivePart | crates/blankres-server/src/routes.rs:208-279 | one round of the part loop: metadata is kept in memory and must be JSON, anything else becomes a stored blob |
| Upload.PostReport | crates/blankres-server/src/routes.rs:203-286 | the whole handler: its verdict is a function of the parts' bytes, the store only grows and stays content addressed, temporary files are gone, and every reference it returns is stored |
| Upload.AcceptedIff | crates/blankres-server/src/routes.rs:203-286 | accepted if and only if the body is well formed, every part is complete, metadata is present and valid JSON, and all bytes together fit the limit; the stored total counts every byte and the last part of a name wins |
| Upload.RefusedIff | crates/blankres-server/src/routes.rs:208-286 | why a body is refused: for its first part whose bytes no longer fit, else that breaks off, else that is metadata and no JSON; or, with all parts in order, because the body breaks off, else because no part is named `metadata` |
| Upload.ChunkingIrrelevant | crates/blankres-server/src/routes.rs:227-258 | two bodies with the same parts cut into chunks differently get the same verdict, digests, sizes and total |
| Upload.ClientUploadAcceptedIff | crates/blankres-client/src/lib.rs:132-171 | what the client builds is accepted if and only if metadata plus attachments fit the limit |
| Upload.ClientCheckInsufficient | crates/blankres-client/src/lib.rs:141-146 | the client's own size check leaves the metadata out: an attachment of exactly the allowed size passes it and is refused by the server |
| Delivery.KeptStep | crates/blankres-daemon/src/reporter.rs:116-199 | a crash that is recorded or spooled stays so at every step of server, daemon, hook or front end, unless that step is one of the named losses |
| Delivery.AdvanceStep | crates/blankres-daemon/src/main.rs:105-119 | a journal entry the daemon moves past is at that moment recorded or spooled, or that very step suppressed, skipped or lost it |
| Delivery.PassedIsKept | crates/blankres-daemon/src/reporter.rs:116-253 | every journal entry the daemon has moved past by now is recorded or spooled, or was suppressed, skipped or lost by one step and has been nowhere since that step |
| Delivery.AtLeastOnce | crates/blankres-daemon/src/reporter.rs:116-253 | over every run with lost and late replies, kills, failed saves and rewritten state files: from the moment the daemon has moved past a journal entry, at every later moment (also after a restart from an older position) an event with its signature, time and executable is recorded on the server or in the spool, or there is one step that suppressed, skipped or lost it, and at no moment since that step has it been recorded or spooled |
| Delivery.LossCauses | crates/blankres-daemon/src/spool.rs:30-39 | a crash is lost only to a spool at its cap, to a write that completes or is torn under the name of its file, to its own write not completing, or to its file becoming unreadable |
| Delivery.DrainKeeps | crates/blankres-daemon/src/reporter.rs:230-253 | removing any number of drained files after a reply loses nothing: each was recorded by the server |
| Delivery.RepliedRecorded | crates/blankres-server/src/routes.rs:135-173 | a reply to a batch means that every event of the batch is recorded, and has full length |
| Delivery.NeverSkipsIff | crates/blankres-daemon/src/journal.rs:88-97 | from a sound state, no continuation ever skips an entry if and only if a position is in the state file and no hook is about to write back a file without one, or the journal has ended behind everything saved |
| Delivery.NeverSkipped | crates/blankres-daemon/src/journal.rs:88-97 | such a state stays one along every continuation, and no step of it skips |
| Delivery.SkipWithout | crates/blankres-daemon/src/journal.rs:88-97 | without a saved position at most two steps lead to a skip, the restart finding the daemon's memory as it was |
| Delivery.SkipByHook | crates/blankres-hooks/src/main.rs:83-85 | from a saved position, a hook that read the file before it was saved leads to a skip, with the rest of the memory kept |
| Delivery.FirstCrashSkipped | crates/blankres-daemon/src/journal.rs:88-97 | a run from the installation, for every configuration that reports at all: journal entry, question, kill; the restarted daemon is behind the crash, which is neither recorded nor spooled |
| Delivery.HookUndoesSave | crates/blankres-hooks/src/main.rs:83-85 | a run from the installation in which the first position was saved, the hook writes back the file it read before, and the second crash is skipped |
| Delivery.ServerReachable | crates/blankres-server/src/routes.rs:128-325 | the server inside such a run is a reachable state of the server machine, so all its theorems apply |
| DeliveredCores.SendStores | crates/blankres-session/src/lib.rs:237-247 | a send that succeeds has a report of that very event on the server whose core dump is byte for byte the file it is about to delete |
| DeliveredCores.CoreOutlivesSend | crates/blankres-session/src/lib.rs:237-247 | along every run, without digest collisions: when a successful send deletes a core, the server holds that report and those bytes then and at every later moment |
| DeliveredCores.FailedUploadIsFinal | crates/blankres-session/src/lib.rs:237-247 | once an upload with the token of a report has failed, no later send of that report by its directive ever succeeds, though the report stays in the store |
| AskedCores.AskedForIff | crates/blankres-server/src/db.rs:52-132 | over whole runs of daemon and server: the answer about a crash that the daemon took up asks for the payload if and only if the journal named a core whose size could be read, the signature was not suppressed and its stored reports were below the quota when the event was recorded; such an answer is actionable exactly until its expiry, any other never |
| AskedCores.AnswerLeads | crates/blankres-daemon/src/reporter.rs:132-171 | how the question about a crash ends: an actionable answer, or none, leaves the core and a report in the part of the crash's user that refers to the core, with that directive or awaiting one; any other answer leaves no report and takes the core if configured |
| Client.Machine.Gate | crates/blankres-daemon/src/reporter.rs:74-128 | every crash is charged; it is suppressed if and only if the hour is full or the signature is declined in the daemon's state or the user's file; only an unsuppressed one is counted and asked about, by an event that says a core is available exactly when the journal names one whose size was read, that size, and a count one above the stored one |
| Client.Machine.Conclude | crates/blankres-daemon/src/reporter.rs:132-227 | a non-actionable answer drops the core if configured, an actionable one writes a pending report, no answer spools the event and writes a report that awaits its directive |
| Client.Machine.HandleCoredump | crates/blankres-daemon/src/reporter.rs:69-171 | both halves together; the outcome says suppressed if and only if the gate's condition held |
| Client.Machine.Send | crates/blankres-session/src/lib.rs:212-247 | on success or when not wanted the core and the report are gone; on expiry, an unreachable server or a failed upload nothing has changed |
| Client.Machine.Discard | crates/blankres-session/src/lib.rs:250-253 | removes the referenced core and the report, nothing else |
| Client.Machine.WritePending | crates/blankres-session/src/store.rs:42-59 | the report lies under its user and its name, replacing an older one of the same name, or nothing is written |
| Client.Machine.DeclineForever | crates/blankres-session/src/lib.rs:256-262 | after a successful save the signature is in the user's file and no earlier one has gone; only then core and report are removed; a failed save removes nothing |
| CrashReports.EventSays | crates/blankres-collect/src/stage1.rs:71-124 | the event about a crash taken up: entry, signature, time and executable of the record, core available if and only if the journal names a core whose size could be read, and that size; the question keeps the core that could be attached |
| CrashReports.TakenUpIff | crates/blankres-daemon/src/reporter.rs:74-105 | a crash is taken up if and only if fewer than `limit` were seen in the hour, the daemon's state does not decline its signature, and neither does its user's file |
| CrashReports.CrashCountIs | crates/blankres-daemon/src/reporter.rs:106-107 | along any run, the count in an event is what the memory held when it was loaded plus one for every crash of the signature taken up since, this one included |
| CrashReports.AtMostLimitTakenUp | crates/blankres-daemon/src/reporter.rs:76-84 | along any run of a daemon started with an empty window, at most `limit` crashes of one program are asked about in any 3600 seconds in which they are counted right |
| CrashReports.SameNameIff | crates/blankres-report/src/report.rs:144-160 | two reports lie under one path if and only if they are of one user, of the same program up to leading slashes and slashes turned into underscores, and of signatures that agree in twelve characters |
| ClientRuns.CoreStep | crates/blankres-daemon/src/reporter.rs:202-212 | a step deletes a core if and only if it is a non-actionable answer with deletion enabled, a discard or decline, a successful send or a not-wanted answer, for that core |
| ClientRuns.CoreDeletedOnlyBy | crates/blankres-daemon/src/reporter.rs:202-212 | along any run, a core that has disappeared was deleted by one of those steps |
| ClientRuns.DeclinedForever | crates/blankres-session/src/lib.rs:256-262 | after a successful decline with no other front end of that user between load and save, every later crash of that user and signature asks nothing, counts nothing, spools nothing, writes nothing and deletes nothing, through restarts and all else |
| ClientRuns.DeclineHoldsIff | crates/blankres-session/src/store.rs:187-217 | no continuation ever raises the problem again if and only if the file names the signature and so does every list a front end of that user is about to save |
| ClientRuns.LostDecline | crates/blankres-session/src/store.rs:187-217 | otherwise a run of three steps raises it again: the other front end saves the list it loaded earlier, the daemon restarts with its memory as it was (unless the memory itself holds a decline), and a crash comes an hour after the last charge |
| ClientRuns.SticksForever | crates/blankres-daemon/src/reporter.rs:94-104 | a decline that sticks keeps sticking at every later state of any run |
| ClientRuns.ListsPlainStep | crates/blankres-session/src/store.rs:198-203 | every step keeps: no list of declined signatures names one twice |
| ClientRuns.PendingSoundStep | crates/blankres-session/src/store.rs:42-59 | every step keeps: a pending report lies under its own name and either awaits a directive or holds one with a token |
| ClientRuns.SendFailures | crates/blankres-session/src/lib.rs:212-247 | expiry is exactly a lapsed directive of a report that does not await one; every failure but not-wanted leaves everything in place; a report as those are never lacks a token |
| ClientRuns.TokenNeverMissing | crates/blankres-session/src/lib.rs:212-247 | in no run does sending a report that lies in the store fail for want of a token |
| DaemonState.State.ChargeRateLimit | crates/blankres-daemon/src/state.rs:86-92 | the loop prunes one executable's list, answers how many times remain, appends now, and touches nothing else |
| DaemonState.State.NoteSignature | crates/blankres-daemon/src/state.rs:64-68 | one more for this signature, declined flag kept; answers the new count |
| DaemonState.State.Decline | crates/blankres-daemon/src/state.rs:78-80 | sets the declined flag of one signature and keeps its count |
| DaemonState.PrunedIsEnough | crates/blankres-daemon/src/state.rs:86-92 | with a clock that does not go back, pruning never removes a time that a later look needs |
| DaemonState.SeenIsArrivals | crates/blankres-daemon/src/state.rs:86-92 | the answer is the number of all earlier charges of that executable in the last 3600 seconds, as a u32 |
| DaemonState.ArrivalsAre | crates/blankres-daemon/src/state.rs:86-92 | arrivals are the charges of that executable with `now` less than 3600 seconds after them |
| DaemonState.GateIff | crates/blankres-daemon/src/reporter.rs:76-84 | a crash that is counted right passes if and only if fewer than `limit` arrivals, suppressed ones included, lie in the past hour |
| DaemonState.AtMostLimit | crates/blankres-daemon/src/reporter.rs:76-84 | any window of 3600 seconds whose crashes of one executable are counted right lets at most `limit` of them through, whatever came before or after |
| DaemonState.ChronologicalCounts | crates/blankres-daemon/src/state.rs:86-92 | with a clock that does not go back, a crash is counted right if and only if fewer than 2^32 arrivals lie in the past hour |
| DaemonState.AtMostLimitInOrder | crates/blankres-daemon/src/reporter.rs:76-84 | so with such a clock and fewer than 2^32 crashes in any past hour, every window lets at most `limit` through |
| DaemonState.CountsRightIff | crates/blankres-daemon/src/state.rs:86-92 | for every history and whatever the clock does: the pruned list never counts too many; it counts right if and only if no later charge of the executable was made at a time at which an earlier one that counts now lay outside the window; and the u32 answer is the number of arrivals if and only if, besides, that number is below 2^32 |
| DaemonState.PrunedIff | crates/blankres-daemon/src/state.rs:86-92 | the same for a list of times pruned at each of them |
| DaemonState.BackwardsClockForgets | crates/blankres-daemon/src/state.rs:88 | a history in which that condition fails: the answer is too small |
| DaemonState.CountWraps | crates/blankres-daemon/src/state.rs:89 | the history of 2^32 crashes of one executable at one time is answered as none |
| Spool.Spool.Trim | crates/blankres-daemon/src/spool.rs:81-94 | in place: the oldest names are removed until fewer than 256 files remain |
| Spool.Spool.Push | crates/blankres-daemon/src/spool.rs:30-39 | trims, then the event lies under its name; a failing write leaves only the trimming, or a file of that name that cannot be read in place of what was there |
| Spool.Spool.DrainList | crates/blankres-daemon/src/spool.rs:42-64 | lists every readable event file once in name order, and removes exactly the files that do not parse |
| Spool.PushedWithinCap | crates/blankres-daemon/src/spool.rs:81-94 | at most 256 files after every push, however its write ended and whatever was there before |
| Spool.TrimIsDropping | crates/blankres-daemon/src/spool.rs:89-92 | sorting and removing the first names is the same as dropping the oldest one at a time |
| Spool.SpoolHoldsNewest | crates/blankres-daemon/src/spool.rs:30-39 | events pushed in name order: the spool holds exactly the last min(n, 256) of them |
| Spool.DrainInOrder | crates/blankres-daemon/src/spool.rs:42-64 | and a drain lists exactly those, oldest first |
| Spool.NamesFollowTime | crates/blankres-daemon/src/spool.rs:32-36 | file names sort by (timestamp, hash prefix) whenever the timestamps print equally wide |
| Spool.SameFileIff | crates/blankres-daemon/src/spool.rs:32-36 | two events have one file if and only if they are of one second and their hashes agree in sixteen characters |
| Spool.NamesAcrossWidths | crates/blankres-daemon/src/spool.rs:32-36 | when the first timestamp prints narrower, the names compare as it compares with the second one without its surplus digits |
| Spool.WidthMatters | crates/blankres-daemon/src/spool.rs:32-36 | so a crash filed with the clock one day past the epoch is listed and dropped after one of the year 2025 |
| Spool.SpoolRefinement | crates/blankres-daemon/src/spool.rs:30-64 | equal-width timestamps and strictly increasing (timestamp, hash prefix) keys: the spool holds exactly the last min(n, 256) events, and every drain lists exactly those, oldest first |
| Numerals.LeadingDigits | crates/blankres-daemon/src/spool.rs:32-36 | the first digits of a numeral are the numeral without the rest |
| Numerals.EqualWidthOrder | crates/blankres-daemon/src/spool.rs:32-36 | decimal strings of equal width compare as their numbers do |
| Oops.Coalesce | crates/blankres-daemon/src/main.rs:121-160 | the loop and its final flush emit exactly the groups of a list of blocks that is in order, disjoint, contiguous and maximal, each starting at a marker with every line within 10 seconds, and covering every marker line |
| Oops.MarkersOnce | crates/blankres-daemon/src/main.rs:133-147 | no line lies in two groups |
| Oops.CoalescedUnique | crates/blankres-daemon/src/main.rs:133-147 | that description has only one solution for a stream |
| Oops.GroupsUnique | crates/blankres-daemon/src/main.rs:121-160 | so a stream determines the emitted groups, lines and start times included |
| Oops.StartsOopsIff | crates/blankres-daemon/src/oops.rs:12-30 | a line starts an oops if and only if one of the eight texts stands anywhere in it |
| Oops.WithinIff | crates/blankres-daemon/src/oops.rs:24-53 | a line belongs to an open oops if and only if it is dated at most ten seconds after its start |
| Signature.FromFrames | crates/blankres-report/src/signature.rs:103-131 | the incremental hasher computes the specified signature, whose names and bytes `FrameNames` describes; without frames the coarse one |
| Signature.Coarse | crates/blankres-report/src/signature.rs:137-151 | likewise for the coarse bytes with the package version |
| Signature.NoiseInFront | crates/blankres-report/src/signature.rs:103-110 | noise names in front of names with a real one leave the significant names unchanged |
| Signature.DeepFramesIgnored | crates/blankres-report/src/signature.rs:106-110 | names after five significant ones do not matter |
| Signature.PreciseInjective | crates/blankres-report/src/signature.rs:116-124 | for NUL-free texts two precise encodings are equal if and only if executable, signal (none as 0) and significant frames are |
| Signature.CoarseInjective | crates/blankres-report/src/signature.rs:138-144 | two coarse encodings are equal if and only if executable, signal and version (none as empty) are |
| Signature.KindsApart | crates/blankres-report/src/signature.rs:117-139 | no precise encoding equals a coarse one |
| Signature.EqualHashes | crates/blankres-report/src/signature.rs:103-131 | two precise signatures with one hash come from the same executable, signal and frames, or exhibit a digest collision |
| FrameNames.NormalizedIff | crates/blankres-report/src/signature.rs:40-61 | a frame contributes the small letters of its symbol (the text before the first plus sign, trimmed) unless that is empty or n/a; else of its module, followed by +0x and the offset in hexadecimal if there is one; else ?? |
| FrameNames.SameNameIff | crates/blankres-report/src/signature.rs:40-61 | two frames contribute the same name if and only if they have the same symbol up to case and offset suffix, or the same module up to case and the same offset, or one is a module whose name is spelled like the other's place |
| FrameNames.NoiseIff | crates/blankres-report/src/signature.rs:77-96 | a name is noise if and only if it starts with one of the ten prefixes |
| FrameNames.NamesOfTrace | crates/blankres-report/src/signature.rs:103-131 | the signature of a trace lists what its frames contribute from the first that is not noise (or from the top if all are), five at most, and hashes executable, signal and those names |
| FrameNames.SameNamesIff | crates/blankres-report/src/signature.rs:103-131 | two traces have the same significant names if and only if the frames that count are alike one by one |
| FrameNames.PreciseLayout | crates/blankres-report/src/signature.rs:116-124 | the hashed bytes: the tag, the executable, a zero byte, the signal with its lowest byte first, and each name after a zero byte |
| FrameNames.CoarseLayout | crates/blankres-report/src/signature.rs:138-144 | likewise for the coarse bytes with the package version |
| Utf8.EncodeInjective | crates/blankres-report/src/signature.rs:118-123 | different texts feed different bytes to the hasher |
| StackTrace.ParseJournalStackTrace | crates/blankres-report/src/signature.rs:168-194 | the line loop computes the frames of the first block |
| StackTrace.AddressCut | crates/blankres-report/src/signature.rs:199-210 | in every frame line the first occurrence of the address is the second word itself |
| StackTrace.ParseWritten | crates/blankres-report/src/signature.rs:197-241 | a frame line is read as its text after the address says, whatever its number and address |
| StackTrace.EveryFrameLine | crates/blankres-report/src/signature.rs:197-205 | every line read as a frame has that shape |
| StackTrace.DirectoryIff | crates/blankres-report/src/signature.rs:223-249 | for a module with an offset the directory leaves the place unchanged if and only if it has no plus sign |
| StackTrace.BasenameIs | crates/blankres-report/src/signature.rs:243-250 | the name of a module is what follows its last slash; a path that ends with its slash, or has none, is kept whole |
| StackTrace.DirectoryDropped | crates/blankres-report/src/signature.rs:243-250 | with or without an offset, a plus-free directory never reaches the frame |
| StackTrace.MovedSameFrame | crates/blankres-report/src/signature.rs:197-241 | lines that differ in number, address and directory give the same frame |
| StackTrace.OnlyTheBlock | crates/blankres-report/src/signature.rs:168-194 | text before the first header, the thread number and everything after the first block do not matter |
| StackTrace.EveryMessage | crates/blankres-report/src/signature.rs:168-194 | every message with a header splits into such parts, one without has no frames |
| StackTrace.HeaderIff | crates/blankres-report/src/signature.rs:168-180 | a header is a line that, trimmed, starts with the header text |
| StackTrace.InBlockIff | crates/blankres-report/src/signature.rs:180-194 | a block goes on exactly as long as trimmed lines start with a hash sign |
| StackTrace.LayoutInvariance | crates/blankres-report/src/signature.rs:103-250 | messages whose first blocks differ only in addresses, numbers and directories without a plus sign have the same frames and the same signature (a directory with one changes the frame: `StackTrace.DirectoryIff`) |
| StackTrace.NoiseOnTop | crates/blankres-report/src/signature.rs:103-131 | noise frames on top of a trace with a real frame leave the signature unchanged |
| StackTrace.DeepFrames | crates/blankres-report/src/signature.rs:103-131 | so do frames below the fifth significant one |
| TracePrinting.LineRoundTripIff | crates/blankres-report/src/signature.rs:196-241 | a printed frame line is read back as its frame if and only if its module has no plus sign |
| TracePrinting.PlusCuts | crates/blankres-report/src/signature.rs:223-230 | a plus sign in the module (`libstdc++.so.6`) always loses its name |
| TracePrinting.TraceRoundTrip | crates/blankres-report/src/signature.rs:154-250 | reading a printed trace gives its frames back, whatever the addresses and the thread |
| Packages.Build | crates/blankres-collect/src/pkg.rs:46-80 | one pass over all list files: the owner of every path is the package of the last line naming it |
| Packages.OwnerOfAnyListing | crates/blankres-collect/src/sys.rs:40-47 | in whatever order the directory is enumerated |
| Packages.Md5Sums | crates/blankres-collect/src/pkg.rs:134-158 | the recorded digest of every path is that of the last line naming it in the first readable candidate file |
| ShippedPackages.RecordedWritten | crates/blankres-collect/src/pkg.rs:134-158 | for a checksum file written as lines of digest, two spaces and a plain relative path, under either name: the recorded digest of the absolute path is the one on the last line for it, and there is none without such a line |
| ShippedPackages.OwnerInstalled | crates/blankres-collect/src/pkg.rs:46-80 | with list files written as package, optional architecture and `.list`: the owner of a plain path is the package that alone lists it, and nobody owns an unlisted one |
| ShippedPackages.VerifyInstalled | crates/blankres-collect/src/pkg.rs:46-210 | on such a system, for whatever verification returns: a file is reported for a package, as often as it was given, if and only if that package alone lists it, its last checksum for it is on file, the bytes can be read, and their digest is another |
| ShippedPackages.Piece | crates/blankres-collect/src/pkg.rs:70 | a piece between slashes adds nothing to a path when it is empty or a dot, and else a component of its own |
| Packages.GroupByPackage | crates/blankres-collect/src/pkg.rs:179-184 | each package's group is the given paths it owns, in the given order |
| Packages.CheckGroup | crates/blankres-collect/src/pkg.rs:186-206 | appends the findings of one group |
| Packages.GroupAgrees | crates/blankres-collect/src/pkg.rs:176-210 | one group's findings are, path by path, those of the ungrouped check |
| Packages.Verify | crates/blankres-collect/src/pkg.rs:176-210 | whatever order the packages are visited in, the result is the stable path sort of the naive path-by-path check |
| Packages.VerifyFresh | crates/blankres-collect/src/pkg.rs:46-210 | with a fresh index: sorted by path, and each file that is owned, has a recorded digest, is readable and differs is reported as often as it was given, and nothing else is; `ShippedPackages.VerifyInstalled` says what that means for written files |
| Packages.NaiveCounts | crates/blankres-collect/src/pkg.rs:176-210 | the naive check reports exactly the differing files, with multiplicity |
| Packages.KeyOrderTotal | crates/blankres-collect/src/pkg.rs:208 | the order of paths is total on what their spellings denote |
| ShippedPackages.NormalsOrder | crates/blankres-collect/src/pkg.rs:208 | plain paths are ordered name by name, a prefix first |
| Stability.SortAgree | crates/blankres-collect/src/pkg.rs:208 | a stable sort by a key depends only on the order among equal keys |
| Apport.Parse | crates/blankres-report/src/apport.rs:52-104 | the line loop, errors included, computes the fold of the line machine |
| Apport.FinishField | crates/blankres-report/src/apport.rs:106-137 | text chunks are joined, binary chunks decoded, concatenated and inflated; the first failure decides |
| Apport.RoundTrip | crates/blankres-report/src/apport.rs:52-137 | parsing a printed list of well-formed fields gives their values, through first-line values, continuations, dots for blank lines and chunked binary fields |
| Apport.DistinctKept | crates/blankres-report/src/apport.rs:78-81 | with distinct names every field is read back under its name |
| Apport.LineSurvivesIff | crates/blankres-report/src/apport.rs:65-70 | a continuation line comes back if and only if it is not a lone dot |
| ApportLines.RefusedIff | crates/blankres-report/src/apport.rs:60-95 | a file is refused for its form, at line n, if and only if line n is indented and only blank unindented lines precede it, or is to begin a field, has no colon, and the lines before it can be read by themselves |
| ApportLines.BlankLineIgnored | crates/blankres-report/src/apport.rs:72-76 | a blank unindented line may stand anywhere, inside a field as well, without changing what is read |
| ApportLines.OpenedSays | crates/blankres-report/src/apport.rs:83-95 | a field line, whatever space stands around its name and before its value: the trimmed name, binary if and only if the value is `base64`, and the value as first chunk unless it is that or empty |
| ApportLines.ChunksTrimmed | crates/blankres-report/src/apport.rs:106-125 | space around the chunks of a binary field does not matter |
| DpkgLog.ParseDpkgLog | crates/blankres-hooks/src/lib.rs:94-135 | the loop and the in-place removal of repeats compute the failures newer than the cursor |
| DpkgLog.NewestIsGreatest | crates/blankres-hooks/src/lib.rs:148-150 | the greatest of the timestamps, and one of them |
| DpkgLog.EveryProblemReported | crates/blankres-hooks/src/lib.rs:131-134 | a run reports the package and state of every failure of the log newer than its cursor |
| DpkgLog.DedupedApart | crates/blankres-hooks/src/lib.rs:131-134 | where the problem changes, the failures before and after are kept as if each list stood alone |
| DpkgLog.DedupedRow | crates/blankres-hooks/src/lib.rs:131-134 | of one problem in a row the first failure is kept: with the former, only repeats in a row are dropped |
| DpkgLog.FailureStatesAre | crates/blankres-hooks/src/lib.rs:70-92 | the three states that are failures |
| DpkgLog.RunProgress | crates/blankres-hooks/src/main.rs:74-141 | a successful run that reports something reports only newer failures of the log and moves the cursor strictly forward, past all of them |
| DpkgLog.StepBackIff | crates/blankres-hooks/src/main.rs:66-141 | a run leaves the cursor at or past where it was if and only if it does not lose it: it had one, found something new, sent it, and the write of its state file was torn |
| DpkgLog.CursorNeverBack | crates/blankres-hooks/src/main.rs:118-141 | along any runs of which none loses the cursor, failed sends and writes that left the file alone included, it never goes back |
| DpkgLog.NothingTwice | crates/blankres-hooks/src/main.rs:74-141 | nothing a successful run reported is reported by a later run, whatever the log has become, while no run in between loses the cursor |
| DpkgLog.StartsOver | crates/blankres-hooks/src/main.rs:66-69 | a run that loses the cursor makes the next one report the whole of the log it finds |
| DpkgLog.RepeatableIff | crates/blankres-hooks/src/main.rs:66-141 | at any time some log makes the hook report once more what it reported before if and only if that failure is newer than the cursor |
| DpkgLog.TornWriteRepeats | crates/blankres-hooks/src/main.rs:129-141 | three runs on written logs: one failure is reported, then another with a torn write of the cursor, and the third run reports both again |
| DpkgLog.PendingShrinks | crates/blankres-hooks/src/main.rs:74-141 | each such run leaves strictly fewer timestamps pending |
| DpkgLog.ReachesQuiet | crates/blankres-hooks/src/main.rs:74-77 | on a fixed log nothing is left to report after as many runs as there are distinct failure timestamps |
| DpkgLog.ReportsAgainIff | crates/blankres-hooks/src/lib.rs:131-134 | a second run on the same log reports something if and only if some failure is newer than every one the first run reported |
| DpkgLog.RepeatReportedNextRun | crates/blankres-hooks/src/lib.rs:131-134 | on one log of two status lines of one package and state, the first run reports the first line, does not move past the second, and the second run reports that |
| DpkgLog.LogLineReads | crates/blankres-hooks/src/lib.rs:94-129 | a status line of a failure state is read as its date, time, package name and state |
| DpkgLog.VersionIgnored | crates/blankres-hooks/src/lib.rs:94-129 | whatever follows the package on a status line, its version as a rule, does not matter |
| DpkgLog.SameSecondMissed | crates/blankres-hooks/src/lib.rs:115-120 | a failure not newer than the cursor, the same second included, is reported neither by that run nor by any later one, whatever the logs, while no run loses the cursor |
| Redact.ScrubCommandLine | crates/blankres-report/src/redact.rs:98-124 | the loop computes the argument-by-argument scrubbing, whose output the rows below describe without it |
| Redact.SecretIff | crates/blankres-report/src/redact.rs:31-56 | a name is secret if and only if one of the twelve markers, in any case, occurs in it |
| Redact.AssignmentHidden | crates/blankres-report/src/redact.rs:108-111 | wherever it stands, an argument whose name holds a marker is shown with <redacted> for its value, whatever that is, and the rest of the output does not depend on it |
| Redact.FlagHidesIff | crates/blankres-report/src/redact.rs:102-116 | the value after a flag with a marker stays hidden, whatever it is, if and only if the flag is not itself taken for the value of a flag before it |
| Redact.FlagHidesPlainly | crates/blankres-report/src/redact.rs:102-116 | in particular when the argument before the flag does not start with a dash: it becomes <redacted> |
| Redact.PlainKept | crates/blankres-report/src/redact.rs:112-119 | an argument without a marker stays as it is, and so does what follows it |
| Redact.LengthKept | crates/blankres-report/src/redact.rs:98-124 | one output argument per input argument |
| Redact.ScrubbedEqualIff | crates/blankres-report/src/redact.rs:98-124 | two command lines scrub to the same output if and only if they differ only in values after a secret flag or after the first equals sign of a secret-named argument |
| Redact.ScrubbingTwice | crates/blankres-report/src/redact.rs:98-124 | scrubbing twice is scrubbing once |
| Redact.BlockScrubs | crates/blankres-report/src/redact.rs:127-134 | non-empty arguments without NULs and spaces, each ended by a NUL or a space, scrub as the command line does |

## Left out

- HTTP, TLS, JSON, SQL and process handling: a request is a series of steps that may stop anywhere; a transaction is one atomic step; serialised values are the values.
- Authorisation by fleet token, machine identifiers, file ownership and modes: no property here depends on them.
- The signature row's executable, package, frames and dates, and the metadata sidecar file: written, never read by the decisions modelled.
- Upload tokens are identified with their hashes, and a draw that clashes with an existing row is a failed request.
- The server has one clock. The code takes expiry times from the application and compares them with the database's clock; any expiry value is allowed here, so an offset between the two changes nothing proved.
- `Upload.PostReport`: its file operations succeed. Faults and clients that hang up are aborts of the machine in `Ingest`, which may leave the temporary file behind as the code does.
- Byte counts of an upload are unbounded integers; the code's u64 sum cannot wrap within its limit except for a single chunk near 2^64 bytes, which cannot exist.
- `crash_count` is unbounded; the code's u32 would wrap after 2^32 crashes of one signature.
- The signature of a crash is a field of its journal record in `Client` and `Delivery`; how it is computed is the subject of `StackTrace` and `Signature`.
- `Client.Machine.HandleCoredump`: states the uninterrupted case; front ends at work between its halves are covered by the machine in `ClientRuns`, where the two halves are separate steps.
- `ClientRuns`: a front end acts on any report it may once have loaded, which allows more than the code; in `Delivery` it acts only on reports it has loaded from the store. The order in which reports are listed is not modelled, nor an unreadable list of declined signatures.
- `DeliveredCores.FailedUploadIsFinal`: speaks of a report that holds its directive. One that awaits a directive asks for a new event and a new token at each send, so a failed upload of it can be tried again.
- `DaemonState`: the daemon's state file is written beside the old one and renamed, so it is never torn; a save that fails leaves the old file.
- `Delivery`: the saving of state at an orderly shutdown and kernel log positions are not modelled; an oops in progress when the daemon stops is outside the delivery theorem.
- `Delivery.AtLeastOnce`: at least once, not exactly once; a send that awaits its directive, a late reply and a repeated journal entry all record the event again, as the code does.
- Environment filtering, `parse_status`, `is_stale`, kernel call-trace parsing and `terminal_log_tail`: lookups or filters with no property beyond their bodies.
- Wall-clock budgets, os-release parsing, locale, configuration, the dashboard, the command line and the GTK window: no hard state.
- ShippedPackages.VerifyInstalled: speaks of files that at most one package lists and of paths spelled plainly; for a file in several lists `Packages.VerifyFresh` says that the last list in name order decides, and `ShippedPackages.Piece` what other spellings denote.
- Base64 and zlib are abstract inverses in `Apport.RoundTrip`, and text equal to `base64` on the first line or to `.` on a later one is outside it, because the format cannot carry them.
- Line splitting in the apport and journal readers follows the Unicode White_Space property and treats a character as the unit; invalid UTF-8 is not modelled.
