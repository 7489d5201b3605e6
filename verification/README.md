# Context: a verified model

Context shows and resumes the sessions of several coding agents. Around its
interface it is a set of small stateful algorithms, and those are modelled here.
Each file models one of them and proves what it is for.

| file | what it models |
|---|---|
| `BoardFormat`, `BoardHeader`, `BoardWriter`, `BoardProtocol` | the whiteboard file that many processes publish to: its framing, its header, one write, and all interleavings of writers under the lock directory |
| `Drops`, `DropFiles`, `SharedDrops` | the cleanup of temporary drop folders behind a publish: what it leaves alone, what it removes, and both under all interleavings of writers |
| `RefreshActor`, `RefreshEffects`, `ContextActor` | the actor that coalesces four loaders, as a state machine, what each message brings about, and a class proved to follow it |
| `Calendar`, `Timestamps`, `StampText`, `Base64Url` | civil dates, two timestamp parsers and the texts they accept, and the token decoder |
| `KimiIndex` | the incremental reader of an append-only session index |
| `ResponseTail`, `TurnLog` | the growing window over the end of a session log, for any log and for logs of whole turns |
| `Superseding` | the one-worker listener that drops obsolete requests |
| `TerminalEscaping`, `TerminalLimits` | the command line that passes two rounds of argument parsing, and which requests get one |
| `RecentCache`, `CacheHits` | the cache of recent sessions with stamps taken before reads, and when it answers |
| `WebSocket`, `WebSocketFrames` | the framing of the local WebSocket client |
| `UsageWorkers` | bounded workers on a shared queue, and the order of slots |
| `SessionCommands`, `SessionForms`, `MarkdownConfig`, `MarkdownLines`, `MarkdownRoundTrip` | the markdown file of sessions and groups |
| `Basics`, `LineSplitting` | shared vocabulary |

Code that updates state is modelled by methods and classes that are proved
against functions on values; the main results are lemmas about those functions,
over all inputs, all runs or all interleavings. `dafny verify dfyconfig.toml`
checks everything.

What lies outside is a parameter: a codec or classifier of JSON records (with the
facts needed of it as hypotheses), clocks, the outcome of a file operation or
request, the order in which a directory is listed, and the scheduler.

Where the code and a plain reading of its purpose differ, the model follows the
code and states exactly when they agree:

- `parse_digits` takes bytes above the digit nine for digits, so `199:` is a
  year (`Timestamps.ColonCountsAsTen`); the two timestamp parsers agree exactly
  when all fields are ASCII digits (`Timestamps.MillisecondsAreFloor`).
- A stamp outside the years 1 to 9999 is written but can never be read, and a
  credential stamped so never falls due (`Timestamps.FormatRoundTrip`,
  `Timestamps.DueAfterEightDays`).
- An index record that is read before its line ends and is spoilt afterwards
  stays in the cached rows (`KimiIndex.SpoiltTailStays`); incremental reads are
  right exactly when no early tail is contradicted (`KimiIndex.ReadExactly`).
- Of a turn that finishes twice, a scan keeps the older answer only, so a larger
  log window can show another answer than a smaller one
  (`ResponseTail.RepeatedTurnDiffers`, `ResponseTail.GrowingWindowMissesOlder`);
  all answers are kept exactly when no two are of one turn
  (`ResponseTail.ScanKeepsAllExactly`).
- A window that does not show where the last turn began takes its message for the
  answer of whatever turn finishes; a window that does show it refuses another
  turn's (`ResponseTail.OtherTurnDiffers`, `ResponseTail.FirstWindowShowsMore`).
- Requests that wait when the channel closes are never answered
  (`Superseding.RequestsConserved`).
- A title is read back exactly when it is one trimmed line that is no command,
  holds no escaped hash and does not start with a hash, a star or a dash
  (`MarkdownRoundTrip.TitleKeptExactly`); a command behind two ampersands takes
  the title's place (`MarkdownRoundTrip.CommandInTitle`).
- A warning of malformed group lines is written down but never given: a line that
  names the marker has a label, and so becomes the title of the next session
  (`MarkdownLines.MalformedIsTitle`, `MarkdownLines.MalformedIsNeverWarned`).

## Model

| member | source | states |
|---|---|---|
| BoardFormat.Parse | native/whiteboard_writer/src/main.rs:214-261 | The loop over entry markers returns the posts of the text: markers that do not frame an entry are skipped past their line, and a later entry replaces an earlier one of the same id. |
| BoardFormat.Retain | native/whiteboard_writer/src/main.rs:214-261 | Dropping the posts of one id keeps the others in order. |
| BoardFormat.Render | native/whiteboard_writer/src/main.rs:397-404 | The written board is the header and then each post framed by its marker line, its body and its end marker. |
| BoardFormat.ReadEntry | native/whiteboard_writer/src/main.rs:214-261 | An entry that is read has a valid id, a body of exactly the stated length within 8 MiB, and its end marker inside the text. |
| BoardFormat.EntryIsReadExactly | native/whiteboard_writer/src/main.rs:214-261 | An entry is read if and only if its line decodes within the limit and a body of exactly the stated size is followed by the end marker of its id. |
| BoardFormat.IdsExactly | native/whiteboard_writer/src/main.rs:214-261 | Valid ids are those of 1 to 80 letters, digits, hyphens and underscores. |
| BoardFormat.NextEntry | native/whiteboard_writer/src/main.rs:214-261 | Every marker met makes the remaining text shorter, and what is found is a framed post. |
| BoardFormat.ReadRendered | native/whiteboard_writer/src/main.rs:214-261 | The line and the text written for a post are read as exactly that post, whatever its body contains. |
| BoardFormat.NextIsWritten | native/whiteboard_writer/src/main.rs:214-261 | Behind any text without an entry marker, the next entry found is the one written there. |
| BoardFormat.ParseRenderedFrom | native/whiteboard_writer/src/main.rs:397-404 | Parsing any rendered posts gives them back, the last of each id. |
| BoardFormat.KeepLastDistinct | native/whiteboard_writer/src/main.rs:214-261 | For distinct ids nothing is replaced. |
| BoardFormat.RoundTrip | native/whiteboard_writer/src/main.rs:397-404 | Framing round trip: posts with distinct valid ids, true body lengths and short metadata lines, behind a header without an entry marker, are read back exactly, even when bodies contain entry or end markers. |
| BoardFormat.ParsedWellFormed | native/whiteboard_writer/src/main.rs:214-261 | The posts read from any text, however damaged, have distinct ids and are framed. |
| BoardFormat.RewriteKeepsPosts | native/whiteboard_writer/src/main.rs:214-261 | Parsing, rendering and parsing again equals parsing once, on any text. |
| BoardHeader.ReplaceKeepsFree | native/whiteboard_writer/src/main.rs:263-281 | Replacing a text introduces no occurrence of a pattern that stays apart from the replacement. |
| BoardHeader.ReplaceRemoves | native/whiteboard_writer/src/main.rs:263-281 | After replacing, the replaced text does not occur. |
| BoardHeader.HeaderIsOwn | native/whiteboard_writer/src/main.rs:263-281 | The header of any text, upgraded or taken from the template, is a header of the current form. |
| BoardHeader.OwnHeaderFound | native/whiteboard_writer/src/main.rs:263-281 | A header of the current form is found again, unchanged, in front of any entries. |
| BoardHeader.HeaderStable | native/whiteboard_writer/src/main.rs:263-281 | Rewriting a board any number of times does not change its header again. |
| BoardHeader.LimitIsUpdated | native/whiteboard_writer/src/main.rs:263-281 | An older entry limit in the header is replaced by the present one, and nothing else of it. |
| BoardWriter.DropPositions | native/whiteboard_writer/src/main.rs:375-383 | The positions collected are a single one exactly when the folder has a single live post. |
| BoardWriter.UpdatePosts | native/whiteboard_writer/src/main.rs:368-393 | A publish appends; a replacement needs a live, unambiguous post of the drop folder, and otherwise fails with the error of that check. |
| BoardWriter.EditPosts | native/whiteboard_writer/src/main.rs:358-396 | Remove, then publish or replace, then keep the newest six: the posts kept and those taken off. |
| BoardWriter.OnlyIsFirst | native/whiteboard_writer/src/main.rs:375-384 | Having exactly one matching position is having a first one and none behind it. |
| BoardWriter.PublishKeepsNewest | native/whiteboard_writer/src/main.rs:368-396 | Publishing loses nothing: the posts taken off followed by those kept are the old posts and the new one, in order, and six at most are kept. |
| BoardWriter.ReplaceKeepsIdentity | native/whiteboard_writer/src/main.rs:369-389 | A replacement succeeds exactly for the only live post of a folder in use. Title, prompt, body and its sizes are those of the request; id, time, provider, working directory, origin and position stay, and so does every other post. Otherwise the error says whether the folder is no owned drop or has expired. |
| BoardWriter.RemoveTakesOne | native/whiteboard_writer/src/main.rs:360-396 | A removal succeeds exactly when the folder is owned and on the board; it takes one post, and then the newest six of the others are kept. |
| BoardWriter.WriteBoard | native/whiteboard_writer/src/main.rs:342-430 | What a write makes of the bytes it read: unchanged, a new board with its edit, or the error that leaves the board alone. |
| BoardProtocol.StepKeepsInvariant | native/whiteboard_writer/src/main.rs:307-336 | Every step of every writer (acquire, give up, read, rename, fail, release, be killed) keeps the invariant that ties claim, board and log. |
| BoardProtocol.OnlyRenameWrites | native/whiteboard_writer/src/main.rs:342-430 | No step but the rename changes the board, and a rename adds one commit. |
| BoardProtocol.RunKeepsInvariant | native/whiteboard_writer/src/main.rs:342-430 | The invariant holds after every run of any number of writers. |
| BoardProtocol.Serializable | native/whiteboard_writer/src/main.rs:342-430 | In every interleaving the board is that of the committed operations applied one after another in rename order; each writer commits at most once, and one that failed, timed out or was killed before its rename not at all. |
| BoardProtocol.OneWriterAtATime | native/whiteboard_writer/src/main.rs:307-336 | At most one writer is between obtaining and releasing the lock directory. |
| BoardProtocol.EditKeepsForm | native/whiteboard_writer/src/main.rs:358-396 | Edits keep ids distinct and posts framed. |
| BoardProtocol.CommittedPosts | native/whiteboard_writer/src/main.rs:397-404 | Reading a committed board gives the posts its writer kept. |
| BoardProtocol.HeaderNeverChanges | native/whiteboard_writer/src/main.rs:263-281 | No sequence of commits, whatever they write, changes the header again. |
| BoardProtocol.RequestFits | native/whiteboard_writer/src/main.rs:368-393 | When a writer gets its turn, the id it publishes is not on the board, because earlier writers published other ids. |
| BoardProtocol.BoardHoldsEdits | native/whiteboard_writer/src/main.rs:342-430 | In every interleaving the board read back holds exactly the posts of the edits applied in rename order: no update is lost. What is assumed is known before the run: framed posts, ids of their own, and short metadata lines. |
| BoardProtocol.CleanerKnowsBoard | native/whiteboard_writer/src/main.rs:342-430 | In every interleaving, while a writer cleans up, the posts it takes for retained are those on the board. |
| BoardProtocol.NewestSixRemain | native/whiteboard_writer/src/main.rs:342-430 | After every run of publishers, the board holds exactly the newest six of the posts it began with and those published, in rename order. |
| BoardProtocol.InitLeavesBoard | native/whiteboard_writer/src/main.rs:351-353 | Preparing a board that is there leaves it alone and counts its posts. |
| BoardProtocol.InitWritesTemplate | native/whiteboard_writer/src/main.rs:351-404 | Preparing a board that is not there writes the template and no posts. |
| BoardProtocol.PublishedIsRead | native/whiteboard_writer/src/main.rs:342-430 | A framed post with a new id and a short metadata line is published on any board within the size limit, and is read back with the newest of those before it. |
| BoardProtocol.FreeClaimIsTaken | native/whiteboard_writer/src/main.rs:307-336 | After every run that leaves the claim free, a new writer whose edit is in order gets through all its steps, and its board stays. |
| BoardProtocol.OwnerCanRelease | native/whiteboard_writer/src/main.rs:307-340 | Whoever owns the claim can give it back, whatever its write comes to. |
| BoardProtocol.LeftAloneIsPrepared | native/whiteboard_writer/src/main.rs:351-353 | In every run only a writer that was to prepare the board leaves it alone, and only when there is one. |
| Drops.InspectionCovers | native/whiteboard_writer/src/main.rs:132-148 | Inspecting one entry more than there are allowed names is enough: with distinct names, either all entries are allowed or an unknown one is among the first. |
| Drops.Inspect | native/whiteboard_writer/src/main.rs:98-148 | Files are selected for deletion exactly when every entry of the directory is an allowed regular file; all but the marker are selected, each once. |
| Drops.DropPool.Delete | native/whiteboard_writer/src/main.rs:149-151 | Deleting stops at the first file in use, and only there; nothing but selected files of this folder is lost. |
| Drops.DropPool.RemoveOwnedDrop | native/whiteboard_writer/src/main.rs:87-154 | A folder loses files only when all of its entries are allowed, the marker goes last, and no other folder changes. If all are allowed and nothing is in use, the folder is gone. |
| Drops.DropPool.RetireAndRemove | native/whiteboard_writer/src/main.rs:163-181 | Retirement is recorded before anything is deleted; a failed write deletes nothing. Once it is recorded the folder is gone, or empty, or on record as retired. |
| Drops.DropPool.CleanupDrops | native/whiteboard_writer/src/main.rs:156-206 | Cleanup changes a folder only if no retained entry names it (ignoring ASCII case) and its marker is valid and retired, or it belongs to an entry just taken off the board. Of an owned folder that no entry retains, the drop of a removed entry is gone, empty or on record as retired if its marker could be written; it is gone if nothing was in use and all its files are allowed, and so is every retired one among the first 256 listed. |
| Drops.AllowedIgnoresMarker | native/whiteboard_writer/src/main.rs:98-131 | Rewriting the marker does not change which files may be deleted. |
| Drops.OnlyExpiredDropsAreTouched | native/whiteboard_writer/src/main.rs:156-206 | Over any run of cleanups of any writers: whatever happened to a folder, it was owned at the start, retired or taken off the board, all its entries were allowed, and its marker was the last to go. |
| Drops.StagedDropSurvives | native/whiteboard_writer/src/main.rs:156-206 | A drop that is staged, or whose entry stays on the board, is not touched by any run of cleanups. |
| Drops.RetiredDropGoes | native/whiteboard_writer/src/main.rs:156-206 | Over any run: once the drop of a removed entry is on record as retired, the first cleanup that lists it and meets no obstacle leaves nothing of it. |
| DropFiles.OwnedExactly | native/whiteboard_writer/src/main.rs:61-85 | A folder is an owned drop if and only if it is a directory with a plain name and a small regular marker that names it. |
| DropFiles.MayGoExactly | native/whiteboard_writer/src/main.rs:87-148 | A folder may be emptied if and only if it holds regular files under the six fixed names, or attachments that a trustworthy manifest names. |
| DropFiles.RetainedIgnoresCase | native/whiteboard_writer/src/main.rs:157-161 | An entry retains the folder it names, whatever the case of its letters. |
| DropFiles.ListingExactly | native/whiteboard_writer/src/main.rs:132-148 | A directory may be listed in any order, with every entry once. |
| SharedDrops.HistoryIsRun | native/whiteboard_writer/src/main.rs:342-430 | What writers do to the board is a run of theirs, whatever they and others do to the drop folders. |
| SharedDrops.CleanupSparesBoard | native/whiteboard_writer/src/main.rs:156-206 | In every interleaving, the cleanup of the writer that holds the claim leaves every folder alone that a post on the board names. |
| SharedDrops.DropOnBoardSurvives | native/whiteboard_writer/src/main.rs:156-206 | In every interleaving a drop stays as it is for as long as a post on the board names it and nobody stages it anew. |
| ContextActor.Actor.FinishAll | native/hub/src/actors/context.rs:545-556 | All given requests are answered in order. |
| ContextActor.Actor.SetSessionsMarkdownPath | native/hub/src/actors/context.rs:540-579 | A new sessions file starts a generation, answers everyone who waits with a failure and clears what is shown and the manual reset; the same file changes nothing. |
| ContextActor.Actor.LoadAccounts | native/hub/src/actors/context.rs:589-637 | A load is refused only while an account operation runs; otherwise the request waits for the one load in flight. |
| ContextActor.Actor.RefreshRecent | native/hub/src/actors/context.rs:1161-1196 | Recents are refreshed like accounts, and a changed sessions file reloads the Codex accounts first. |
| ContextActor.Actor.CompleteRefresh | native/hub/src/actors/context.rs:644-692 | A completion of an older generation starts again; any other is shown and answers everyone who waits. |
| ContextActor.Actor.ReloadConfig | native/hub/src/actors/context.rs:1116-1159 | Loading the config reloads the Codex accounts, unless the actor is busy or not initialized. |
| ContextActor.Actor.WriteConfig | native/hub/src/actors/context.rs:1231-1273 | Saving the config may change the sessions file, and then reloads the Codex accounts. |
| ContextActor.Actor.OperateOnAccounts | native/hub/src/actors/context.rs:878-941 | Save, switch, rename and delete are refused while busy, and leave the loader free. |
| ContextActor.Actor.Handle | native/hub/src/actors/context.rs:1289-1470 | Each message is handled as one step of the state machine whose runs are studied. |
| RefreshActor.ChangedPathAnswers | native/hub/src/actors/context.rs:540-579 | Another sessions file starts a generation, tells everyone who waits of the failure, empties all queues and shows nothing. |
| RefreshActor.SetPathAccounts | native/hub/src/actors/context.rs:540-579 | Changing the sessions file answers those who wait and loses none. |
| RefreshActor.FinishBoth | native/hub/src/actors/context.rs:528-538 | Answering a request accounts for it once, and zero, which stands for none, not at all; what holds between handlers is kept. |
| RefreshActor.PushAccounts | native/hub/src/actors/context.rs:606-608 | A queued request is accounted for once, and zero not at all. |
| RefreshActor.StartKeeps | native/hub/src/actors/context.rs:613-636 | Starting a load gives everyone in that queue a load, still at most one per provider, under the current path, generation and revision. |
| RefreshActor.InstallKeeps | native/hub/src/actors/context.rs:653-667 | Installing a result of the current sessions file keeps the invariant and every request. |
| RefreshActor.PushStart | native/hub/src/actors/context.rs:606-636 | A request joins the load in flight or starts one: still at most one load per provider. |
| RefreshActor.RestartKeeps | native/hub/src/actors/context.rs:644-650 | After a stale completion the load starts again, because nothing is busy between handlers. |
| RefreshActor.CompleteKeeps | native/hub/src/actors/context.rs:644-692 | Every completion keeps the invariant and loses no request. |
| RefreshActor.EditResetKeeps | native/hub/src/actors/context.rs:849-876 | A manual reset edit keeps the invariant, also when it changes the sessions file. |
| RefreshActor.EditReachesAccounts | native/hub/src/actors/context.rs:849-876 | In every reachable state a saved edit raises the revision and is on every account shown at once, and again on what a load in flight at the time installs; a failed edit sets nothing. |
| RefreshActor.DoKeeps | native/hub/src/actors/context.rs:1289-1470 | Every handler keeps the invariant and accounts for its request exactly once. |
| RefreshActor.RunKeeps | native/hub/src/actors/context.rs:1289-1470 | Over every run the requests answered and waiting are exactly those asked. |
| RefreshActor.AnsweredOnce | native/hub/src/actors/context.rs:644-692 | In every reachable state a request asked once is answered at most once, and waits otherwise. |
| RefreshActor.WaitingMeansOneLoad | native/hub/src/actors/context.rs:589-692 | Whoever waits has exactly one load of that provider in flight; the actor is not busy between handlers, so the restart is never swallowed. |
| RefreshActor.NothingStaleShown | native/hub/src/actors/context.rs:540-579 | In every reachable state what is shown was computed for the current sessions file. |
| RefreshActor.StaleOnlyRestarts | native/hub/src/actors/context.rs:644-650 | A completion of an older generation shows nothing and answers nobody; it only replaces the load by a current one. |
| RefreshActor.EditSurvivesOlderLoad | native/hub/src/actors/context.rs:644-667 | If a manual reset was edited after a load began, every account it installs carries the last edit, set or cleared. |
| RefreshActor.CompletionHelps | native/hub/src/actors/context.rs:644-692 | A completion of the current generation tells everyone who waits whether it succeeded; any other leaves them waiting for a fresh load. |
| RefreshActor.StepForward | native/hub/src/actors/context.rs:1289-1470 | While the sessions file stays, no other step takes away a request, a load in flight or an answer. |
| RefreshActor.TwoCompletionsAnswer | native/hub/src/actors/context.rs:644-692 | Once the sessions file stops changing, two completions answer whoever waits, and one if the load in flight is fresh. |
| RefreshEffects.CompletionShows | native/hub/src/actors/context.rs:644-692 | In every reachable state a completion of the current generation shows what was loaded (with the last reset edit for Codex, if that is newer), a failure leaves the display, everyone who waited has the answer, and no other loader is touched. |
| RefreshEffects.AskWaits | native/hub/src/actors/context.rs:589-637 | A request waits at the end of its queue and its loader is loading; nothing else changes. |
| RefreshEffects.AskMoves | native/hub/src/actors/context.rs:1161-1196 | A request for another sessions file turns to that first; for recents the Codex accounts load too. |
| RefreshEffects.LoadReloads | native/hub/src/actors/context.rs:1116-1159 | Loading the config turns to its file, loads the Codex accounts and answers with its outcome; before set-up it does nothing. |
| RefreshEffects.InitReloads | native/hub/src/actors/context.rs:1289-1470 | Setting up turns to the sessions file and loads the Codex accounts. |
| RefreshEffects.SaveReloads | native/hub/src/actors/context.rs:1231-1273 | Saving turns to the file saved and loads the Codex accounts only of another file; unreadable items change nothing. |
| RefreshEffects.OperationShows | native/hub/src/actors/context.rs:878-941 | An operation on the Codex accounts is refused while they load, and otherwise shows the accounts it left. |
| Calendar.YearOfEraInverts | native/hub/src/actors/codex_refresh.rs:390-392 | The year formula inverts the first days of the years of an era. |
| Calendar.YearOfEraCovers | native/hub/src/actors/codex_refresh.rs:390-392 | Every day of an era lies in exactly one year. |
| Calendar.CivilDateOfEveryDay | native/hub/src/actors/codex_refresh.rs:382-399 | Every day number names a valid date that counts back to it. |
| Calendar.DayOfEveryCivilDate | native/hub/src/actors/codex_refresh.rs:559-571 | Every valid date is the civil date of its day number. |
| Calendar.SuccessorDate | native/hub/src/actors/codex_refresh.rs:545-571 | The next date of the calendar is the next day number, across months, leap days and centuries. |
| Calendar.MarchYearsInOrder | native/hub/src/actors/context.rs:3679-3687 | Days of a later year, counted from March, have larger numbers. |
| Calendar.YearsInOrder | native/hub/src/actors/context.rs:3679-3687 | A date lies in a year or a later one if and only if its day number is that of the first of January of the year or more. |
| Calendar.Epoch | native/hub/src/actors/codex_refresh.rs:559-571 | 1970-01-01 is day zero. |
| Calendar.CivilDateIsCounted | native/hub/src/actors/codex_refresh.rs:382-399 | The closed formula is the result of counting that many days on from the epoch. |
| Calendar.DayCountsAgree | native/hub/src/actors/context.rs:3679-3687 | The second day count agrees with the first. |
| Timestamps.FormattedColumns | native/hub/src/actors/codex_refresh.rs:369-380 | A stamp of a four-digit year has the columns of date, time and milliseconds. |
| Timestamps.ParseFormatted | native/hub/src/actors/codex_refresh.rs:472-543 | Parsing a formatted instant of the years 1 to 9999 returns it in nanoseconds. |
| Timestamps.FormattedOutOfRange | native/hub/src/actors/codex_refresh.rs:369-380 | Outside those years the stamp is written but never read. |
| Timestamps.YearsOfFourDigits | native/hub/src/actors/codex_refresh.rs:369-380 | The years 1 to 9999 are exactly the milliseconds from -62135596800000 to 253402300799999. |
| Timestamps.FormatRoundTrip | native/hub/src/actors/codex_refresh.rs:369-380 | The exact range of the round trip, in milliseconds: inside it every written stamp is read back, outside it none is. |
| Timestamps.FoldIsDecimal | native/hub/src/actors/codex_refresh.rs:522-531 | On ASCII digits the checked accumulation is the decimal value. |
| Timestamps.ParseDecimal | native/hub/src/actors/context.rs:3668-3677 | The digits of a range are its decimal value, and anything else is refused. |
| Timestamps.ParseFractionMillis | native/hub/src/actors/context.rs:3639-3655 | The leading digits of a fraction, three at most, padded to milliseconds. |
| Timestamps.ParseIso8601UtcMs | native/hub/src/actors/context.rs:3619-3666 | The millisecond parser computes the specified instant. |
| Timestamps.FractionFloor | native/hub/src/actors/context.rs:3639-3655 | The milliseconds of a fraction are its nanoseconds rounded down. |
| Timestamps.MillisecondsAreFloor | native/hub/src/actors/context.rs:3619-3666 | On every string the nanosecond parser accepts, the millisecond parser gives its floor if and only if all fields are ASCII digits, and refuses the others. |
| Timestamps.ColonCountsAsTen | native/hub/src/actors/codex_refresh.rs:522-531 | The condition is needed: the nanosecond parser takes a colon for the digit ten. |
| Timestamps.DueAfterEightDays | native/hub/src/actors/codex_refresh.rs:72-104 | Without a usable token expiry, a credential refreshed at t is due exactly from t plus eight days, if t can be read back at all. |
| Timestamps.ExpiryDecides | native/hub/src/actors/codex_refresh.rs:72-104 | Without a usable token there is no decision. A token that tells its expiry is due from five minutes before on, any other eight days after the refresh on record, and never without one. |
| StampText.StampIsRead | native/hub/src/actors/codex_refresh.rs:472-543 | Every stamp of a date from year 1 to 9999 with up to nine digits of a fraction is read as its instant. |
| StampText.OnlyStampsAreRead | native/hub/src/actors/codex_refresh.rs:472-543 | No other text with ASCII digits is read. |
| StampText.LooseStampIsRead | native/hub/src/actors/context.rs:3619-3666 | The millisecond parser reads every such date, also a day 31 of any month and a leap second, with the first three digits of a fraction, whatever follows. |
| StampText.OnlyLooseStampsAreRead | native/hub/src/actors/context.rs:3619-3666 | It reads nothing else. |
| Base64Url.SymbolsInvert | native/hub/src/actors/codex_refresh.rs:444-451 | Symbols and their values are inverse to each other. |
| Base64Url.ShiftStays | native/hub/src/actors/codex_refresh.rs:453-463 | The accumulator stays below two to the bit count, so it never overflows. |
| Base64Url.DecodeEncoded | native/hub/src/actors/codex_refresh.rs:434-470 | Decoding any unpadded encoding returns the bytes. |
| Base64Url.EncodeDecoded | native/hub/src/actors/codex_refresh.rs:434-470 | Whatever is accepted is the encoding of its result: nothing but canonical input is accepted. |
| Base64Url.DecodingInjective | native/hub/src/actors/codex_refresh.rs:434-470 | No two accepted texts decode to the same bytes. |
| Base64Url.DecodeBase64Url | native/hub/src/actors/codex_refresh.rs:434-470 | The loop over accumulator and bit count accepts exactly the encodings and returns what was encoded. |
| KimiIndex.FoldAfterComplete | native/hub/src/actors/kimi_index.rs:83-122 | Folding a complete part and then the rest is folding all of it. |
| KimiIndex.LastRecordDecides | native/hub/src/actors/kimi_index.rs:83-122 | The last record about an id decides what the rows say of it, and an id without a record is not in them. |
| KimiIndex.TailEffect | native/hub/src/actors/kimi_index.rs:81-122 | The rows of a file are those of its terminated lines and the effect of its unterminated tail. |
| KimiIndex.HarmlessExactly | native/hub/src/actors/kimi_index.rs:81-122 | Folding new lines on rows that already hold an early tail is right exactly if the tail had no effect, a new line has the same id, or the rows said so already. |
| KimiIndex.FoldLines | native/hub/src/actors/kimi_index.rs:83-122 | The loop over lines inserts and removes as the fold of the lines says. |
| KimiIndex.CompletePart | native/hub/src/actors/kimi_index.rs:76-80 | The cursor moves just behind the last line break. |
| KimiIndex.IndexReader.Read | native/hub/src/actors/kimi_index.rs:31-141 | A read returns cached rows, appends, or reads again, and updates the cache as specified. |
| KimiIndex.CursorMoves | native/hub/src/actors/kimi_index.rs:123 | The cursor after an append is that of the whole file. |
| KimiIndex.AppendIsFound | native/hub/src/actors/kimi_index.rs:44-59 | A file that only grew is recognised by its prefix and boundary. |
| KimiIndex.IncrementalExactly | native/hub/src/actors/kimi_index.rs:60-122 | The incremental fold equals the fold of the whole file if and only if the early tail was kept. |
| KimiIndex.ReadExactly | native/hub/src/actors/kimi_index.rs:31-141 | A successful read of a growing file gives a from-scratch fold of the bytes it read if and only if an early tail was kept, also when the file grew between stat and read. |
| KimiIndex.ReadSucceedsExactly | native/hub/src/actors/kimi_index.rs:29-80 | A read of a file that only grew fails exactly if the file, or the part behind the cursor, exceeds the limit; within the limit it succeeds. |
| KimiIndex.OtherwiseReadWhole | native/hub/src/actors/kimi_index.rs:44-67 | A file that did not grow, or another one, is read from its start, whatever the cache holds. |
| KimiIndex.LostLinesFail | native/hub/src/actors/kimi_index.rs:47-58 | A file that lost lines already read fails. |
| KimiIndex.ThenItIsCached | native/hub/src/actors/kimi_index.rs:35-43 | A second look at the same file gives the rows of the first. |
| KimiIndex.CacheIsOfSomeRead | native/hub/src/actors/kimi_index.rs:123-140 | In every run the cache describes the bytes of some earlier read of that file. |
| KimiIndex.EveryReadAgrees | native/hub/src/actors/kimi_index.rs:31-141 | In every run of an append-only writer that keeps its tails, every read within the limit succeeds, and equals reading the whole file. |
| KimiIndex.SpoiltTailStays | native/hub/src/actors/kimi_index.rs:81-98 | The proviso is needed: a record read early and spoilt before its line ends stays in the rows. |
| ResponseTail.NextRecord | native/hub/src/actors/whiteboard.rs:646-662 | A record is read up to its line break and never beyond the safe limit. |
| ResponseTail.ReadResponseWindow | native/hub/src/actors/whiteboard.rs:628-727 | The loop over pending message, turn and answers computes the answers of the window, or refuses an oversized record. |
| ResponseTail.EventsAfterComplete | native/hub/src/actors/whiteboard.rs:638-662 | Records behind a complete part are read on their own. |
| ResponseTail.WindowsNest | native/hub/src/actors/whiteboard.rs:634-641 | The records of a smaller window end those of a larger one. |
| ResponseTail.ScanKeepsNewest | native/hub/src/actors/whiteboard.rs:664-724 | Where two answers of one turn are more than the limit apart, the answers kept are the newest ones. |
| ResponseTail.ScanKeepsAllExactly | native/hub/src/actors/whiteboard.rs:710-724 | Where the limit leaves room, every answer is kept if and only if no two answers are of one turn. |
| ResponseTail.EmitLess | native/hub/src/actors/whiteboard.rs:694-720 | A window that begins inside a turn can miss that one answer and no other. |
| ResponseTail.LateHead | native/hub/src/actors/whiteboard.rs:664-724 | The answers of a window that begins late are a suffix of those of one that begins earlier. |
| ResponseTail.SmallerWindow | native/hub/src/actors/whiteboard.rs:628-727 | If repetitions of a turn in the larger window are more than the limit apart, the answer texts of a smaller window are the newest of the larger one; once it holds enough, or all of the file, they are the same. |
| ResponseTail.ReadResponses | native/hub/src/actors/whiteboard.rs:617-626 | Under the same condition the growing window returns the answer texts of one read at the largest window; on every log it ends, with a window that holds enough, or all of the file, or is at the cap, and with the first window if that holds enough. |
| ResponseTail.RepeatedTurnDiffers | native/hub/src/actors/whiteboard.rs:710-719 | Distinct turns are needed: for every log and two windows that end in a turn which also ran before the smaller one, the larger shows the older answer. |
| ResponseTail.GrowingWindowMissesOlder | native/hub/src/actors/whiteboard.rs:617-626 | Such a log: the first window is content with the newer answer, the largest window shows the older. |
| ResponseTail.OtherTurnDiffers | native/hub/src/actors/whiteboard.rs:694-720 | The order of turns is needed: for every log and two windows that end in a turn which is not the one begun last, the smaller window shows an answer that the larger one does not. |
| ResponseTail.FirstWindowShowsMore | native/hub/src/actors/whiteboard.rs:617-626 | Such a log: the first window is content with an answer that the largest window does not show. |
| TurnLog.LogIsRead | native/hub/src/actors/whiteboard.rs:664-724 | Wherever reading began, a log of turns gives the answers of its turns: the text of the completion, or else the last message of the turn, and none for a stopped turn. |
| TurnLog.WindowShowsTurns | native/hub/src/actors/whiteboard.rs:628-727 | A window of turns with distinct ids shows the newest of these answers, newest first. |
| TurnLog.RefusedExactly | native/hub/src/actors/whiteboard.rs:646-662 | A window is refused if and only if somewhere in it no line break comes within 4 MiB. |
| Superseding.PendingReads.Replace | native/hub/src/actors/whiteboard.rs:58-70 | A newer request takes the place of a waiting one of its kind: one history, and one recent read per provider. |
| Superseding.WaitingIsNewest | native/hub/src/actors/whiteboard.rs:57-75 | While the channel is open, whatever waits is the newest request of its kind, and recents wait in the order they were received in. |
| Superseding.ServedInOrder | native/hub/src/actors/whiteboard.rs:72-74 | The worker goes on with a waiting history, and otherwise with the recent that was received first. |
| Superseding.Listen | native/hub/src/actors/whiteboard.rs:88-124 | The listener replies as the state machine of channel and worker says, for any course of events. |
| Superseding.EventConserves | native/hub/src/actors/whiteboard.rs:88-124 | No event loses a request or answers one twice. |
| Superseding.RequestsConserved | native/hub/src/actors/whiteboard.rs:88-124 | The requests received are exactly those answered, in flight or waiting; what waits when the channel closes is never answered. |
| Superseding.AnsweredAtMostOnce | native/hub/src/actors/whiteboard.rs:88-124 | A request is answered at most once, and exactly once if nothing waited at the close. |
| Superseding.OnlyNewerSupersedes | native/hub/src/actors/whiteboard.rs:57-75 | At most one history and one recent per provider wait, and a request is superseded only by one of its kind received later. |
| Superseding.DrainAnswersAll | native/hub/src/actors/whiteboard.rs:88-124 | Without new requests, as many completions as requests pending leave nobody unanswered. |
| TerminalEscaping.Quote | windows/runner/session_terminal.cpp:31-46 | The loop over pending backslashes quotes as specified. |
| TerminalEscaping.EscapeSemicolons | windows/runner/session_terminal.cpp:158-163 | Each semicolon gets one backslash. |
| TerminalEscaping.Piece | windows/runner/session_terminal.cpp:148-165 | One argument of the line, or the error of an overlong or control character argument. |
| TerminalEscaping.TerminalCommandLine | windows/runner/session_terminal.cpp:131-169 | The line of all arguments within the stated bounds, with the payload quoted twice from its first program name on. |
| TerminalEscaping.ScanQuoted | windows/runner/session_terminal.cpp:31-46 | Reading a quoted text up to its closing quote gives the text, for both readings of paired quotes. |
| TerminalEscaping.ScanQuoteOf | windows/runner/session_terminal.cpp:31-46 | One parse takes exactly the quoted argument, whatever follows. |
| TerminalEscaping.JoinedReads | test/windows_terminal_smoke.cpp:35-48 | Pieces joined by spaces are parsed into the arguments they stand for. |
| TerminalEscaping.UnescapedEscaped | test/windows_terminal_smoke.cpp:38-42 | Removing the backslash before each semicolon gives the argument back. |
| TerminalEscaping.EverySemicolonEscaped | windows/runner/session_terminal.cpp:158-163 | No semicolon is left that Terminal would take for an action separator. |
| TerminalEscaping.PayloadReads | windows/runner/session_terminal.cpp:148-157 | Terminal joins arguments with quotes around spaces only; each payload argument survives that. |
| TerminalEscaping.FirstParse | test/windows_terminal_smoke.cpp:26-34 | The first parse of the line yields one value per argument. |
| TerminalEscaping.SecondParse | test/windows_terminal_smoke.cpp:35-50 | Unescaping, joining and parsing again yields the payload as it was requested. |
| TerminalEscaping.OptionsUnchanged | test/windows_terminal_smoke.cpp:31 | Arguments before the payload reach Terminal unchanged. |
| TerminalLimits.LineGrowth | windows/runner/session_terminal.cpp:144-167 | An argument of n UTF-16 units adds at most 8 n + 11 to the line. |
| TerminalLimits.LineIsProduced | windows/runner/session_terminal.cpp:131-169 | Every new tab in the front window or a named one, with 4 to 40 arguments free of control characters, gets its line if these are short; otherwise it is refused for its length only. |
| TerminalLimits.RefusedWindow | windows/runner/session_terminal.cpp:132-143 | Anything but such a new tab is refused as unsupported, and nothing else is. |
| TerminalLimits.RefusedArgument | windows/runner/session_terminal.cpp:14-18 | Otherwise the first argument that is too long or holds a control character decides the refusal. |
| TerminalLimits.RequestArrives | test/windows_terminal_smoke.cpp:22-50 | Every short request arrives: Terminal finds the options, and its child the payload, as they were asked for. |
| TerminalLimits.UnitsExactly | windows/runner/session_terminal.cpp:14-28 | The sizes of a character in UTF-8 and UTF-16. |
| TerminalLimits.SizesAdd | windows/runner/session_terminal.cpp:14-28 | The size of a text is the sum of those of its characters. |
| TerminalLimits.PayloadPrograms | windows/runner/session_terminal.cpp:146-147 | The payload begins with one of two programs. |
| RecentCache.Cache.Track | native/hub/src/actors/recent_cache.rs:43-56 | A path is tracked once, within 256 paths and 64 directories. |
| RecentCache.Cache.TrackAll | native/hub/src/actors/recent_cache.rs:93-104 | A load keeps the stamps that found room, in the order in which it asked. |
| RecentCache.Cache.CountDirectories | native/hub/src/actors/recent_cache.rs:49-51 | The directories tracked are counted. |
| RecentCache.Cache.Load | native/hub/src/actors/recent_cache.rs:66-125 | A valid entry is returned and becomes the newest; otherwise the entry goes, the loader runs, and a success becomes the newest of eight at most. |
| RecentCache.RecencyOrder | native/hub/src/actors/recent_cache.rs:98-124 | Over every run keys are unique, at most eight, and the most recently used ones in order. |
| RecentCache.BudgetKeepsFirst | native/hub/src/actors/recent_cache.rs:43-56 | A load within the budgets keeps the first stamp of every path it asked for. |
| RecentCache.BudgetTracksFirst | native/hub/src/actors/recent_cache.rs:43-56 | Within the budgets, a loader that asks for each source before it reads it has the stamp of each kept. |
| CacheHits.BudgetsHold | native/hub/src/actors/recent_cache.rs:43-56 | Whatever a loader asks for, at most 256 paths and 64 directories are watched, each once. |
| RecentCache.ValidIsFresh | native/hub/src/actors/recent_cache.rs:70-82 | If all stamps taken before the reads still hold, a fresh load at that moment gives the same items. |
| RecentCache.OneFreshLoad | native/hub/src/actors/recent_cache.rs:93-105 | There is only one result of a fresh load at a moment. |
| RecentCache.EntriesGrounded | native/hub/src/actors/recent_cache.rs:91-121 | In every run every entry was read by one of the visits that loaded, behind its stamps. |
| RecentCache.HitsAreFresh | native/hub/src/actors/recent_cache.rs:66-89 | In every run every hit equals a fresh load at that moment, despite writes in between, if no stamp is reused and those visits that load track first. |
| RecentCache.UnstableIsNeverHit | native/hub/src/actors/recent_cache.rs:108-121 | A load during which a source changed is never used again. |
| CacheHits.EntryStays | native/hub/src/actors/recent_cache.rs:108-124 | An entry just used stays through fewer than eight visits of other keys. |
| CacheHits.LoadServesLaterVisits | native/hub/src/actors/recent_cache.rs:66-121 | What a stable load found is returned again for thirty seconds, while its sources do not change and fewer than eight other visits come between. |
| CacheHits.OtherwiseItLoads | native/hub/src/actors/recent_cache.rs:66-125 | Without a recent entry whose sources are unchanged, a visit returns what its own load finds, or fails. |
| WebSocket.XorTwice | scripts/codex-session-control.py:93 | Masking with the same octet twice gives the octet back. |
| WebSocket.BigEndianInverse | scripts/codex-session-control.py:89-92 | A number in network order is read back. |
| WebSocket.LengthIsRead | scripts/codex-session-control.py:89-92 | All three length forms are read back, and each is the shortest that holds the size. |
| WebSocket.FrameRoundTrip | scripts/codex-session-control.py:85-94 | A server reads the payload that was framed, for any size, opcode and mask. |
| WebSocket.CodexRpc.Receive | scripts/codex-session-control.py:70-76 | Receiving moves bytes from what can arrive into the buffer and loses none. |
| WebSocket.CodexRpc.Take | scripts/codex-session-control.py:78-83 | Taking yields the next bytes of the stream exactly when there are so many. |
| WebSocket.CodexRpc.TakeHeader | scripts/codex-session-control.py:103-109 | The first two octets and the size, in any length form. |
| WebSocket.CodexRpc.TakeFrame | scripts/codex-session-control.py:103-112 | The next frame of the stream, or the error of an unsupported one. |
| WebSocket.CodexRpc.Pong | scripts/codex-session-control.py:118-119 | A ping is answered with a masked pong of the same payload. |
| WebSocket.CodexRpc.Message | scripts/codex-session-control.py:99-129 | The message and the pongs depend on the stream alone, not on how it is chunked. |
| WebSocket.AllArrives | scripts/codex-session-control.py:70-83 | Within the traffic limit any chunking of the same bytes gives the same stream. |
| WebSocket.AcceptsMessages | scripts/codex-session-control.py:99-129 | Frames of a well-formed message within the limits are accepted; the result is the concatenated fragments, and each ping is answered once and in order. |
| WebSocket.OnlyMessages | scripts/codex-session-control.py:99-129 | Nothing else is accepted. |
| WebSocket.ServerFrameIsRead | scripts/codex-session-control.py:103-112 | The client reads a server frame back in all three length forms. |
| WebSocket.MessageReceived | scripts/codex-session-control.py:99-129 | A message a server cut into frames in any way, with control frames between, is received whole. |
| WebSocketFrames.FrameIsReadExactly | scripts/codex-session-control.py:103-112 | The client takes a frame from the stream if and only if an unmasked one without reserved bits and within its limit stands there, in any length form. |
| WebSocketFrames.UnsupportedIsRefused | scripts/codex-session-control.py:110-111 | A frame with a reserved bit or over the limit is refused as unsupported. |
| WebSocketFrames.MaskedIsRefused | scripts/codex-session-control.py:110-111 | So is a masked one. |
| WebSocketFrames.CutIsRefused | scripts/codex-session-control.py:70-76 | A frame that is cut off ends the stream. |
| WebSocketFrames.FrameEndsMessage | scripts/codex-session-control.py:113-126 | Each frame that does not fit ends the message with its own error. |
| WebSocketFrames.OnlyControlFrames | scripts/codex-session-control.py:102-129 | A stream of pings and pongs alone is given up after 1024 frames. |
| UsageWorkers.ValidateSlot | native/hub/src/actors/context.rs:3821-3833 | A slot is accepted exactly if, trimmed, it is a positive decimal number without leading zeros. |
| UsageWorkers.SlotOrderIsNumeric | native/hub/src/actors/context.rs:4286-4288 | Length-then-text order of slots is the order of their numbers, and different slots are different numbers. |
| UsageWorkers.EveryNumberHasASlot | native/hub/src/actors/context.rs:3821-3833 | Every positive number has a slot, its decimal text, which is accepted. |
| UsageWorkers.ActKeeps | native/hub/src/actors/context.rs:4126-4140 | No action of a worker loses an account or reads one twice. |
| UsageWorkers.EachReadOnce | native/hub/src/actors/context.rs:4114-4153 | Whatever the schedule, once all workers are joined every account was read exactly once. |
| UsageWorkers.SortedUnique | native/hub/src/actors/context.rs:4154 | With distinct slots there is one sorted order. |
| UsageWorkers.ScheduleDoesNotMatter | native/hub/src/actors/context.rs:4114-4154 | For distinct slots the sorted results of any schedule are those of reading one account after the other. |
| UsageWorkers.ActHelps | native/hub/src/actors/context.rs:4128-4138 | Each action of a running worker brings the end closer. |
| UsageWorkers.ReadUsages | native/hub/src/actors/context.rs:4114-4154 | The workers end under any scheduler, and the sorted results hold each account once. |
| SessionCommands.NormalizeId | native/hub/src/actors/context.rs:5443-5460 | An accepted id has only id characters, and is in lower case for Codex. |
| SessionCommands.ParseCommand | native/hub/src/actors/context.rs:5306-5430 | A recognised command carries a canonical id. |
| SessionCommands.CommandRoundTrip | native/hub/src/actors/context.rs:5306-5430 | The command line written for a session of any of the six agents is recognised as that session. |
| SessionCommands.IdCharactersExactly | native/hub/src/actors/context.rs:5443-5460 | Ids are made of letters, digits, hyphens, underscores and points. |
| SessionForms.ProgramIsRecognised | native/hub/src/actors/context.rs:5432-5441 | A program is recognised by its name in any case, in any folder, with or without the suffix of an executable or a command file. |
| SessionForms.FlagThenId | native/hub/src/actors/context.rs:5306-5430 | Every session flag of each agent with the id behind it is recognised, for all but Claude in any case. |
| SessionForms.FlagEqualsId | native/hub/src/actors/context.rs:5306-5430 | So is every flag with the id behind an equals sign, which Kimi reads in lower case. |
| SessionForms.CodexVerbThenId | native/hub/src/actors/context.rs:5329-5342 | Codex resumes or forks a session; its ids are read in lower case. |
| SessionCommands.TitleCommand | native/hub/src/actors/context.rs:5306-5430 | A title line is taken for a command exactly when one stands behind its last two ampersands. |
| SessionCommands.CommandBehindPair | native/hub/src/actors/context.rs:5306-5430 | Every written command line is recognised behind two ampersands, whatever stands before them. |
| MarkdownConfig.NormalizeGroupId | native/hub/src/actors/context.rs:5734-5748 | A group id is never empty and has only id characters. |
| MarkdownConfig.NormalizeColor | native/hub/src/actors/context.rs:5750-5759 | A color is always a hash and six hexadecimal digits. |
| MarkdownLines.IdAndColorCharacters | native/hub/src/actors/context.rs:5734-5759 | The characters of group ids and of colors. |
| MarkdownLines.CasesOfLetters | native/hub/src/actors/context.rs:5750-5759 | Upper and lower case exchange the letters of the alphabet, and nothing else. |
| MarkdownConfig.ParseMarkdownItems | native/hub/src/actors/context.rs:5484-5604 | The loop over lines with pending title and open group computes the specified items and warnings. |
| MarkdownConfig.LineKeepsBalance | native/hub/src/actors/context.rs:5506-5590 | Every line keeps the items bracketed, with the open group closed at the end. |
| MarkdownConfig.ParsedIsBracketed | native/hub/src/actors/context.rs:5484-5604 | For every text the items are well bracketed: groups do not nest, and each end carries the id of the open group. |
| MarkdownLines.GroupMarkerExactly | native/hub/src/actors/context.rs:5485-5491 | A line is a group marker if and only if it matches the pattern, in any case of letters and with any spaces; the fields are those of the pattern. |
| MarkdownLines.GroupEndExactly | native/hub/src/actors/context.rs:5492-5500 | The same for the end marker. |
| MarkdownLines.UnopenedEndWarns | native/hub/src/actors/context.rs:5546-5562 | An end marker without a group is reported, and forgets the title before it. |
| MarkdownLines.NextGroupCloses | native/hub/src/actors/context.rs:5512-5545 | A group inside another one ends that first. |
| MarkdownLines.OpenGroupIsClosed | native/hub/src/actors/context.rs:5591-5604 | A group left open is closed at the end of the text. |
| MarkdownLines.UntitledSession | native/hub/src/actors/context.rs:5564-5582 | A session without a title is named by the last four characters of its id. |
| MarkdownLines.LastTitleCounts | native/hub/src/actors/context.rs:5584-5587 | Of several titles in a row the last one counts. |
| MarkdownLines.MalformedIsTitle | native/hub/src/actors/context.rs:5584-5590 | A line that names the marker but does not match the pattern is taken for a title. |
| MarkdownLines.MalformedIsNeverWarned | native/hub/src/actors/context.rs:5584-5590 | For every text, the only warnings are those of ends without a group: the warning of a malformed group is never given. |
| MarkdownRoundTrip.RenderMarkdownItems | native/hub/src/actors/context.rs:5606-5669 | The loop writes the items with an empty line between each two. |
| MarkdownRoundTrip.GroupLineIsRead | native/hub/src/actors/context.rs:5512-5546 | A written group line is read as that group. |
| MarkdownRoundTrip.LabelKeptExactly | native/hub/src/actors/context.rs:5720-5732 | The label of a title line is the title if and only if it has no escaped hash and does not start with a hash, a star or a dash. |
| MarkdownRoundTrip.TitleKeptExactly | native/hub/src/actors/context.rs:5564-5590 | A written title is read back by the parser if and only if it is one trimmed line that is no command, has no escaped hash and does not start with a hash, a star or a dash. |
| MarkdownRoundTrip.CommandInTitle | native/hub/src/actors/context.rs:5564-5582 | Such a failure: a title with a command line behind two ampersands becomes a session, and the title is lost. |
| MarkdownRoundTrip.ItemIsRead | native/hub/src/actors/context.rs:5606-5669 | Each canonical item written is read back whole, whatever follows. |
| MarkdownRoundTrip.RoundTrip | native/hub/src/actors/context.rs:5606-5669 | Reading what was written for canonical, well-bracketed items returns exactly those items with no warning. |
| MarkdownRoundTrip.IdTwice | native/hub/src/actors/context.rs:5734-5748 | Normalizing a group id is idempotent. |
| MarkdownRoundTrip.ColorTwice | native/hub/src/actors/context.rs:5750-5759 | Normalizing a color is idempotent. |
| MarkdownRoundTrip.Stable | native/hub/src/actors/context.rs:5484-5669 | For every text whose titles are canonical, writing its items and reading them again changes nothing. |

## Left out

- Drops.DropPool.CleanupDrops: promises deletion where nothing is in use; after a deletion that failed part of the way `.input.json` can be gone before an attachment, and then the rest is kept. Changes that another process makes to a folder while it is being deleted are not modelled, nor are drop folders whose names differ in case only.
- KimiIndex.EveryReadAgrees: assumes files that only grow; an index rewritten in place with the same creation time, prefix and boundary is not detected by the code.
- RecentCache.HitsAreFresh: assumes loaders within the tracking budgets; sources beyond them are only found again after thirty seconds.
- ResponseTail.SmallerWindow: compares texts and times of answers, not turn ids, because a window that begins inside a turn does not know its id; it is about logs in which a turn that finishes is the one begun last, which `ResponseTail.OtherTurnDiffers` shows is needed.
- UsageWorkers.ScheduleDoesNotMatter: assumes distinct slots; two files whose trimmed names are the same slot may come in either order.
- UTF-8 validity of files and arguments: bytes and Unicode scalar values are taken as read.
- The JSON codecs: an encode and decode pair that inverts and writes no line break, or a classifier of records.
- Clocks, deadlines and directory order: arbitrary values. A failed rename leaves the board unchanged.
- How a post's id is made: that ids differ is what a caller of `BoardProtocol.BoardHoldsEdits` sees to, with metadata lines of at most 128 KiB.
- The status texts, active slots and emitted interface state of the context actor, and its account file operations, which are their outcomes here.
- Account switching with rollback (`native/hub/src/actors/context.rs`): real but a plain sequence of file operations.
- `compute_zcode_window_usage` and the weekly usage history: sums over sorted records, without an invariant across calls.
- The result lists of `apply`, the handshake and the request loop of `scripts/codex-session-control.py`.
- `trim_response_cache` and the response, header and database caches of `native/hub/src/actors/whiteboard.rs`.
- `normalize_provider` and `deserialize_items`: providers are a datatype here, and items come in their normal form.
- The loaders of the single agents, title selection and path inference: field picking without a deep invariant.
- Dart, Win32, elevation, the terminal broker and the packaging scripts: calls into the system.
