# The HSC queue monitor, modelled and proved

The monitor watches service centres for free appointment times. A scheduled process
(`monitor-once`) loads its stored state, passes a gate, restores a stored session, reads
departments, days and slots with retries, records what it found, compares it with the
stored snapshot, stores the new one and only then tells someone. A person runs
`refresh-session` when the session is refused. This project models that protocol effect by
effect, the read pass below it, the Ukrainian messages above it, and four smaller pieces of
state: the post-submit watcher, the accessibility search, the centre catalogue and the two
long-running monitors.

## How it is put together

| file | part of the repository |
|---|---|
| `Common`, `Sorting`, `Dicts`, `Text`, `Calendar` | lists, the stable sort, ordered dictionaries, lines, dates and clock times |
| `Http`, `Scan` | one call with its retries; one read pass and what it means |
| `Protocol` | documents, effects, one run, traces of runs with failures and crashes |
| `Traces`, `Gate`, `States`, `Announcements`, `JarWriting` | what the protocol promises over every trace |
| `Process`, `Commands` | the same protocol as the imperative code it is, proved against `Protocol` and `Scan` |
| `Slots`, `Snapshot` | slots, their order, diffing, and the stored document |
| `Reader` | how a person reads one message, defined independently of the printer |
| `Chunking`, `Templates`, `Rendering` | the printer, proved against the reader |
| `Watcher`, `Search`, `Ancestry` | the post-submit polling loop; the bounded breadth-first search; the walk up the tree |
| `Parsing` | days and slots answers of undocumented shape |
| `CentreNames`, `Catalogue`, `Merging` | centre numbers, discovery, merging into the configuration |
| `ApiMonitor`, `SeenSlots` | the in-memory monitor; the cooldown store of the browser monitor |

A run is the list of its effects, in order; a crash leaves a beginning of that list. The
environment of a run (answers, jars, clock readings, which loads and writes work) is
arbitrary. `Process` keeps a journal that stops accepting effects when the process is
killed, so its contracts hold at every crash point.

Where the code and its own comments disagree, the model follows the code:

- Three consecutive clickable polls are not needed for a form reset: `login_page.py:51-54`
  says so, but the counter survives a poll with the button disabled
  (`Watcher.ResetWithoutThreeInARow`, and exactly when they agree in
  `Watcher.ResetIsThreeInARowIff`).
- A message can drop a slot: in a two-sided change, a centre whose dates are interrupted by
  another centre of the same rank is filed over. Centres "12" and "012" do it
  (`Rendering.TwelveLosesASlot`, `Rendering.RenderTwelve`); nothing is lost exactly when no
  run is interrupted (`Rendering.CombinedIsLosslessIff`).
- `merge` does delete: an entry without an id is dropped, and of entries that share an id
  only the last survives (`Merging.EntrySurvivesIff`, with a lost entry in
  `Merging.TwoOfThreeAreLost`). The command validates the configured file first and refuses
  blank and duplicate ids (`config.py:1034-1042`), so this needs an `--output` that names
  another file.
- A configured cooldown is kept exactly when it is at most thirty days: a longer one is cut
  short by pruning (`SeenSlots.CooldownIsKeptIff`, with the history in
  `SeenSlots.ForgottenTooEarly`).
- A session persister can call itself degraded although the store agrees with the jar:
  exactly when the last write that was attempted failed and a later answer had nothing to
  write (`JarWriting.DegradedButAgreesIff`).
- A slot whose start has seconds is announced as new by every run, because the stored
  document keeps minutes (`Announcements.SecondsAreNewInEveryRun`, and exactly when a rescan
  is silent in `Snapshot.RescanIsSilentIff`).

## Model

| member | source | states |
|---|---|---|
| Traces.PausedRunsDoNothing | src/hsc_queue_monitor/api/headless_monitor.py:275-283 | From a stored AUTH_REQUIRED, any sequence of monitor runs has no effect at all: no request, no session load, no write, no message |
| Traces.PausedUntilRefreshed | src/hsc_queue_monitor/cli.py:1595-1614 | Over any trace of runs and refreshes with failures and crashes, a paused monitor stays paused with its snapshot untouched, unless the first effect beside refreshed sessions is a refresh clearing the state right after writing its session |
| Traces.RefreshIsShaped | src/hsc_queue_monitor/cli.py:1586-1614 | Whatever lands of a refresh is nothing, the session, or the session and then the cleared state; never the state alone |
| Traces.AfterIsHistory | src/hsc_queue_monitor/api/headless_monitor.py:251-370 | After any trace the documents are what the landed writes, in order, made of them |
| Gate.RequestsIffUsable | src/hsc_queue_monitor/api/headless_monitor.py:275-315 | A run sends a request exactly when neither a pause nor a wait is in force and the stored session can be read and has not expired; otherwise it sends and saves nothing to do with the session |
| Gate.PausesIff | src/hsc_queue_monitor/api/headless_monitor.py:220-248 | A run records AUTH_REQUIRED exactly when it gets as far as the session, can write the state, and either has no usable session or met a physical 401 or 403; no rate limit, outage or timeout ever does it |
| Gate.WaitingRunDoesNothing | src/hsc_queue_monitor/api/monitor_state.py:84-98 | While a stored rate limit is being waited out, a run has no effect |
| Gate.RateLimitIsWaitedOut | src/hsc_queue_monitor/api/headless_monitor.py:479-491 | A rate-limited run stores a state that waits until the cap on Retry-After has passed since its own clock reading, and not longer |
| States.LastSuccessSurvives | src/hsc_queue_monitor/api/monitor_state.py:233-253 | After any trace the stored state carries the time of the last success ever written; no failure, crash or refused session loses it |
| States.TroubleIsNews | src/hsc_queue_monitor/api/monitor_state.py:101-115 | A step tells of trouble only when another status was stored before it |
| States.TroubleIsToldOnce | src/hsc_queue_monitor/notifications/dispatcher.py:55-86 | Over any trace, while the stored status stays what it is nobody is told of it again |
| Announcements.CompletingRun | src/hsc_queue_monitor/api/headless_monitor.py:373-421 | A run that reads everything and can store it does its bookkeeping first, then stores the snapshot, and only then speaks |
| Announcements.SnapshotStep | src/hsc_queue_monitor/api/headless_monitor.py:355-421 | A step that stores the snapshot leaves exactly what it read, without seconds; partial, refused, gated, unsaved and early-killed runs leave it alone |
| Announcements.SnapshotIsLatest | src/hsc_queue_monitor/api/headless_monitor.py:355-421 | After any trace the stored snapshot is the reading of the latest run that read every centre completely and whose write landed |
| Announcements.StoredMeansComplete | src/hsc_queue_monitor/api/headless_monitor.py:236-248 | A stored snapshot comes from a pass in which every reading was complete |
| Announcements.OnlyStoredChangesAreAnnounced | src/hsc_queue_monitor/api/headless_monitor.py:389-421 | What a run prints or sends is the change of the snapshot it stored just before, each at most once; a run that stored none says nothing about slots |
| Announcements.SentIsASubsequence | src/hsc_queue_monitor/notifications/dispatcher.py:55-86 | Over any trace with crashes, the changes sent are a subsequence of the true changes of the stored snapshot: one can be lost, none repeated or invented |
| Announcements.ReplayIsStored | src/hsc_queue_monitor/api/availability_snapshot.py:189-213 | Over any trace, replaying the returned diffs, in the whole minutes they are stored in, onto the known keys of a centre that stays monitored gives the stored keys |
| Announcements.ReplayInMinutesIsStored | src/hsc_queue_monitor/api/availability_snapshot.py:189-213 | While every start read is a whole minute, replaying the diffs just as they are returned gives the stored keys too |
| Announcements.NotAnnouncedTwice | src/hsc_queue_monitor/api/headless_monitor.py:373-421 | Once a key is stored, no run reports it as new until some run's diff has taken it away, whatever seconds the service gives |
| Announcements.OnlyKnownCentresAreAnnounced | src/hsc_queue_monitor/api/availability_snapshot.py:202-213 | A slot is announced only if its centre was in the snapshot stored just before the run, and is monitored now |
| Announcements.SecondsAreAlwaysNew | src/hsc_queue_monitor/api/availability_snapshot.py:352-359 | A start with seconds at a centre known before is reported as new by every run that stores it |
| Announcements.SecondsAreNewInEveryRun | src/hsc_queue_monitor/api/availability_snapshot.py:352-359 | So it is in every run after any trace, whatever was announced before |
| Announcements.DocumentsStayValid | src/hsc_queue_monitor/api/availability_snapshot.py:147-172 | Every stored snapshot of a trace is well formed: one entry a centre, each with its own slots |
| JarWriting.MemoryIsHeld | src/hsc_queue_monitor/api/session_store.py:456-482 | Across any answers and failed writes, the remembered digest is that of the stored jar |
| JarWriting.DegradedIff | src/hsc_queue_monitor/api/session_store.py:456-482 | Degraded means exactly that the last write that was attempted failed |
| JarWriting.NotDegradedIsStored | src/hsc_queue_monitor/api/session_store.py:164-175 | After the requests of a run that is not degraded, the stored jar has the names and values of the jar seen last |
| JarWriting.DegradedThoughAgreeing | src/hsc_queue_monitor/api/session_store.py:467-482 | A change that could not be written and is then taken back leaves the persister degraded although the store agrees with the jar |
| JarWriting.DegradedButAgreesIff | src/hsc_queue_monitor/api/session_store.py:456-482 | The persister calls itself degraded while the store agrees with the jar exactly when the last write that was attempted failed and a later answer came without needing one |
| JarWriting.WrittenIff | src/hsc_queue_monitor/api/session_store.py:164-190 | An answer is written exactly when the names or values of its jar differ from the stored ones and the store can be reached; an expiry alone never is |
| JarWriting.WritesAreChanges | src/hsc_queue_monitor/api/session_store.py:456-482 | Successful writes are as many as changes of the stored digest |
| JarWriting.RequestsStore | src/hsc_queue_monitor/api/session_store.py:456-482 | After its requests a run has stored the session the write-if-changed rule says, whatever was stored before |
| JarWriting.LaterExpiryIsNotWritten | src/hsc_queue_monitor/api/session_store.py:164-190 | While only expiries move, nothing is written and the document keeps its first expiry |
| JarWriting.KilledLeavesAnEarlierSession | src/hsc_queue_monitor/api/session_store.py:425-482 | A process killed among its requests leaves the session of some earlier moment of the same run |
| Http.AttemptsStop | src/hsc_queue_monitor/api/client.py:214-248 | Every answer of a call but its last is retryable, and it stops early only at an answer that is final |
| Http.RefusalEndsCall | src/hsc_queue_monitor/api/retry.py:72-76 | A call ends as unauthorized or forbidden exactly when one of its physical answers was that, since a refusal is never asked again |
| Http.WaitIsBounded | src/hsc_queue_monitor/api/retry.py:62-120 | No wait between attempts exceeds the larger of the backoff cap and the Retry-After cap (section 10.2.3 of RFC 9110) |
| Scan.PassAsksOnce | src/hsc_queue_monitor/api/availability.py:601-689 | A pass makes one departments call and, a centre, at most one days call followed by one slots call for each date it offered, in date order |
| Scan.PassRequests | src/hsc_queue_monitor/api/client.py:214-248 | The physical requests of a pass are the sum of its reported attempts, at most the attempt limit for each call |
| Scan.PassCentres | src/hsc_queue_monitor/api/monitor.py:140-176 | One reading for each centre, in the order asked |
| Scan.DatesAreInOrder | src/hsc_queue_monitor/api/availability.py:640-689 | The dates read are the first wanted ones, each with its own call, and the scan ends early only at a failure that ends it |
| Scan.ParseDaysIs | src/hsc_queue_monitor/api/availability.py:330-350 | The dates of a scan are exactly the listed ones, each once, in calendar order |
| Scan.AuthRequiredIff | src/hsc_queue_monitor/api/headless_monitor.py:236-238 | With a centre to read, a pass is AUTH_REQUIRED exactly when some physical answer in it was 401 or 403 |
| Scan.ReadyIff | src/hsc_queue_monitor/api/headless_monitor.py:240-248 | With a centre to read, a pass is READY exactly when every centre was read completely |
| Scan.NoCentresIsReady | src/hsc_queue_monitor/api/headless_monitor.py:236-248 | A pass asked for no centre at all is READY, even a refused one; the command refuses an empty list before it gets here |
| Scan.CentreKinds | src/hsc_queue_monitor/api/monitor.py:179-230 | A centre's reading carries exactly the failure kinds of its calls, and a complete one none |
| Scan.StateOfIs | src/hsc_queue_monitor/api/monitor.py:84-88 | The state of a scan holds exactly the starts read, each under its date, and each once |
| Process.World.Do | src/hsc_queue_monitor/api/headless_monitor.py:251-370 | An effect lands if the process is still alive, and otherwise nothing changes |
| Process.SessionPersister.OnResponse | src/hsc_queue_monitor/api/session_store.py:456-482 | One look at the jar changes the persister and the journal as the write-if-changed rule says |
| Process.HscApiClient.Ask | src/hsc_queue_monitor/api/client.py:250-265 | One physical request is followed by one look at the jar, failed answers included; the client's whole history stays accounted for |
| Process.HscApiClient.Get | src/hsc_queue_monitor/api/client.py:214-248 | The retry loop makes exactly the requests of the call it returns; what it sleeps is the sum of the waits its failed answers call for, Retry-After included, each decided after its answer and over before the next request |
| Process.PatienceIs | src/hsc_queue_monitor/api/retry.py:62-120 | The most that a call may sleep is the number of its waits times the longest wait |
| Process.Pacer.Wait | src/hsc_queue_monitor/api/availability.py:504-513 | What is slept is what is returned: at most the interval, at most what is left of it since the last mark, and nothing before the first request; after it the next mark is far enough from the last |
| Process.Pacer.Mark | src/hsc_queue_monitor/api/availability.py:515-517 | Every mark is at least the interval after the one before |
| Process.ScanDates | src/hsc_queue_monitor/api/availability.py:637-689 | The loop over the dates makes the calls and readings of the specification, stopping where it stops, and marks the pacer for each call at the moment its first request is sent |
| Process.AskForDate | src/hsc_queue_monitor/api/availability.py:640-652 | One slots call is made, and the pacer is marked for it once, at the moment its first request is sent |
| Process.ScanDepartment | src/hsc_queue_monitor/api/availability.py:601-689 | A days call, unpaced, and then the dates it offered, as specified |
| Process.ReadOneCentre | src/hsc_queue_monitor/api/monitor.py:179-230 | One centre's reading from the shared departments answer, as specified |
| Process.ReadPass | src/hsc_queue_monitor/api/monitor.py:140-176 | A whole pass gives the specified readings; the first requests of any two of its slots calls, whichever centres they belong to, are at least the interval apart |
| Process.Record | src/hsc_queue_monitor/api/monitor_state.py:256-288 | The new state is written, or no transition is reported |
| Process.CompareAndSave | src/hsc_queue_monitor/api/headless_monitor.py:373-421 | The snapshot is loaded, diffed, replaced and only then announced; a failed load or save announces nothing |
| Process.ScanSession | src/hsc_queue_monitor/api/headless_monitor.py:316-370 | From a usable session on, the effects and the result are the specified ones wherever the process dies |
| Process.RunHeadlessScan | src/hsc_queue_monitor/api/headless_monitor.py:251-370 | The whole scan has the specified effects and result wherever the process dies, and no two slots calls of it start closer than the configured interval |
| Commands.NotificationDispatcher.NotifyScan | src/hsc_queue_monitor/notifications/dispatcher.py:55-86 | Only a stored change and a stored change of state are sent, and the messages about a change read back as exactly that change |
| Commands.RunMonitorOnce | src/hsc_queue_monitor/cli.py:1686-1780 | With a crash anywhere, the command leaves the documents and the history of one step of a trace; it tells the change of a completing run that has one, whole, and otherwise of no change at all |
| Commands.RunRefreshSession | src/hsc_queue_monitor/cli.py:1556-1614 | With a crash anywhere, the refresh is one step of a trace, and reports success exactly when both writes were made |
| Snapshot.DiffIs | src/hsc_queue_monitor/api/availability_snapshot.py:189-213 | A diff reports exactly the keys only one side has, each once and in order, at the centres both sides know and the run monitors; it baselines exactly the monitored centres met for the first time |
| Snapshot.DiffReplays | src/hsc_queue_monitor/api/availability_snapshot.py:189-213 | Replaying a diff onto what was known of a comparable centre gives what is known now |
| Snapshot.ByKeyIs | src/hsc_queue_monitor/api/availability_snapshot.py:137-144 | The dictionary by key holds exactly the keys of the wanted centres, each with a slot of the snapshot |
| Snapshot.SnapshotOfIsValid | src/hsc_queue_monitor/api/availability_snapshot.py:147-172 | A snapshot built from readings has one entry a centre, with that centre's slots |
| Snapshot.SnapshotOfIsInOrder | src/hsc_queue_monitor/api/availability_snapshot.py:147-172 | In such a snapshot each entry's slots are in report order |
| Snapshot.ByDate | src/hsc_queue_monitor/api/availability_snapshot.py:352-359 | The loop files every slot under its date, as specified |
| Snapshot.GroupedReads | src/hsc_queue_monitor/api/availability_snapshot.py:352-388 | Grouping by date and reading the groups back gives the sorted slots again, without seconds |
| Snapshot.PersistedIs | src/hsc_queue_monitor/api/availability_snapshot.py:291-345 | Saving and loading a snapshot gives the same centres, empty ones included, and the same slots in the same order, only cut to whole minutes |
| Snapshot.PersistedKeys | src/hsc_queue_monitor/api/availability_snapshot.py:291-345 | The stored keys of each centre are its keys in whole minutes |
| Snapshot.RescanIsSilentIff | src/hsc_queue_monitor/api/availability_snapshot.py:352-359 | Scanning the same availability again reports no change exactly when every monitored start is a whole minute |
| Snapshot.SecondsAreAnnouncedAgain | src/hsc_queue_monitor/api/availability_snapshot.py:352-359 | A slot at 10:00:30, stored and scanned again, is reported as a change |
| Snapshot.MongoAvailabilitySnapshotStore.Save | src/hsc_queue_monitor/api/availability_snapshot.py:329-345 | The whole document is replaced by the grouped snapshot, or nothing changes |
| Snapshot.MongoAvailabilitySnapshotStore.Load | src/hsc_queue_monitor/api/availability_snapshot.py:291-327 | What is loaded is the document read back, centre by centre |
| Slots.SlotOrderIsTotal | src/hsc_queue_monitor/api/availability_snapshot.py:103-115 | The report order by centre, date and start is a total preorder |
| Reader.MessageReadsAsItsLines | src/hsc_queue_monitor/notifications/templates_uk.py:237-240 | Joining a body under its heading and stripping the end loses nothing a reader would note |
| Chunking.ContextReads | src/hsc_queue_monitor/notifications/templates_uk.py:242-247 | A re-emitted context puts the same centre, section and date in force again, from nothing |
| Chunking.Chunked | src/hsc_queue_monitor/notifications/templates_uk.py:224-272 | Read one by one, the messages tell what the whole text tells, each starts with the heading, and none is too long when every opening fits; each message ends only where the next line would no longer have fitted, so a text that fits is one message |
| Chunking.OneMessage | src/hsc_queue_monitor/notifications/templates_uk.py:249-253 | Messages that end only where they are full are a single one when the whole text fits |
| Chunking.AddLine | src/hsc_queue_monitor/notifications/templates_uk.py:255-269 | Adding one line, splitting before it exactly when it would not fit, keeps everything said so far, the length bound and the heading |
| Chunking.SizedLinesFit | src/hsc_queue_monitor/notifications/templates_uk.py:249-253 | Lines of bounded size leave room for the heading and the full context |
| Templates.DateLinesOf | src/hsc_queue_monitor/notifications/templates_uk.py:127-132 | The loop names a date whenever it changes, as specified |
| Templates.DateLinesRead | src/hsc_queue_monitor/notifications/templates_uk.py:109-132 | Under a centre and a section, the date lines read back as the slots they were printed from, in order |
| Templates.Blocks | src/hsc_queue_monitor/notifications/templates_uk.py:152-157 | One block a centre, as specified |
| Templates.BlocksRead | src/hsc_queue_monitor/notifications/templates_uk.py:105-157 | The blocks of one side read back as all its slots, centre by centre |
| Templates.RunsKeepEverything | src/hsc_queue_monitor/notifications/templates_uk.py:122-124 | Grouping the sorted slots by centre keeps every slot, in order |
| Rendering.CombinedBlocks | src/hsc_queue_monitor/notifications/templates_uk.py:160-175 | The loop over the centres of both sides builds the specified blocks |
| Rendering.CombinedBlocksRead | src/hsc_queue_monitor/notifications/templates_uk.py:160-175 | The combined blocks read back as each centre's added and removed slots under the right sections |
| Rendering.CombinedIsExact | src/hsc_queue_monitor/notifications/templates_uk.py:160-175 | With a place of its own for every centre, a two-sided change is told whole and in report order |
| Rendering.CombinedIsLosslessIff | src/hsc_queue_monitor/notifications/templates_uk.py:160-175 | A two-sided change is told without loss exactly when no centre's run is interrupted by another centre |
| Rendering.TwelveLosesASlot | src/hsc_queue_monitor/notifications/templates_uk.py:178-179 | For three new slots on three days at centres 12, 012 and 12 again, and one gone elsewhere, the told change lacks the first slot of centre 12 |
| Rendering.RenderTwelve | src/hsc_queue_monitor/notifications/templates_uk.py:135-149 | The messages of that very change, read back, lack that slot |
| Rendering.InterruptedCentreLosesASlot | src/hsc_queue_monitor/notifications/templates_uk.py:160-175 | So it is with any two centres of one rank and any three days in order |
| Rendering.RenderAvailability | src/hsc_queue_monitor/notifications/templates_uk.py:135-149 | Each message decoded on its own, together they give exactly the added and removed slots in report order (whole minutes), and no message exceeds the limit unless a centre's name is absurdly long; a change that fits is one message, and a longer one is split only where a message is full |
| Watcher.WaitForCallback | src/hsc_queue_monitor/pages/login_page.py:714-837 | The loop stops at the first poll with a verdict, with that verdict; the user data is set about being confirmed in the first poll that shows the screen for it, and in no other |
| Watcher.FirstAskedIs | src/hsc_queue_monitor/pages/login_page.py:807-818 | That poll is the first to ask for the confirmation, and there is none exactly when no poll asks |
| Watcher.Turn | src/hsc_queue_monitor/pages/login_page.py:745-837 | One turn gives the verdict defined on the whole trace of polls, or remembers exactly what the next turn needs |
| Watcher.CounterMeansFormIsBack | src/hsc_queue_monitor/pages/login_page.py:812-824 | The form counter reaches its limit exactly when a run of key-form polls since the last other screen or text change has three clickable ones |
| Watcher.CounterMeansSettled | src/hsc_queue_monitor/pages/login_page.py:825-832 | The other counter reaches its limit exactly when eight polls in a row showed neither known screen and the text stood still |
| Watcher.ResetFollowsProcessing | src/hsc_queue_monitor/pages/login_page.py:840-851 | With the overlay marker configured, a reset is called only after the overlay was seen, before the whole run of key-form polls |
| Watcher.ResetIsThreeInARowIff | src/hsc_queue_monitor/pages/login_page.py:51-54 | The last three polls are consecutive and clickable exactly when the form is back and the button was enabled in the two before |
| Watcher.ResetWithoutThreeInARow | src/hsc_queue_monitor/pages/login_page.py:51-54 | On a named trace the fifth poll is the first with a verdict, a reset, although the button was disabled in the poll before |
| Watcher.WaitThroughDisabledPoll | src/hsc_queue_monitor/pages/login_page.py:812-824 | The loop, run on that trace, ends with that reset |
| Watcher.LatePollIsDecided | src/hsc_queue_monitor/pages/login_page.py:833-837 | A poll after the deadline always has a verdict |
| Search.FindWhere | src/hsc_queue_monitor/browser/macos_ax.py:364-393 | On any graph, cycles included, a match is reached within the depth, nothing matched before it and nothing inspected is the same as anything inspected before; when sameness is coherent, the match is at the least distance any has, with budget left nothing found means nothing within the depth, and a spent budget was spent on the nearest |
| Search.ReachedIsCovered | src/hsc_queue_monitor/browser/macos_ax.py:364-393 | Once the queue holds nothing nearer than a distance, everything reachable within it is already seen, up to sameness |
| Search.Known | src/hsc_queue_monitor/browser/macos_ax.py:379-380 | Whether an element is the same as one already seen, and as which |
| Ancestry.AncestorsOf | src/hsc_queue_monitor/browser/macos_ax.py:313-324 | The chain is the element and its parents in order, none twice, at most the given depth; with depth to spare it stops only at the top or where it would come round again, and then, when sameness is coherent, holds every ancestor there is |
| Ancestry.ClosedIsComplete | src/hsc_queue_monitor/browser/macos_ax.py:313-324 | A chain that stopped at the top or where it would come round again has every ancestor, however far up |
| Parsing.SingleField | src/hsc_queue_monitor/api/availability.py:218-241 | A field is returned exactly when it is the only one readable in every record, and there is a record; the early exit loses nothing |
| Parsing.ReadEvery | src/hsc_queue_monitor/api/availability.py:357-386 | Every item is read, in order, or none is |
| Parsing.ReadUndocumented | src/hsc_queue_monitor/api/availability.py:330-347 | An undocumented answer is read exactly when one reading fits it (all words, or all records sharing one readable field) and reads every item |
| Parsing.ParseDays | src/hsc_queue_monitor/api/availability.py:330-350 | The dates of a days answer are all of its items, each once and in calendar order, or the schema is unknown; exactly when |
| Parsing.ParseSlots | src/hsc_queue_monitor/api/availability.py:389-428 | Every item is one slot, in order of start, or nothing is read: as windows once any record mentions the measured fields, otherwise as the one reading that fits; exactly when |
| CentreNames.CentreNumberIdentifies | src/hsc_queue_monitor/models.py:455-465 | A number read off a name by its sign is one that the name identifies by the word-bounded match |
| CentreNames.CentreNumberIsDigits | src/hsc_queue_monitor/api/config_init.py:100-108 | A centre number is three to six digits |
| Catalogue.Discover | src/hsc_queue_monitor/api/config_init.py:136-162 | The loop keeps the first claim of each number, what is unresolved and what is claimed twice, as specified |
| Catalogue.DiscoveredAreFirstClaims | src/hsc_queue_monitor/api/config_init.py:136-162 | The discovered centres are exactly the first departments to claim each number |
| Catalogue.DiscoveryIsInOrder | src/hsc_queue_monitor/api/config_init.py:158-162 | Each number is discovered once, in numeric order, and is all digits |
| Catalogue.DuplicatesAre | src/hsc_queue_monitor/api/config_init.py:146-162 | Duplicates are exactly the numbers two departments carry |
| Catalogue.DiscoveredResolvesToItself | src/hsc_queue_monitor/api/availability.py:313-327 | A discovered number resolves to the department it was read off, or is refused; never to another |
| Catalogue.DuplicatesAreRefused | src/hsc_queue_monitor/api/availability.py:313-327 | A number reported as a duplicate is refused by every scan of the same answer |
| Merging.DiscoveryIsWellFormed | src/hsc_queue_monitor/api/config_init.py:136-162 | What discovery brings is what a merge can rely on: distinct ids, all digits |
| Merging.MergeCatalogue | src/hsc_queue_monitor/api/config_init.py:206-254 | The loop builds the merged entries and the report, as specified |
| Merging.MergedIs | src/hsc_queue_monitor/api/config_init.py:223-249 | The merged file holds exactly each discovered centre's refreshed entry and every other named entry as it was |
| Merging.NothingIsLost | src/hsc_queue_monitor/api/config_init.py:206-254 | An id is in the merged file exactly when it was discovered, or configured and not blank |
| Merging.LastEntryWins | src/hsc_queue_monitor/api/config_init.py:221-221 | Of entries that share an id, the last is the one the dictionary keeps |
| Merging.EntrySurvivesIff | src/hsc_queue_monitor/api/config_init.py:206-254 | An entry whose id the service did not return is in the merged file exactly when it has an id and is the same as the last entry with that id |
| Merging.DiscoveredEntryIs | src/hsc_queue_monitor/api/config_init.py:221-242 | Under a discovered id the merged file holds exactly what the last entry with that id is refreshed to |
| Merging.TwoOfThreeAreLost | src/hsc_queue_monitor/api/config_init.py:206-254 | Of two different entries under one id and one without an id, a merge keeps only the second |
| Merging.FieldsSurvive | src/hsc_queue_monitor/api/config_init.py:236-240 | Without force, a configured centre keeps every field but its id and name |
| Merging.RetainedIsUntouched | src/hsc_queue_monitor/api/config_init.py:244-247 | A configured centre the service did not return is kept exactly as it was, in both modes |
| Merging.ReportIsAPartition | src/hsc_queue_monitor/api/config_init.py:206-254 | Every id of the file is discovered or retained and never both, and the added ones are those not configured before |
| Merging.UpdatedAre | src/hsc_queue_monitor/api/config_init.py:236-242 | Updated are exactly the configured centres whose entry changed |
| Merging.MergedIsInOrder | src/hsc_queue_monitor/api/config_init.py:249-254 | The file lists every id once, in order |
| Merging.MergingTwiceIsMergingOnce | src/hsc_queue_monitor/api/config_init.py:206-254 | Merging a merged file with the same discovery changes nothing and reports nothing, in both modes, whatever was configured |
| Sorting.SortTailFirst | src/hsc_queue_monitor/api/config_init.py:249-249 | The sort is stable: sorting a part of the list first makes no difference |
| ApiMonitor.DiffStatesIs | src/hsc_queue_monitor/api/monitor.py:251-262 | A centre's diff names exactly the times that appeared and those that went away |
| ApiMonitor.RememberedIsLastComplete | src/hsc_queue_monitor/api/monitor.py:597-612 | Over any run of cycles, each centre is remembered as it was last read completely |
| ApiMonitor.UnreadIsRetained | src/hsc_queue_monitor/api/monitor.py:597-612 | A centre that is not read completely keeps what was known of it |
| ApiMonitor.ReplayOverARun | src/hsc_queue_monitor/api/monitor.py:597-612 | Over any run of cycles, replaying the reported diffs from a centre's baseline gives what is remembered of it |
| ApiMonitor.FailedRecoveryIsTheEnd | src/hsc_queue_monitor/api/monitor.py:520-561 | After a failed recovery nothing is read, reported or changed any more |
| ApiMonitor.RecoveryIff | src/hsc_queue_monitor/api/monitor.py:575-580 | A pass asks for a browser exactly when some physical answer in it was a 403 |
| ApiMonitor.ApiMonitor.Recover | src/hsc_queue_monitor/api/monitor.py:520-540 | The client is gone before a new session is asked for, and back only if that works |
| ApiMonitor.ApiMonitor.ApplyReadings | src/hsc_queue_monitor/api/monitor.py:597-612 | The loop replaces complete readings and collects their diffs, as specified |
| ApiMonitor.ApiMonitor.Cycle | src/hsc_queue_monitor/api/monitor.py:570-595 | One cycle makes at most two read passes and one session request, applies the last pass, and after a failed recovery only raises |
| SeenSlots.SelectedIs | src/hsc_queue_monitor/monitor/state.py:80-92 | A notification lists no key twice, and exactly the keys that are new |
| SeenSlots.SelectionKeepsApart | src/hsc_queue_monitor/monitor/state.py:80-92 | Notifying what is selected leaves every two notices of a key, those of one moment included, at least the cooldown, or thirty days, apart |
| SeenSlots.ReportIsInOrder | src/hsc_queue_monitor/monitor/monitor.py:118-145 | After a report that is marked and pruned the same holds, and every notice not yet thirty days old is remembered |
| SeenSlots.NotificationsStayApart | src/hsc_queue_monitor/monitor/state.py:72-107 | However reports, prunings and new processes follow each other in time, while every mark is saved two notices of a key are at least the smaller of the cooldown and thirty days apart |
| SeenSlots.CooldownIsKeptIff | src/hsc_queue_monitor/monitor/state.py:72-107 | The configured cooldown is kept by every such history exactly when it is at most thirty days |
| SeenSlots.ForgottenTooEarly | src/hsc_queue_monitor/monitor/state.py:101-107 | A history that notifies a key again after a gap longer than thirty days and shorter than the cooldown |
| SeenSlots.LongCooldownIsCutShort | src/hsc_queue_monitor/monitor/state.py:101-107 | Some history breaks any cooldown longer than thirty days, however little longer |
| SeenSlots.LostMarkRepeats | src/hsc_queue_monitor/monitor/monitor.py:143-145 | After a report whose file could not be saved, a new process notifies the same slot again, however little time has passed |
| SeenSlots.StateStore.SelectNew | src/hsc_queue_monitor/monitor/state.py:80-92 | The loop selects as specified |
| SeenSlots.StateStore.MarkNotified | src/hsc_queue_monitor/monitor/state.py:94-99 | Every listed key gets the given time, the others keep theirs |
| SeenSlots.StateStore.Prune | src/hsc_queue_monitor/monitor/state.py:101-107 | Exactly the keys older than thirty days are forgotten, and counted |
| SeenSlots.StateStore.Load | src/hsc_queue_monitor/monitor/state.py:34-56 | A new process remembers exactly what was last saved |
| SeenSlots.StateStore.Report | src/hsc_queue_monitor/monitor/monitor.py:118-145 | On any store, what is new is notified, marked, pruned and, if the file can be written, saved, as one step of a history; a dry run changes nothing; a store in order stays so |
| SeenSlots.ReportTwice | src/hsc_queue_monitor/monitor/monitor.py:118-145 | A report whose file could not be written, a load and the same report notify the slot twice |

## Left out

- JSON itself, `parse_departments`, `sequence_in` and `fromisoformat`: an answer of a scan carries what each parser makes of it, or that it does not recognise the shape; `Parsing` reads items whose clock and date readers are parameters.
- Playwright page objects, selectors, artifacts and the rest of `LoginPage`: a poll of the watcher is one record of what the page showed; `Watcher` stops after the last poll it is given. Confirming the user data is one attempt, which may fail before or at the click.
- PyObjC and AppleScript: the search runs over an abstract graph whose links, matches and sameness do not change while it runs; `find_by_identifier` is one predicate for it.
- Search.FindWhere: that a match is the nearest, and that nothing within the depth was missed, is promised when sameness is an equivalence that respects children and matches (`Coherent`); the source's `same_element` is a foreign call, and the rest of the contract asks nothing of it.
- Ancestry.AncestorsOf: that no ancestor is missing is promised when handles of one element have parents that are the same; the rest of the contract asks nothing.
- MongoDB, Fernet and SHA-256: a document is replaced whole or not at all; a digest is any function of a jar, and only the lemmas that need it ask for one without collisions.
- Unknown versions and unreadable documents: a load gives the last saved value or fails.
- `created_at` and `updated_at` of a session, `age`, log lines, exit texts and reason strings.
- The second load of the state that only renders the waiting time (`_state_retry_after`).
- Commands.NotificationDispatcher.NotifyScan: sending one change is one effect, although it may be several Telegram messages; a crash between two of them is not modelled, nor is a failed delivery.
- The error notifications for an unexpected exception or a persistence failure, and the reason line of the state messages.
- A refresh or a second monitor interleaved with a run: the code has no compare-and-swap, so processes follow one another.
- `ApiMonitor.start`, its persister and `close()` of the store: the model starts with a client. A cycle's read passes are given as readings; `ApiMonitor.RecoveryIff` ties them to the answers.
- Time that passes while a request is made: the clock moves by any amount whenever the process looks at it or sleeps, and a request is sent at the time the clock last said, which for a slots call is that of its mark.
- Floating point: waits, intervals and clock readings are reals. A negative wait, which `time.sleep` refuses, is booked as it is.
- `%Y` without padding before the year 1000, `strftime` locales, and dates a calendar does not have: a date is a year from 1 to 9999, a month and a day up to 31.
- Digits, letters and white space outside the scripts that occur: `\d`, `\w`, `isdigit` and `strip` are modelled on those.
- Set order among centres that share a rank ("012" and "12") in `discover` and `_combined_blocks`: the model lists them in the order they were met.
- YAML reading and writing, comments and key order of an entry; entries are maps of scalar values.
- The state file of the browser monitor as text: it is the dictionary last saved; a hand-written list of keys is not modelled.
- `walk_backend`, the calendar and time page readers, argument parsing and diagnostic commands.
