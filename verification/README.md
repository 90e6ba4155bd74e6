# A verified model of an IM, calendar and meeting server

This project models the algorithms and protocols of the server and its clients in Dafny and
proves what they keep and what they do not. `dafny verify dfyconfig.toml` checks all of it.

## Parts

- **Offline pipeline** (`pipeline/`). Every user has an append-only log of packets, read by
  any number of devices with their own cursors. A pull merges all entity changes of a window
  to one per entity, splits and re-interleaves them and answers the next cursor; a cleanup
  deletes old rows and raises a watermark. Main results: `PipelineRuns.DevicesHoldTheLog` (over
  every run each device holds exactly what the whole log would have given it, told row by row by
  `Deliveries.DeviceHoldsRows` and `Deliveries.DeviceHoldsBest`),
  `PipelineRuns.ExpiredIffRowLost`, `PipelineSync.SyncToEnd` and
  `CalendarSync.SyncIsFaithfulIff` (when catching up over compressed pages means the same to
  the calendar client as replaying the rows).
- **Recurrence** (`calendar/`). Gregorian dates, the five expansion loops with fast-forward,
  clipping and exceptions, the edits of a rule and the queries that answer from it. Main results:
  `RuleExpansion.ExpansionIsExact` (the loops equal a naive scan of base + k * interval; `PlainRules`
  tells what each kind lists in plain numbers, over the literal calendar of `CivilCalendar`),
  `MonthLoops.LoopEndsIff`, `MonthLoops.MonthlyListedIff`, `RuleEdits.ExceptionRemovesOne`,
  `RuleStops.StopAtCutsIff`, `RuleStops.SplitOrders`, `RuleQueries.RangeShowsIff`.
- **Chats** (`im/`). Positions and badges handed out under the chat's lock, membership and
  versions; the client's unread counters and message lists under late, repeated and reordered
  pushes; the worker for scheduled messages. Main results: `ChatRuns.PositionsAreExact`,
  `ChatRuns.LedThroughoutIff`, `ChatRights.DismissedIff`, `Unread.BadgeCountsUnread`, `Unread.DevicesAgree`,
  `Unread.InOrderRowsGiveTrueBadges`, `MessageAgreement.ClientsConvergeIff`, `Scheduler.ResentIff`,
  `Scheduler.CancelHonouredIff`.
- **Meeting rooms** (`rtc/`). Two tables behind separate locks; every critical section is one
  step and connections interleave freely. Main results: `Signaling.RoomsStaySound`, `RoomRules.JoinAdmitsIff`,
  `Signaling.NotedRoomsAreReal`, `Signaling.CloseLeavesNoGhostIff`.
- **Ids** (`common/`). Entity ids and request ids under concurrent calls. Main results:
  `IdGen.IdsEqualIff`, `IdGen.TakeSameIff`.

Code that updates objects is modelled by classes (`Gateway`, `LocalStore`, `ChatContext`,
`FeedStore`, `FeedTable`, `Client`, `SchedulerService`, `Signaler`, `IdSource`, `RidSource`) and loops by
methods with loops. Their `ensures` equate the new state with a function of the old one, and
the lemmas about whole runs are about those same functions. What a function means is told a second
time without it, in the fields, numbers and constants of the source: `LogRules`, `Deliveries`,
`CivilCalendar`, `PlainRules`, `QueryRules`, `ChatRights`, `FeedRules`, `ScheduleRules`, `RoomRules`.

## Where the code does not do what it promises

Each of these is proved, by the exact condition under which the promise holds, by a concrete run
that breaks it, or by both.

- A removed member can still write: the sender check (backend/im/src/chat.rs:198-202) speaks of
  the current member list, but removal keeps the key it looks for. `ChatRuns.NonMemberWritesIff`.
- An admin can remove the owner, who stays owner, and the owner can name owners and admins who are
  not members. `ChatRuns.LedThroughoutIff`, `ChatRuns.RemovedOwnerDismisses`.
- The feed row takes the newest message without comparing positions, so two updates out of order
  make a read push carry too small a badge. `Unread.PushTruthfulIff`.
- A read report looks its row up in one statement and writes it in another, so a smaller position can
  overwrite a larger one. `ReadRaces.ReportGoesBackIff`, `ReadRaces.SmallerReportStays`.
- A recall pushes the message again under its id, and the client takes whatever comes last, so a late
  original undoes it; readers are pushed trimmed read states under the version of the full ones, and
  the later of the two stays. Two clients brought the same things can therefore differ for good.
  `MessageAgreement.ClientsConvergeIff`, `MessageAgreement.LateOriginalUndoesRecall`,
  `MessageAgreement.LaterOfOneVersionStays`.
- A first pull on an empty table answers cursor 0, and the next one counts as first again.
  `PipelineRuns.PullLosslessIff`.
- A removal sent with the version of the last edit loses against that edit.
  `CalendarReplay.TiedDeleteIsDropped`.
- Stop times and exceptions are stored beside the template that the queries expand, so cut and
  excepted times are still answered. `RuleQueries.WithdrawnShownIff`, `RuleQueries.WithdrawnDayIsShown`,
  `RuleQueries.WithdrawnDayIsBusy`.
- The range query keeps one instance of a template, the first in the range, because all of them carry
  the template's id. `RuleQueries.RangeShowsIff`, `RuleQueries.SecondDayIsHidden`.
- A stop can leave an nth-weekday instance of its own month that starts later, and can take out one of
  a monthly rule born after the 28th that starts before. `RuleStops.StopAtCutsIff`,
  `RuleStops.SplitOrders`, `RuleEdits.NthWeekdayOverruns`, `MonthLoops.MonthlyMissesMarch`.
- Monthly rules born after the 28th miss dates in the window's last month, yearly ones of 29 February
  lose the 29th for good after a common year. `MonthLoops.MonthlyListedIff`,
  `MonthLoops.MonthlyMissesMarch`, `MonthLoops.LeapDayVisitedIff`, `MonthLoops.LeapDayLost`.
- A month loop whose step leads past the calendar before the window's end stands still for ever.
  `MonthLoops.LoopEndsIff`, `MonthLoops.HugeStepNeverEnds`.
- The range redrawn after a push misses instances of repeated events that are long enough.
  `RefreshRange.LongEventOutgrowsRangeIff`.
- Week 4 is described as the last one (backend/calendar/src/cycled.rs:323); it is the fifth, cut
  to the month's last day. `Dates.LastWeekdayIff`, `Dates.LastMondayMissed`.
- Month differences are subtracted as unsigned numbers. Compiled for release this wraps and the
  expansion is still exact (`Recurrence.MonthFastForward`); a build with overflow checks would
  panic there.
- A refused scheduled message is marked sent, and one whose sending fails after it got a position
  can be sent again. `ScheduledSend.SentWithoutMessageIff`, `Scheduler.ResentIff`,
  `Scheduler.UnmarkedIsSentAgain`.
- A peer that joins a second room stays behind in the first. `Signaling.CloseLeavesNoGhostIff`.
- Overlapping resets of the request counter repeat a number within a few calls.
  `IdGen.TakeSameIff`, `IdGen.OverlappingResetsRepeat`.

## Premises

- Pipeline runs: sids of one user increase and creation times do not go back, as rows are
  appended; a pull, a save and a cleanup are atomic and their watermark writes succeed; a device
  stores its cursor together with the packets of a page. `IdGen.CallOrderIff` says when sids
  taken from the id generator increase, `PipelineSync.LateRowSeenIff` what a late one costs.
- `PipelineSync.SyncToEnd` and `CalendarSync.SyncIsFaithfulIff` are about tables that do not change
  meanwhile.
- Senders never store an entity push without changes. Without this a full window of such pushes would
  be answered for ever with the same cursor, and nothing else would: `PipelineSync.StuckIffBarrenWindow`.
- Expansion of whole rules: times from 1970 on, a window that ends inside the calendar (years up to 262142), and a
  month loop that ends, which `MonthLoops.LoopEndsIff` makes exact.
- Unread counters start from a consistent row; a device reports a position as read, with the
  badge of that message, after the row was announced for it. `Unread.FeedTable.UpdateReadPos` takes its
  look-up and its write as one step; `ReadRaces` says what happens when they are not.
- Rooms: "one connection per peer id" is stated where it is needed.
- The scheduler has one worker.

## Model

| member | source | states |
|---|---|---|
| `PipelineTypes.FoldKeepsFirstMax` | backend/gateway/src/pipeline.rs:148-155 | For every entity the merge keeps exactly the earliest change of greatest version, and keeps something only for entities some change names |
| `PipelineTypes.FoldIsJoin` | backend/gateway/src/pipeline.rs:148-155 | What is kept combines by a join in which the earlier side wins ties, so folding needs only the summary of what came before |
| `PipelineTypes.ReplayFactors` | sdk/app-chat/src/pipeline.rs:69-81 | Replaying packets one by one is one fold of all entity changes and one list of the other packets |
| `PipelineTypes.ReplayConcat` | sdk/app-chat/src/pipeline.rs:44-86 | Replaying page after page is replaying their concatenation |
| `PipelinePage.SortedChangesList` | backend/gateway/src/pipeline.rs:163-174 | The rebuilt list names every merged entity once, in strictly ascending (type, id) order, with its kept version and operation |
| `PipelinePage.SortedChangesRoundTrip` | backend/gateway/src/pipeline.rs:166-174 | Merging the rebuilt list again gives the merged map back |
| `PipelinePage.ChunksShape` | backend/gateway/src/pipeline.rs:175-185 | n entities go into ceil(n / 2048) packets, none empty, all but the last full |
| `PipelinePage.ChunksCarryAll` | backend/gateway/src/pipeline.rs:175-185 | The split packets carry the same changes in the same order and nothing else |
| `PipelinePage.Collect` | backend/gateway/src/pipeline.rs:139-162 | The first loop computes the pass-through packets, the fold of all changes and the sid of the last merged row |
| `PipelinePage.Repack` | backend/gateway/src/pipeline.rs:163-186 | The second loop computes the bounded packets of the listing, all with the last merged sid as rid |
| `PipelinePage.Interleave` | backend/gateway/src/pipeline.rs:187-198 | The third loop puts the merged packets, side by side and once, before the first other packet with a larger rid |
| `PipelinePage.BuildPage` | backend/gateway/src/pipeline.rs:139-198 | The three loops together compute the page function that the lemmas below are about |
| `PipelinePage.PageProjections` | backend/gateway/src/pipeline.rs:139-198 | A page carries the merged listing and every pass-through packet in order, and nothing else |
| `PipelinePage.PageReplaysLikeRows` | backend/gateway/src/pipeline.rs:135-198 | For any device state, replaying the compressed page ends where replaying every row one by one ends |
| `PipelineLayout.PassedFollowRows` | backend/gateway/src/pipeline.rs:157-161 | Pass-through packets keep the order of their rows |
| `PipelineLayout.PageLayout` | backend/gateway/src/pipeline.rs:163-198 | Rids never go down; the merged packets are contiguous after exactly the packets whose rid is not larger; each entity occurs once |
| `PipelineLayout.PageCursor` | backend/gateway/src/pipeline.rs:200-204 | The cursor a page answers is the sid of a row of the window, and the last one whenever there is any change; rows behind it are empty pushes; the page is empty only if all rows are |
| `PipelineLayout.BarrenRowsReplayToNothing` | backend/gateway/src/pipeline.rs:142-162 | Entity pushes without changes leave a replaying device as it was |
| `PipelineStore.LittleEndianRoundTrip` | backend/gateway/src/pipeline.rs:221-228 | Little-endian bytes decode to the number they encode |
| `PipelineStore.WatermarkRoundTrip` | backend/gateway/src/pipeline.rs:222-253 | Every 64-bit watermark, negative ones included, survives storing and reading |
| `PipelineStore.RowsOfInsert` | backend/gateway/src/models/pipelines.rs:35-55 | A saved row is put into its user's log by sid and changes no other user's log |
| `PipelineStore.RowsOfAscending` | backend/gateway/src/models/pipelines.rs:15-33 | Each user's rows come in strictly ascending sid order |
| `PipelineStore.CleanupEveryUser` | backend/gateway/src/models/pipelines.rs:71-102 | A cleanup leaves every user the rows not created before the cutoff, and the listing names each user's largest deleted sid |
| `PipelineStore.CleanupLifts` | backend/gateway/src/pipeline.rs:307-323 | A user's watermark ends over the sid of every row of theirs created before the cutoff, and where it was or at one of those |
| `LogRules.CleanupKeeps` | backend/gateway/src/models/pipelines.rs:71-102 | A row is in a user's log after a cleanup exactly when the table held it for this user and it was created at or after the cutoff |
| `LogRules.WindowSizes` | backend/gateway/src/pipeline.rs:127-130 | A window is as large as asked for but at least 500; a negative count reads as 2^64 less |
| `LogRules.DataBytes` | backend/gateway/src/pipeline.rs:221-253 | The stored watermark is eight bytes, byte i being its two's complement divided by 256^i modulo 256 |
| `PipelineStore.Gateway.SavePacket` | backend/gateway/src/lib.rs:68-88 | Saving adds one row to every addressed user's log and no other; a duplicate key fails the whole insert |
| `PipelineStore.Gateway.PullPacket` | backend/gateway/src/pipeline.rs:92-215 | Every branch of a pull: first contact, expired, page; nothing is deleted |
| `PipelineStore.Gateway.UpdateWatermark` | backend/gateway/src/pipeline.rs:239-259 | The watermark becomes the larger of old and new, for this user only |
| `PipelineStore.Gateway.CleanupOnce` | backend/gateway/src/pipeline.rs:298-330 | Skips when the interval has not passed; otherwise deletes what is older than the TTL and raises every user's watermark to the largest sid deleted |
| `PipelineStore.Gateway.TakeExpired` | backend/gateway/src/pipeline.rs:308-312 | Lists the expired rows, then deletes exactly those |
| `PipelineStore.Gateway.RaiseAll` | backend/gateway/src/pipeline.rs:319-323 | Raises all listed watermarks; the order of the map does not matter |
| `PipelineRuns.CleanupTrims` | backend/gateway/src/pipeline.rs:307-323 | With creation times ascending, a cleanup cuts off the oldest rows and the watermark is the sid of the last one cut |
| `PipelineRuns.PullAdvances` | backend/gateway/src/pipeline.rs:127-204 | A page read at a good cursor moves it forward to a sid of the log, and its packets replay to what all rows passed over replay to |
| `Deliveries.PullCarriesRows` | backend/gateway/src/models/pipelines.rs:105-115 | The packets of a pull that are no entity pushes are, one to one and in order, the rows of the window that are none, each with the row's sid, command and body |
| `Deliveries.PullCarriesChanges` | backend/gateway/src/pipeline.rs:135-186 | Every change a pull sends is a change of a row of the window, of greatest version for its entity and first among equals; every entity changed there is sent; (type, id) strictly rises |
| `Deliveries.PullPlacesPushes` | backend/gateway/src/pipeline.rs:163-198 | Every push sent has the sid of the window's last push row, 1 to 2048 changes, exactly 2048 when another follows, and lies behind exactly the other packets of no larger rid |
| `Deliveries.PullAnswers` | backend/gateway/src/pipeline.rs:92-215 | Cursor 0: no packets, the newest sid or 0; below the watermark: the same and expired; else the last packet's rid, and more to come exactly when a full window of rows lies above the cursor |
| `PipelineRuns.RunSound` | backend/gateway/src/pipeline.rs:92-330 | In every run of appends, cleanups and pulls by any devices the table is the newest part of the log above the watermark and every device is exact |
| `PipelineRuns.DevicesHoldTheLog` | backend/gateway/src/pipeline.rs:92-330 | In every run each device holds exactly the first-maximal version of every entity and every other packet once and in order, over all rows ever appended between its start and its cursor |
| `Deliveries.DeviceHoldsRows` | backend/gateway/src/pipeline.rs:92-330 | In every run the other packets a device has are, one to one and in order, the rows with sid in (start, cursor] that are no entity pushes: sid, command and body |
| `Deliveries.DeviceHoldsBest` | backend/gateway/src/pipeline.rs:92-330 | In every run a device keeps, for exactly the entities changed in rows with sid in (start, cursor], version and operation of the earliest change of greatest version |
| `LogRules.AppendAdds` | backend/gateway/src/models/pipelines.rs:35-55 | An append puts one row with the given command and body at the end of log and table and changes nothing else |
| `LogRules.CleanupDeletes` | backend/gateway/src/pipeline.rs:298-330 | In a run a cleanup keeps exactly the rows created at or after the cutoff, lifts the watermark over the others and no higher, and leaves log and devices alone |
| `LogRules.PullMovesOne` | sdk/app-chat/src/pipeline.rs:44-86 | In a run a pull changes one device only: on first contact it jumps and keeps its data, expired it jumps and forgets it, else its start stays and its cursor does not go back |
| `PipelineRuns.ExpiredIffRowLost` | backend/gateway/src/pipeline.rs:115-125 | A device is told it expired exactly when some row above its cursor was deleted |
| `PipelineRuns.JumpCursorIsGood` | backend/gateway/src/pipeline.rs:104-125 | The cursor given to a fresh or expired device is 0 exactly when the table is empty, else the newest sid, which is not expired |
| `PipelineRuns.WatermarkRises` | backend/gateway/src/pipeline.rs:239-259 | No step of a run lowers the watermark |
| `PipelineRuns.PullLosslessIff` | backend/gateway/src/pipeline.rs:104-113 | An unexpired pull loses nothing it moves past exactly when it is not the jump of a first pull, or all rows jumped over are empty |
| `PipelineRuns.EmptyFirstPullSkipsRows` | backend/gateway/src/pipeline.rs:104-113 | A first pull on an empty table answers 0, so the next one jumps over a row appended meanwhile: a concrete run |
| `PipelineSync.StuckIffBarrenWindow` | backend/gateway/src/pipeline.rs:131-133 | A reply announces more without moving the cursor exactly when the window is full and holds only empty pushes; then asking again changes nothing |
| `PipelineSync.ProductiveNeverStalls` | backend/gateway/src/pipeline.rs:127-133 | Logs without empty pushes never stall, for any window size |
| `PipelineSync.PageConsumes` | backend/gateway/src/pipeline.rs:127-204 | Each page takes a non-empty prefix off what is left to read when it announces more, and replays to that prefix |
| `PipelineSync.SyncToEnd` | sdk/app-chat/src/pipeline.rs:44-86 | The client's loop ends; an unexpired device then holds the replay of every row above its cursor, for every window size, with its cursor at the newest sid when no empty push is stored; a fresh or expired one ends at the newest sid |
| `PipelineSync.EndsAtNewest` | sdk/app-chat/src/pipeline.rs:44-86 | Where every row carries something, a cursor that never passed the newest sid and has nothing left to read is that sid |
| `PipelineSync.PagesHoldTheUnread` | sdk/app-chat/src/pipeline.rs:44-86 | The windows behind the pages of one catching up hold, in order, exactly the changes that were unread |
| `PipelineSync.LateRowSeenIff` | backend/gateway/src/models/pipelines.rs:15-33 | A row saved below a device's cursor is never seen by it; it is seen exactly when its sid is above |
| `CalendarStore.LocalStore.HandleEntityChanged` | sdk/app-calendar/src/lib.rs:140-163 | The client's loop deletes or marks dirty one row per change and leaves other types alone |
| `CalendarReplay.ReplayLeaves` | sdk/app-calendar/src/lib.rs:144-161 | What a replay leaves of one entity depends only on the strongest change to it: delete over mark over nothing |
| `CalendarReplay.RowsLeftAndMarked` | sdk/app-calendar/src/lib.rs:140-163 | A calendar (type 21) or schedule (22) row stays exactly when no change of its id is a delete (3), and is dirty exactly when it was or some change is an update (2) |
| `CalendarReplay.FaithfulIff` | backend/gateway/src/pipeline.rs:148-155 | The merged list leaves every local store as the full list does exactly when no entity's kept change is weaker than another change to it |
| `CalendarReplay.CompressionIsFaithfulIff` | backend/gateway/src/pipeline.rs:135-198 | The same for whole pages built from stored rows |
| `CalendarReplay.SameOnEveryStoreIff` | sdk/app-calendar/src/lib.rs:140-163 | Two lists of changes do the same to every store exactly when their strongest change to every calendar and schedule is the same |
| `CalendarSync.SyncIsFaithfulIff` | sdk/app-chat/src/pipeline.rs:44-86 | Catching up page after page leaves every store as the unread rows one by one would, exactly when every change is matched by a kept change as strong in some page |
| `CalendarSync.WellVersionedSyncIsFaithful` | sdk/app-chat/src/pipeline.rs:44-86 | Where versions strictly increase over the unread rows and nothing follows a delete, catching up is faithful for any windows |
| `CalendarReplay.WellVersionedIsFaithful` | sdk/app-calendar/src/lib.rs:136-163 | It does so when versions strictly increase and nothing follows a delete |
| `CalendarReplay.TiedDeleteIsDropped` | backend/calendar/src/schedule.rs:347-358 | A removal announced with the version of the last edit is dropped by the merge and the client keeps the schedule |
| `Dates.NextMonthStart` | backend/calendar/src/cycled.rs:307-320 | Months follow one another without gap or overlap, leap years included; their lengths are those of CivilCalendar.MonthLength |
| `CivilCalendar.MonthLength` | backend/calendar/src/cycled.rs:307-320 | Every month has the length of the civil calendar's table, February one day more when the year divides by 4 and not by 100, or by 400 |
| `CivilCalendar.ValidIff` | backend/calendar/src/cycled.rs:307-320 | A date is valid exactly when its day is at most that literal length |
| `CivilCalendar.InstantIs` | backend/calendar/src/cycled.rs:269-277 | The instant of every valid date is 365 (y - 1), the leap days up to y - 1, the table's days before the month, one after a leap February, and day - 1 - 719162 days, times 86400000, plus the time of day |
| `CivilCalendar.DateIs` | backend/calendar/src/cycled.rs:269-277 | The date of an instant is the one valid date with that day count and time of day |
| `CivilCalendar.StepIs` | backend/calendar/src/cycled.rs:283-296 | A step of n months goes to year and month of y * 12 + m - 1 + n, with the day cut to the literal length, or nowhere past year 262142 |
| `CivilCalendar.DaySet` | backend/calendar/src/cycled.rs:344-351 | Setting the day takes the smaller of it and the literal length of the month |
| `Dates.EarlierMonth` | backend/calendar/src/cycled.rs:283-296 | A date in an earlier month is an earlier instant |
| `Dates.ToMsInjective` | backend/calendar/src/cycled.rs:269-277 | An instant names one date |
| `Dates.FromMsRoundTrip` | backend/calendar/src/cycled.rs:269-277 | Instant to date and back is the identity, and the date is valid |
| `Dates.ToMsRoundTrip` | backend/calendar/src/cycled.rs:269-277 | Date to instant and back is the identity from 1970 on |
| `Dates.AdvanceInRange` | backend/calendar/src/cycled.rs:283-296 | Inside the calendar a step of n months lands n months on, with the day cut to the month's length |
| `Dates.AdvanceMovesIff` | backend/calendar/src/cycled.rs:283-296 | A step makes progress exactly when its target month exists; otherwise it returns the same date, so a month loop would not end |
| `Dates.AdvanceOutOfRange` | backend/calendar/src/cycled.rs:292 | Past the calendar's end the date stays |
| `Dates.AdvanceComposesIff` | backend/calendar/src/cycled.rs:283-296 | Two steps equal one long step exactly when the month between does not cut the day further than the last one |
| `Dates.MonthsBetweenIs` | backend/calendar/src/cycled.rs:279-281 | The month difference, exact unless the month number falls: then the unsigned subtraction makes it 2^32 too large |
| `Dates.NthWeekdayIsNth` | backend/calendar/src/cycled.rs:325-342 | For weeks 0 to 3: same month, requested weekday, exactly that many earlier days of this weekday in the month |
| `Dates.LastWeekdayIff` | backend/calendar/src/cycled.rs:322-342 | Week 4 hits the requested weekday exactly when the month has five of them or its fourth is the last day of a 28-day February |
| `Dates.LastMondayMissed` | backend/calendar/src/cycled.rs:325-342 | January 1970: week 4 and Monday give Saturday the 31st, although the 26th is the last Monday |
| `Recurrence.GenByDay` | backend/calendar/src/cycled.rs:72-92 | The daily loop lists, in order, exactly the kept multiples of the interval before the end |
| `Recurrence.GenByWeek` | backend/calendar/src/cycled.rs:94-130 | The weekly loop lists exactly the kept days whose weekday is listed and whose week number is a multiple of the interval; PlainRules.WeeklyListsIff tells the weekdays as numbers from Sunday, 0 |
| `Recurrence.GenByMonth` | backend/calendar/src/cycled.rs:132-160 | The monthly loop lists the clipped day of exactly the visited months whose cursor is before the end; PlainRules.MonthlyListsIff tells the instants in the literal calendar |
| `Recurrence.GenByMonthWeek` | backend/calendar/src/cycled.rs:162-199 | The same with the nth weekday of the visited month |
| `Recurrence.GenByYear` | backend/calendar/src/cycled.rs:201-226 | The same with steps of twelve months |
| `Recurrence.MonthFastForward` | backend/calendar/src/cycled.rs:145-148 | Starting near the window skips only months before it, although the month difference may have wrapped |
| `Recurrence.YearFastForward` | backend/calendar/src/cycled.rs:213-215 | The same for years |
| `RecurrenceExact.MonthPicksSeries` | backend/calendar/src/cycled.rs:144-151 | Setting the day back undoes what short months cut off |
| `RecurrenceExact.YearPicksSeries` | backend/calendar/src/cycled.rs:212-225 | Outside 29 February a yearly step never cuts the day |
| `RecurrenceExact.ListedIsSeries` | backend/calendar/src/cycled.rs:132-226 | Everything a month loop lists is a kept date of base + k * interval before the end |
| `RecurrenceExact.SeriesIsListed` | backend/calendar/src/cycled.rs:132-226 | A kept date of the series in the window is listed exactly when the loop's own cursor of that month is before the end |
| `RuleExpansion.GenByRule` | backend/calendar/src/cycled.rs:13-70 | The entry point: error without a rule, nothing for an empty window or unknown kind, else the listing of its kind as instances of the template |
| `RuleExpansion.MonthlyExact` | backend/calendar/src/cycled.rs:132-160 | Fast-forwarded monthly expansion equals the naive scan for base days up to 28 |
| `RuleExpansion.YearlyExact` | backend/calendar/src/cycled.rs:201-226 | Fast-forwarded yearly expansion equals the naive scan for bases other than 29 February |
| `RuleExpansion.ExpansionIsExact` | backend/calendar/src/cycled.rs:13-226 | Daily, weekly, and those monthly and yearly rules: exactly the series' times in [max(start_at, start_time), end) that are not exceptions, increasing, once each |
| `RuleExpansion.ListingShape` | backend/calendar/src/cycled.rs:13-70 | For every kind of rule, odd base days included: the listing is increasing and holds exactly the times offered in a round whose guard is before the end and not filtered out |
| `PlainRules.DailyListsIff` | backend/calendar/src/cycled.rs:72-92 | Listed exactly: the later start plus a multiple of step days, from both starts on, before end_time + 120 days and a stop, not excepted |
| `PlainRules.WeeklyListsIff` | backend/calendar/src/cycled.rs:94-130 | Listed exactly: at the later start's time of day, on a weekday whose number counted from Sunday, 0, is in week_seqs, in a block of seven days from start_at whose number is a multiple of the step, in the same bounds |
| `PlainRules.MonthlyListsIff` | backend/calendar/src/cycled.rs:132-160 | For start days up to 28, listed exactly: the literal day count of that day k * step months on, for some k, in the same bounds |
| `PlainRules.YearlyListsIff` | backend/calendar/src/cycled.rs:201-226 | For starts other than 29 February, the same with k * step years |
| `PlainRules.NthListedIsRight` | backend/calendar/src/cycled.rs:162-199 | Everything an nth-weekday rule lists lies in the week and falls on the weekday that week_seqs name (without a weekday, on its start's), k * step months on, at the start's time of day |
| `PlainRules.RightNthIsListed` | backend/calendar/src/cycled.rs:162-199 | Every such day before the month of the window's end is listed, if both starts and the exceptions let it |
| `RuleExpansion.InstancesKeep` | backend/calendar/src/cycled.rs:228-267 | An instance has every column of its template but the two times, which lie as far apart, and the modify scope, 0 |
| `MonthLoops.LoopEndsIff` | backend/calendar/src/cycled.rs:283-296 | A month loop ends exactly when the last date it can visit inside the calendar is not before the window's end; otherwise it stands still for ever |
| `PlainRules.SupportedWhen` | backend/calendar/src/cycled.rs:13-70 | The results on whole rules cover every daily and weekly rule from 1970 on, and every month or year rule whose window ends one step before the calendar does |
| `MonthLoops.HugeStepNeverEnds` | backend/calendar/src/cycled.rs:283-296 | From 1 January 1970 in steps of 2147483647 months no later end is reached |
| `MonthLoops.VisitedDayIs` | backend/calendar/src/cycled.rs:144-159 | The day left after k steps is the smallest of the first day and the lengths of all months visited |
| `MonthLoops.LeapDayVisitedIff` | backend/calendar/src/cycled.rs:201-226 | A yearly rule of 29 February, fast-forward included, visits the date of one jump from its birth exactly when that year is common or every year visited before it was a leap year |
| `MonthLoops.LeapDayLost` | backend/calendar/src/cycled.rs:201-226 | Every year from 29 February 1972: the loop does not visit 29 February 1976 |
| `MonthLoops.MonthlyListedIff` | backend/calendar/src/cycled.rs:132-160 | Base days past the 28th: an admitted date of the clipped series is listed exactly when its month is before the end's or the smallest of the base day and the month lengths visited still lies before the end |
| `MonthLoops.MonthlyMissesMarch` | backend/calendar/src/cycled.rs:132-160 | Every second month from 31 January 1970, stopped on 30 March: 28 March is admitted and not listed |
| `RuleEdits.InstancesInWindow` | backend/calendar/src/cycled.rs:21-35 | Except for nth-weekday rules every instance starts inside the window, for any base day |
| `RuleEdits.ExpansionUnique` | backend/calendar/src/cycled.rs:13-70 | Two expansions of one schedule are the same list, for every kind of rule |
| `RuleEdits.ExceptionRemovesOne` | backend/calendar/src/schedule.rs:337-341 | An exception at t takes out exactly the instance that starts at t, for every kind of rule |
| `RuleEdits.StopAtCuts` | backend/calendar/src/schedule.rs:322-333 | Stopping a rule at t leaves exactly the old instances that start before t: daily, weekly, yearly of any base date, monthly up to the 28th |
| `RuleEdits.StopAtCutsClean` | backend/calendar/src/schedule.rs:322-333 | For every kind of rule it does exactly when in no admitted round the stop falls between the time offered and the time the guard compares |
| `RuleStops.StopAtCutsIff` | backend/calendar/src/schedule.rs:322-333 | On the calendar: always for daily, weekly and yearly rules; for monthly and nth-weekday ones exactly when the date visited in the stop's month, if admitted, and the one it offers lie on one side of the stop |
| `RuleEdits.UncleanInStopsMonth` | backend/calendar/src/cycled.rs:132-199 | Such a round visits a date in the stop's own month |
| `RuleStops.SplitOrders` | backend/calendar/src/schedule.rs:398-419 | After a "this and following" edit every new instance starts at the split or later; every old one before it exactly unless an nth-weekday rule visits a date in the split's month, before the window's end, that offers a time from the split on |
| `RuleStops.SplitSeparates` | backend/calendar/src/schedule.rs:398-419 | So for old rules of all other kinds every old instance comes before every new one |
| `RuleEdits.DailyPhaseIff` | backend/calendar/src/cycled.rs:83-91 | A daily rule counts from the window's start; this is counting from its own start exactly when the two are a whole number of intervals apart |
| `RuleEdits.WeekBlock` | backend/calendar/src/cycled.rs:115-129 | A full week in the window gets exactly one instance per listed weekday when its number is a multiple of the interval, and none otherwise |
| `RuleEdits.NthWeekdayOverrunsItsMonthOnly` | backend/calendar/src/cycled.rs:188-198 | An nth-weekday instance can lie past the end, but not in a later month |
| `RuleEdits.NthWeekdayOverruns` | backend/calendar/src/cycled.rs:188-198 | It does: every fourth Friday from 1 January 1970, stopped on the 10th, expands to the 23rd |
| `RuleQueries.PullByCalendarIds` | backend/calendar/src/schedule.rs:208-268 | The range query: own rows by member, other calendars' rows, then of each asked template its first instance in the range, if its id is new to the answer |
| `QueryRules.FoundIff` | backend/calendar/src/schedule.rs:208-240 | A row is found exactly when the user asks for the own calendar, is a member and the row overlaps the range, or another calendar asked for has it and it touches the range |
| `QueryRules.OffersIff` | backend/calendar/src/schedule.rs:241-262 | A rule offers its template's id exactly when it is in another calendar asked for, its template starts before the range ends and one of its instances starts in the range |
| `QueryRules.FoundByUser` | backend/calendar/src/schedule.rs:208-240 | Found through members: each row once, in the table's order |
| `QueryRules.FoundByCalendar` | backend/calendar/src/schedule.rs:208-240 | Found through calendars: each row once, in the table's order |
| `RuleQueries.RangeShowsIff` | backend/calendar/src/schedule.rs:241-262 | An id and a start are shown exactly when a found row is one, or no found row has the id and the start is the first one in the range of the first asked template with the id and an instance there |
| `RuleQueries.SecondDayIsHidden` | backend/calendar/src/schedule.rs:251-259 | Asked for the first two days of an every-day rule, the query shows the first and hides the second |
| `RuleQueries.PullBusy` | backend/calendar/src/schedule.rs:138-206 | The busy query: every member's found rows, and every instance in the range of every template of a calendar such a row belongs to |
| `RuleQueries.WithdrawnShownIff` | backend/calendar/src/models/cycleds.rs:119-153 | After a cut and an exception the range query shows what it showed before, cut and excepted times included, exactly under the condition of RangeShowsIff |
| `RuleQueries.WithdrawnDayIsShown` | backend/calendar/src/models/cycleds.rs:226-228 | A concrete one: the second day of an every-day rule, cut and excepted, is shown when that day is asked for |
| `RuleQueries.WithdrawnDayIsBusy` | backend/calendar/src/schedule.rs:171-202 | After a cut and an exception at a time of the template the busy query still reports it for every member; the second day of an every-day rule is such a time |
| `RefreshRange.HandlePushScheduleUpdate` | sdk/app-calendar/src/schedule.rs:130-161 | Distinct calendar ids, and the exact minimum and maximum of the pushed schedules widened by a day |
| `RefreshRange.RedrawnUntil` | sdk/app-calendar/src/schedule.rs:142-156 | A day behind the end of a plain schedule, 121 days behind the start of one with a rule |
| `RefreshRange.RangeCoversExpansion` | sdk/app-calendar/src/schedule.rs:142-156 | For schedules of at most a day the range holds every instance the server can generate |
| `RefreshRange.LongEventOutgrowsRangeIff` | sdk/app-calendar/src/schedule.rs:142-156 | A daily rule of any interval, stopped or not, has an instance behind its range exactly when the first time offered there is before the server's end; an every-day one exactly when it is longer than a day |
| `ChatLog.ChatContext.CmvAdd` | backend/im/src/models/mod.rs:82-113 | Adding tells "updated" exactly when the set of current members changed; the count stays right |
| `ChatLog.ChatContext.CmvRemove` | backend/im/src/models/mod.rs:115-132 | The same for removing; map entries stay |
| `ChatLog.ChatContext.RetainAdmins` | backend/im/src/chat.rs:452 | Keeps the admins that are not removed, in order |
| `ChatLog.ChatContext.UpdateLastMessage` | backend/im/src/chat.rs:184-240 | Gives the next position and badge, exactly when the status is 1, the sender's key is in the member map and the write succeeds; otherwise changes nothing |
| `ChatLog.ChatContext.AddChatters` | backend/im/src/chat.rs:332-377 | Refused exactly in a private chat, or when only managers add (mode 2) and the caller is neither owner nor admin; the new members, count and version |
| `ChatLog.ChatContext.DeleteChatters` | backend/im/src/chat.rs:429-476 | Refused exactly in a private chat or for a caller who is neither owner nor admin; the new members, admins, count and version |
| `ChatLog.ChatContext.ChatQuit` | backend/im/src/chat.rs:671-721 | The leaver goes, the owner is replaced, and the call panics exactly when there is no next owner |
| `ChatLog.ChatContext.ChatDismiss` | backend/im/src/chat.rs:744-765 | Refused exactly in a private chat or for a caller who is not the owner; the version is bumped before the write that may fail |
| `ChatLog.ChatContext.Join` | backend/im/src/invite.rs:123-141 | Joining by link or by an approved request: a known key is refused by the link, then membership, count and version as for an add |
| `ChatLog.ChatContext.ChatUpdate` | backend/im/src/chat.rs:543-620 | Managers change details and join mode, the owner also owner and admins, with no membership check; the version is bumped exactly when something changed |
| `ChatLog.AddAllMembers` | backend/im/src/models/mod.rs:82-113 | Adding a list makes exactly its ids members |
| `ChatLog.RemoveAllMembers` | backend/im/src/models/mod.rs:115-132 | Removing a list ends exactly their membership and keeps every key |
| `ChatRuns.Handle` | backend/im/src/chat.rs:184-766 | Each handler does the step the run lemmas are about |
| `ChatRights.DismissedIff` | backend/im/src/chat.rs:744-765 | After any run an open chat becomes deleted exactly by a dismissal whose write succeeds, by the owner of that moment, in a chat that is not private; any other dismissal by somebody else leaves the whole chat as it was |
| `ChatRights.UnheardChangesNothing` | backend/im/src/chat.rs:184-766 | A request by somebody who lacks the right, told as literal conditions on owner, admins, keys, type, mode and status, leaves the whole chat as it was |
| `ChatRights.MemberIff` | backend/im/src/models/mod.rs:82-132 | After any run and one more request, who is a member and who has a key: the listed ids of an add, a join, a removal or a quit that is heard, and nobody else |
| `ChatRights.OwnerAfter` | backend/im/src/chat.rs:543-721 | The owner changes by the owner's quit, to the first other admin or else the first member left, by any quit of an ownerless chat, and by the owner's wish |
| `ChatRights.AdminIff` | backend/im/src/chat.rs:429-721 | Who is an admin after one more request: a removal takes the listed ones if it removes anybody, a quit the quitter, the owner's wish adds and takes |
| `ChatRights.VersionAfter` | backend/im/src/chat.rs:322-330 | The version moves, to the clock or one up, exactly when a request that is heard changes something; the type never changes, the join mode by a wish only |
| `ChatRights.LogGrowsIff` | backend/im/src/chat.rs:184-240 | The log grows exactly by a send that finds status 1, the sender's key and a working database, and then by this message with the next position and badge |
| `ChatRights.PlacesStayOwn` | backend/im/src/models/mod.rs:82-113 | In every run every entry of the member map keeps a place of its own below their number |
| `ChatRuns.PositionsAreExact` | backend/im/src/chat.rs:204-236 | In every run positions are exactly 1..n, badge p counts the non-system messages among the first p, and every sender was in the member map |
| `ChatRuns.LogGrowsUntilDismissed` | backend/im/src/chat.rs:193-197 | The log only grows, and never again after dismissal |
| `ChatRuns.VersionTellsTheRoster` | backend/im/src/chat.rs:322-330 | Without a panicking quit the version never falls, and equal versions mean equal members, status, owner, admins and join mode |
| `ChatRuns.QuitPanicsIff` | backend/im/src/chat.rs:686-710 | A quit panics exactly when nobody else is a member and the owner is 0, or is the quitter with no other admin; members then change under the old version |
| `ChatRuns.MembersByHistory` | backend/im/src/models/mod.rs:82-132 | Who is a member follows from the last accepted change naming them; who has a key, from ever having been added |
| `ChatRuns.NonMemberWritesIff` | backend/im/src/chat.rs:198-202 | A message of somebody who is not a member is accepted exactly when they were added once and removed since |
| `ChatRuns.RemovedMemberCanWrite` | backend/im/src/models/mod.rs:78-80 | A concrete run in which a removed member's message gets position 1 |
| `ChatRuns.LedUnlessBroken` | backend/im/src/chat.rs:429-721 | Owner and admins stay members in a step exactly unless the owner is among the ids removed, the only member quits, or the owner names an owner or admin who is no member |
| `ChatRuns.LedThroughoutIff` | backend/im/src/chat.rs:429-721 | Along a run they are members at every moment exactly when no step is one of those three |
| `ChatRuns.RemovedOwnerDismisses` | backend/im/src/chat.rs:445-458 | A concrete run: an admin removes the owner, who then dismisses the chat |
| `Unread.FeedStore.MergeMessages` | frontend/src/stores/im.ts:522-562 | The counter pass over a batch of messages |
| `Unread.FeedStore.MergeFeedReadStatus` | frontend/src/stores/im.ts:927-939 | A read position only moves forward |
| `Unread.FeedTable.UpdateByNewMessage` | backend/im/src/models/feeds.rs:413-440 | Every listed member's newest position is overwritten, whatever it was |
| `Unread.FeedTable.UpdateReadPos` | backend/im/src/models/feeds.rs:345-409 | Taken as one step: only moves forward, and what is pushed is what was stored |
| `FeedRules.MessageMoves` | frontend/src/stores/im.ts:526-562 | For any numbers: a message moves the newest position forward only, an own one the read position too, with its count cut at the newest one's |
| `FeedRules.ReadStatusMoves` | frontend/src/stores/im.ts:927-939 | For any numbers: a read position moves forward only, with the count that comes with it |
| `FeedRules.RowMoves` | backend/im/src/models/feeds.rs:345-440 | The server's row takes every message, a read position forward only, with the newest message's count or the reported one between 0 and that |
| `FeedRules.ServerMoves` | backend/im/src/models/feeds.rs:345-440 | Which messages can be announced and positions reported, the row after each, and that what is pushed is what was stored |
| `ReadRaces.AloneIsAtomic` | backend/im/src/models/feeds.rs:357-395 | With nothing between its two statements a report is the guarded update |
| `ReadRaces.ReportGoesBackIff` | backend/im/src/models/feeds.rs:357-395 | In any interleaving of reports and messages a report moves the read position back exactly when the last other report to write since its look-up wrote a larger one |
| `ReadRaces.SmallerReportStays` | backend/im/src/models/feeds.rs:357-395 | A concrete run: 1 and 2 reported at once, and 1 stays |
| `Unread.DeliveriesSettle` | frontend/src/stores/im.ts:526-562 | Any order and any repetition of deliveries leaves the counters of the highest position delivered and the highest position read |
| `Unread.DevicesAgree` | frontend/src/stores/im.ts:520-562 | Two devices told the same news, a message as sent or as recalled, in any order and number, agree on all counters |
| `Unread.PushedAgainMovesNothing` | backend/im/src/message.rs:838-846 | A recall or deletion pushed after the message leaves all counters alone |
| `Unread.CountsUnread` | backend/im/src/chat.rs:205-210 | The difference of two badges is the number of non-system messages between the positions |
| `Unread.BadgeCountsUnread` | frontend/src/stores/im.ts:526-562 | After any run of the chat and any deliveries the badge shown is the number of non-system messages in (readPos, referPos], and no position goes back |
| `Unread.PushTruthfulIff` | backend/im/src/models/feeds.rs:371-382 | A pushed read position carries the right badge exactly when the row has caught up with it or only system messages lie between |
| `Unread.InOrderRowsGiveTrueBadges` | backend/im/src/models/feeds.rs:345-440 | If row updates come in position order, every device that gets any part of what was sent, in any order, shows the true number |
| `Unread.SwappedRowsLeaveAnUnread` | backend/im/src/models/feeds.rs:413-440 | Two row updates swapped: everything is read and every device shows one unread message |
| `MessageStore.CacheIsNewest` | frontend/src/stores/im.ts:755-776 | The cache holds a newest read state among all it had and was told; versions never fall |
| `MessageStore.AppliedTwice` | frontend/src/stores/im.ts:446-449 | Applying one payload a second time changes nothing |
| `MessageStore.SortKeeps` | frontend/src/stores/im.ts:517 | Sorting by position keeps the rows and orders them |
| `MessageStore.PlaceRow` | frontend/src/stores/im.ts:511-518 | Replaces the row with this id or adds one; one row per id, sorted, all other rows as before |
| `MessageStore.Client.ApplyReadStateMap` | frontend/src/stores/im.ts:755-776 | The guarded loop over read states |
| `MessageStore.Client.MergeEntity` | frontend/src/stores/im.ts:440-596 | After a merge every list is sorted with one row per id, each row carries exactly the cached read state, delivered rows are the last delivered ones and the others stay |
| `MessageStore.RowsAfterMerge` | frontend/src/stores/im.ts:495-596 | After a merge an id shows the fields of the last message brought for it that is not the announcement of its chat (type 16, id equal to the chat's), else its old row, with the cached read state |
| `MessageStore.SortIsStable` | frontend/src/stores/im.ts:517 | Rows at one position keep their order |
| `MessageAgreement.CacheIsLastNewest` | frontend/src/stores/im.ts:755-776 | The read state held for an id is the last one of greatest version among all the client had and was told |
| `MessageAgreement.CachesAgreeIff` | frontend/src/stores/im.ts:755-776 | Two clients hold the same read state for an id exactly when the last one of greatest version they were told is the same |
| `MessageAgreement.RowsAgreeIff` | frontend/src/stores/im.ts:455-518 | Two clients show the same row exactly when the last message brought for it has the same position, status and body, and the read states agree |
| `MessageAgreement.MergedTwice` | frontend/src/stores/im.ts:440-596 | Two merges one after the other are one merge of everything they brought |
| `MessageAgreement.ClientsConvergeIff` | frontend/src/stores/im.ts:440-596 | Whatever two clients began with and in however many merges: they end with the same read states and rows exactly when nothing told or brought last differs |
| `MessageAgreement.ListsAgreeIff` | frontend/src/stores/im.ts:511-518 | Where positions differ the list of a chat is the same exactly when its rows are |
| `MessageAgreement.LateOriginalUndoesRecall` | backend/im/src/message.rs:819-851 | The original and its recall merged the other way round: the client shows the message as if it had never been recalled |
| `MessageAgreement.LaterOfOneVersionStays` | backend/im/src/message.rs:304-321 | The full and the trimmed read state of one version merged in both orders: the clients end alike exactly when there was nothing to trim |
| `Scheduler.SchedulerService.ScheduleMessage` | backend/im/src/scheduler.rs:14-52 | Only future times are accepted |
| `Scheduler.SchedulerService.CancelSchedule` | backend/im/src/scheduler.rs:55-79 | Succeeds exactly on a row of the caller with status 0 |
| `Scheduler.SchedulerService.SendOne` | backend/im/src/scheduler.rs:190-235 | One message of the batch: marked sent on every answer without error, whatever the status has become |
| `Scheduler.SchedulerService.RunOnce` | backend/im/src/scheduler.rs:172-235 | One round of the worker is its poll followed by its sends |
| `ScheduleRules.UsersChange` | backend/im/src/scheduler.rs:14-79 | Scheduling adds a pending row exactly when its time lies ahead; cancelling turns status 0 into 2 exactly on an own row; nothing else changes |
| `ScheduleRules.PollTakesIff` | backend/im/src/scheduler.rs:161-189 | A poll takes up to 100 different pending rows that are due, earliest first, leaving none out that should go before |
| `ScheduleRules.SendMarksIff` | backend/im/src/scheduler.rs:190-235 | Status 1 is written exactly when sending reported no error and the write succeeded, whatever the status was |
| `Scheduler.WorkerIsSound` | backend/im/src/scheduler.rs:161-237 | In every run nothing is attempted before its time, earlier attempts of a repeated one were not marked, and a row says sent only after a marked attempt |
| `Scheduler.SentAtMostOnce` | backend/im/src/scheduler.rs:220-234 | At most once, if every attempt that gave the message a position was marked |
| `Scheduler.ResentIff` | backend/im/src/scheduler.rs:161-237 | A message sent once can be sent again exactly when its row is still pending or the worker still holds it, whatever else is pending |
| `Scheduler.UnmarkedIsSentAgain` | backend/im/src/scheduler.rs:220-234 | Concretely: an error after the position, or a lost status write, and the next poll put it into the chat twice |
| `Scheduler.CancelHonouredIff` | backend/im/src/scheduler.rs:63-75 | A successful cancel keeps the message from ever being sent exactly when the worker did not hold it in its batch already |
| `ScheduledSend.MessageSend` | backend/im/src/message.rs:405-540 | The send path: the refusals it answers with success, the errors before and after a position is given, and the chat it leaves |
| `ScheduleRules.SendComesTo` | backend/im/src/message.rs:405-540 | Refused exactly: closed chat, unknown key, or in a group (type 2) a muted plain member, or a barred mention of all; failed exactly on errors of the same checks or of the later ones |
| `ScheduledSend.SentWithoutMessageIff` | backend/im/src/scheduler.rs:220-230 | A row says sent without a new message in the log exactly when the write succeeded and the chat refused: not open, never added, muted, or mentioning everybody where that is barred |
| `ScheduledSend.DismissedChatSwallows` | backend/im/src/scheduler.rs:220-230 | A message scheduled for a chat dismissed meanwhile is marked sent and never appears |
| `Signaling.Signaler.EnterRoom` | backend/rtc/src/signaling.rs:135-165 | The room half of a join: full exactly from four members on, then already in, then not registered, else admitted; a refused join still creates the room |
| `Signaling.Signaler.QuitRoom` | backend/rtc/src/signaling.rs:201-226 | The room half of a leave: removal, host change, empty room dropped |
| `RoomRules.JoinAdmitsIff` | backend/rtc/src/signaling.rs:135-165 | A registered peer that is not in the room is in it after its join exactly when fewer than four were, and then the members are the old ones and the peer; host, other rooms, peers and connections are told too |
| `RoomRules.LeaveDeparts` | backend/rtc/src/signaling.rs:201-226 | A leave takes out this peer only, drops the room exactly when nobody else is in it, and hands it on exactly when the peer was host |
| `RoomRules.CloseQuitDeparts` | backend/rtc/src/signaling.rs:468-487 | The same for the room a closing connection leaves |
| `RoomRules.NotesRoom` | backend/rtc/src/signaling.rs:166-233 | What is noted of a registered peer after a join or a leave, and of nobody else |
| `RoomRules.Closes` | backend/rtc/src/signaling.rs:468-494 | A closing connection looks for a room twice and is gone at the end with its peer |
| `Signaling.Perform` | backend/rtc/src/signaling.rs:84-494 | Each critical section of a connection, done on the two tables, is the step that the interleavings are made of |
| `Signaling.RoomsStaySound` | backend/rtc/src/signaling.rs:135-233 | In every interleaving, even with shared peer ids, a room has at most four peers and a non-empty one has its host among them |
| `Signaling.OthersUntouched` | backend/rtc/src/signaling.rs:126-240 | A critical section of one peer leaves every other peer's memberships and note alone |
| `Signaling.NotedRoomsAreReal` | backend/rtc/src/signaling.rs:166-233 | With one connection per peer id, a peer not in the middle of leaving is a member of the room it is noted in, and no room is empty |
| `Signaling.LosesTrackIff` | backend/rtc/src/signaling.rs:84-240 | A step makes a connection lose track of a membership exactly when it announces again while in a room, enters a second room or leaves some other room |
| `Signaling.NoGhostsWithoutCarelessness` | backend/rtc/src/signaling.rs:84-494 | In every interleaving without those three, everyone in a room is connected |
| `Signaling.CloseLeavesNoGhostIff` | backend/rtc/src/signaling.rs:468-487 | Whatever others do meanwhile, a closing peer ends in no room exactly when it was in no room but the noted one |
| `Signaling.SecondRoomLeavesAGhost` | backend/rtc/src/signaling.rs:126-172 | Joining a second room and closing: the first room keeps the peer |
| `IdGen.IdSource.Next` | backend/common/src/lib.rs:124-164 | The id packs cluster, seconds and the caller's counter; the counter moves by one or two |
| `IdGen.PackEqualIff` | backend/common/src/lib.rs:161-163 | Two packed ids are equal exactly when all three truncated fields are |
| `IdGen.FieldsReadBack` | backend/common/src/lib.rs:161-163 | An id read as unsigned: 12 bits of cluster, 32 bits of seconds since 1736553600, 20 bits of counter |
| `IdGen.NumberTaken` | backend/common/src/lib.rs:142-160 | The number used lies behind the counter found, within the width it is moved: even for users, odd for bots |
| `IdGen.NumbersRise` | backend/common/src/lib.rs:142-160 | Concurrent calls use strictly rising counters, at most two apart per call |
| `IdGen.IdsEqualIff` | backend/common/src/lib.rs:124-164 | Two ids of a cluster are equal exactly when they share the second and their counters differ by a (non-zero) multiple of 2^20; never within 2^19 calls |
| `IdGen.IdsOrdered` | backend/common/src/lib.rs:144-163 | Bot ids odd, user ids even; a later second gives a greater id; non-negative exactly below cluster 2048 |
| `IdGen.CallOrderIff` | backend/common/src/lib.rs:124-164 | Within a second ids follow the order of calls exactly while the counter passes no multiple of 2^20 |
| `IdGen.RidSource.NextRid` | backend/common/src/lib.rs:106-118 | One request on its own packs second and counter; the counter goes on by one, or back to 1 past the limit |
| `IdGen.CounterIs` | backend/common/src/lib.rs:113-116 | In any interleaving of fetches and resets the counter is the last reset value plus the fetches since |
| `IdGen.TakeSameIff` | backend/common/src/lib.rs:113-116 | Two fetches take the same number exactly when they lie equally far behind their own last resets; a reset then lies between them |
| `IdGen.RequestIdsEqualIff` | backend/common/src/lib.rs:106-118 | Two request ids are equal exactly when they share the second and those distances agree up to 2^20 |
| `IdGen.OneByOneIs` | backend/common/src/lib.rs:113-116 | Calls that do not overlap are one of those interleavings and take the numbers of RidRepeatsIff |
| `IdGen.RidRepeatsIff` | backend/common/src/lib.rs:106-118 | Non-overlapping calls repeat a number exactly every 1000001 calls; the 0 of a fresh process never comes back |
| `IdGen.OverlappingResetsRepeat` | backend/common/src/lib.rs:113-116 | A concrete run in which two callers pass the limit together, both reset, and two nearby calls take the number 1 |

## Left out

- Databases, protobuf, HTTP, WebSocket and tokens: tables are maps and sequences, a stored body is
  either decoded changes or bytes, clocks and write results are parameters.
- The gap between reading the watermark and reading rows in one pull, when a cleanup commits in
  between: the two reads are one step here.
- The client keeps its cursor only after the whole loop (sdk/app-chat/src/pipeline.rs:88-92); a
  crash inside the loop, which replays pages again, is not modelled.
- Read bitmaps (`VecBool`), read counts and reactions of messages; a message merged again without
  its reactions loses them, which the model does not show.
- Server-side feed snapshots that overwrite a client's row, optimistic local messages, previews,
  announcements' text, typing and presence.
- Where muting and `@all` permissions come from: `ScheduledSend` takes what the two lookups answer;
  thread counters are left out.
- The `expand_end` column, which the range query moves on and a worker reads, and the storing of
  instances under their template's id.
- Positions and badges are unbounded integers; the 32-bit casts of the source are not modelled.
- RuleExpansion.GenByRule: a rule whose start_at lies before 1970 (where the source turns any instant
  between two seconds into 1970-01-01) is not modelled; the loops themselves take dates from year 0 on.
- The panic of day steps past the calendar's end.
- Unread.FeedTable.UpdateReadPos: one step, where the source has two; see `ReadRaces.ReportGoesBackIff`.
- Edits of a rule are modelled on the rule and its stored row; the instance rows that the edits
  delete or rewrite, and their ids, are not.
- Forwarding of offers, answers and candidates, and the messages a join or leave broadcasts.
- Starvation of the scheduler behind a hundred rows that keep failing.
- The 64-bit wrap-around of the id counter, and the clock lock that does not influence ids.
- Unread.PushTruthfulIff: a device that reads a message from the store before its row was updated
  reports earlier than the model allows.
- ChatLog.ChatContext.ChatQuit: which member comes first in the hash map is a parameter.
- Signaling.Signaler.QuitRoom: which peer comes first in the hash map is a parameter.
- Office documents, search, translation, speech, thumbnails, markets, migrations and the native
  shells: wrappers or configuration.
