# SuppleTrack reminder, adherence and calendar logic in Dafny

SuppleTrack is an Android app for tracking supplement and medication intake.
This project models the logic under its user interface, in two revisions.

**The single-activity revision** (`MainActivity.kt`) has these parts:

- **Reminder state machine.** One pass registers an exact alarm for every (dose, time) slot that is still due today. When notifications are switched off, a branch cancels those alarms. The missed-dose receiver shows a notification when an alarm fires and the slot is not yet taken. The "Taken" receiver writes the `taken_{id}_{HH:mm}_{date}` flag and removes the notification.
- **Adherence log of every dose.** The log is synced at start-up from those flags and updated by the UI broadcast after "Taken". Logging an intake, the checklist's checkbox, and add, edit and delete also change it.
- **Calendar screen.** It shows the adherence percentage and the status colour of each day cell. It also builds the week view and the padded month grid.

**The database-backed revision** has these parts:

- The `intakes` table, as a map from autogenerated key to row.
- The checklist view model: toggle, as-needed (PRN) intake, and today's window.
- The idempotent "mark taken" receiver.
- The calendar view model's month window and grouping by day.
- The calendar screen's grid of weeks and its day colours.

The Android services are plain values. The shared preferences are a map from key to flag. The alarm manager is a map from request code to alarm. The notification manager is the set of ids shown. Objects whose fields the app updates in place are classes:

- `Reminders.Device` holds the services.
- `DoseLedger.DoseList` holds the dose list.
- `DoseLedger.Checklist` holds the checklist's local copy.
- `IntakeRecords.IntakeDb` holds the table.
- `IntakeRecords.ChecklistViewModel` and `IntakeCalendar.CalendarViewModel` are the two view models.

Each method is proved to act as a pure function of the old state, and the properties are proved as lemmas about those functions.

Clock values are inputs:

- Dates are epoch days. The day of the week is derived from the epoch day.
- The current wall-clock time, today's date, the zone's offset and a month's length and first day are parameters.
- Instants compared with the scheduler's slot times are local wall-clock milliseconds.

Files:

- `wrappers.dfy`: `Option`.
- `decimal.dfy`: `Int.toString`, `String.toInt` and `replace(":", "")`.
- `clock.dfy`: dates, times, the `HH:mm` format and day windows.
- `doses.dfy`: the dose records.
- `slot_keys.dfy`: request codes, notification ids and preference keys.
- `reminders.dfy`: the reminder state machine.
- `dose_list.dfy`: the adherence log and the checklist.
- `calendar_stats.dfy`: adherence and the calendar of the single-activity revision.
- `intake_records.dfy`: the intake table and its receivers and view model.
- `intake_calendar.dfy`: the database-backed calendar.

## Model

| member | source | states |
|---|---|---|
| Clock.FormatHHmm | app/src/main/java/com/efvs/suppletrack/MainActivity.kt:1294 | The `HH:mm` text is five characters with a colon in the middle. |
| Clock.ParseHHmm | app/src/main/java/com/efvs/suppletrack/MainActivity.kt:336 | A parsed time has no seconds and no nanoseconds and comes from five characters with a colon in the middle. "24:00" resolves to midnight. Malformed text gives `None` instead of an exception. |
| Clock.ParseFormatHHmm | app/src/main/java/com/efvs/suppletrack/MainActivity.kt:1309 | Parsing the formatted text of a time gives that time back, truncated to the minute. |
| Clock.FormatParseHHmm | app/src/main/java/com/efvs/suppletrack/MainActivity.kt:336 | Any text that parses is exactly the formatted text of the time it parses to, except "24:00", which formats back as "00:00". |
| Clock.DayOfWeekValue | app/src/main/java/com/efvs/suppletrack/MainActivity.kt:842 | The ISO day of the week lies in 1..7. |
| Clock.DayOfWeekAdvances | app/src/main/java/com/efvs/suppletrack/MainActivity.kt:845 | Moving k days forward moves the day of the week k steps round the week. |
| Clock.SlotInstant | app/src/main/java/com/efvs/suppletrack/MainActivity.kt:1296-1304 | A slot's instant lies within its day. |
| Clock.TruncDiv | ui/calendar/IntakeCalendarViewModel.kt:31 | Kotlin's `Long` division truncates toward zero, for negative operands as well. |
| Clock.WindowBetween | ui/calendar/IntakeCalendarViewModel.kt:25-26 | A window ending one millisecond before the next start holds exactly the instants from start up to, not including, the next start. |
| Clock.DaysWindowIsLocalDays | ui/intake/IntakeChecklistViewModel.kt:39-40 | The window from the start of one day to the start of a later one holds exactly the instants whose local date is one of those days. |
| Decimal.ParseInt32 | app/src/main/java/com/efvs/suppletrack/MainActivity.kt:1375 | `toInt()` succeeds exactly on an optional sign followed by at least one digit whose signed value lies in the 32-bit range. Its result is that signed value. |
| Decimal.ToTextRoundTrip | app/src/main/java/com/efvs/suppletrack/MainActivity.kt:1375 | `toInt()` of `toString()` gives back every 32-bit value. |
| Decimal.ToTextInjective | app/src/main/java/com/efvs/suppletrack/MainActivity.kt:1375 | Distinct integers have distinct decimal texts. |
| Decimal.DigitsValueAppend | app/src/main/java/com/efvs/suppletrack/MainActivity.kt:1375 | Concatenating digit strings shifts the first left by the second's length. |
| Decimal.RemoveColons | app/src/main/java/com/efvs/suppletrack/MainActivity.kt:1358 | `replace(":", "")` leaves no colon and never lengthens the text. |
| SlotKeys.Wrap32 | app/src/main/java/com/efvs/suppletrack/MainActivity.kt:1314 | 32-bit wrap-around keeps values in `Int` range and leaves in-range values alone. |
| SlotKeys.RequestCode | app/src/main/java/com/efvs/suppletrack/MainActivity.kt:1314 | For ids 0..214748 the request code is `id*10000 + hour*100 + minute` with no overflow. |
| SlotKeys.RequestCodeInjective | app/src/main/java/com/efvs/suppletrack/MainActivity.kt:316 | For such ids, equal request codes mean equal dose id, hour and minute. The same function registers (line 1314) and cancels (line 316). |
| SlotKeys.NotificationIdIsRequestCode | app/src/main/java/com/efvs/suppletrack/MainActivity.kt:1375 | The notification id `(id ++ "HHmm").toInt()` parses and equals the request code for every safe id. |
| SlotKeys.HHmmDigits | app/src/main/java/com/efvs/suppletrack/MainActivity.kt:1375 | Dropping the colon from `HH:mm` leaves four digits worth `hour*100 + minute`. |
| SlotKeys.TakenKeyTextInjective | app/src/main/java/com/efvs/suppletrack/MainActivity.kt:1294 | Two `taken_{id}_{HH:mm}_{date}` keys are equal only when id, time text and date text are. So the key triple the model uses loses nothing. |
| Doses.TakenCountAt | app/src/main/java/com/efvs/suppletrack/MainActivity.kt:296 | The number of taken entries for a date and time is 0 exactly when `none { … }` holds. |
| Doses.TakenCountAppend | app/src/main/java/com/efvs/suppletrack/MainActivity.kt:297 | Appending one entry raises the count by one exactly when that entry records the slot as taken. |
| Reminders.SlotsOf | app/src/main/java/com/efvs/suppletrack/MainActivity.kt:1293 | The slots of a dose are its times, in order, under its id and name. |
| Reminders.RegisterAllUntouched | app/src/main/java/com/efvs/suppletrack/MainActivity.kt:1292-1335 | A code that no landing slot maps to keeps exactly what the alarm manager held. The pass never cancels. |
| Reminders.RegisterAllLands | app/src/main/java/com/efvs/suppletrack/MainActivity.kt:1312-1327 | A landing slot that no later landing slot shares a code with ends with its own alarm, at its time and with its extras. |
| Reminders.RegisterAllFuture | app/src/main/java/com/efvs/suppletrack/MainActivity.kt:1305 | Every alarm the pass writes is for an instant not before now. |
| Reminders.DistinctSlotsHaveDistinctCodes | app/src/main/java/com/efvs/suppletrack/MainActivity.kt:1314 | Slots of safe and distinct (id, hour, minute) have distinct request codes. |
| Reminders.ScheduleRegistersExactlyLanding | app/src/main/java/com/efvs/suppletrack/MainActivity.kt:1292-1335 | A slot gets an alarm iff all of these hold: its instant today is not before now, exact alarms are allowed, its key is not taken, and the alarm manager does not refuse it. A refusal on one slot does not stop the others. |
| Reminders.DisableCancelsListedSlots | app/src/main/java/com/efvs/suppletrack/MainActivity.kt:306-325 | With notifications off, no alarm remains under any slot code of the current doses, every other alarm is unchanged, the flags are unchanged and no notification is shown. |
| Reminders.SlotReminderId | app/src/main/java/com/efvs/suppletrack/MainActivity.kt:1306-1311 | The extras the scheduler attaches yield a reminder id that parses and equals the alarm's request code. |
| Reminders.MissedDoseShowsIffUntaken | app/src/main/java/com/efvs/suppletrack/MainActivity.kt:1340-1380 | The missed-dose receiver shows the slot's notification iff the slot's key is not taken. Nothing else changes. |
| Reminders.DoseTakenMarksSlot | app/src/main/java/com/efvs/suppletrack/MainActivity.kt:1383-1391 | "Taken" sets the key that the scheduler and the missed-dose receiver read. It removes exactly the slot's notification and leaves the alarms alone. |
| Reminders.DoseTakenIdempotent | app/src/main/java/com/efvs/suppletrack/MainActivity.kt:1389-1391 | Applying "Taken" twice equals applying it once. |
| Reminders.NoReminderAfterTaken | app/src/main/java/com/efvs/suppletrack/MainActivity.kt:1347-1350 | After "Taken", a delivery of the same key shows nothing. |
| Reminders.NoAlarmAfterTaken | app/src/main/java/com/efvs/suppletrack/MainActivity.kt:1294-1322 | After "Taken" for a slot today, the next pass neither adds nor replaces the alarm under its code. |
| Reminders.FireScheduledAlarm | app/src/main/java/com/efvs/suppletrack/MainActivity.kt:1340-1350 | A registered alarm is consumed when it fires. It shows the slot's notification iff the slot is still not taken. |
| Reminders.StaleAlarmAfterDelete | app/src/main/java/com/efvs/suppletrack/MainActivity.kt:386 | Deleting a one-time dose and rescheduling leaves the dose's alarm in place, and firing it shows a reminder for the deleted dose. |
| Reminders.StaleAlarmExample | app/src/main/java/com/efvs/suppletrack/MainActivity.kt:386 | Concrete case: dose 7 at 08:00 on day 20000, deleted, still fires under code 70800. |
| Reminders.CancelDoseSilencesDose | app/src/main/java/com/efvs/suppletrack/MainActivity.kt:312-321 | Cancelling a dose's codes leaves no alarm under any of them, so firing one changes nothing. Every other alarm is unchanged. |
| Reminders.Device.ScheduleMissedDoseNotifications | app/src/main/java/com/efvs/suppletrack/MainActivity.kt:1288-1337 | The nested loops leave the platform in exactly the state `Schedule` describes. |
| Reminders.Device.ScheduleSlot | app/src/main/java/com/efvs/suppletrack/MainActivity.kt:1294-1334 | One inner-loop step registers the slot iff it lands. Flags and notifications are untouched. |
| Reminders.Device.CancelAllReminders | app/src/main/java/com/efvs/suppletrack/MainActivity.kt:311-323 | The disable loops end in the state `Disable` describes. |
| Reminders.Device.CancelDoseReminders | app/src/main/java/com/efvs/suppletrack/MainActivity.kt:313-321 | The inner loop removes exactly the dose's slot codes. |
| Reminders.Device.CancelSlot | app/src/main/java/com/efvs/suppletrack/MainActivity.kt:314-320 | `FLAG_NO_CREATE` then `cancel` removes the code's alarm if one is registered. |
| Reminders.Device.Reschedule | app/src/main/java/com/efvs/suppletrack/MainActivity.kt:306-325 | The effect schedules when notifications are on and disables otherwise. |
| Reminders.Device.OnMissedDose | app/src/main/java/com/efvs/suppletrack/MainActivity.kt:1341-1380 | The receiver acts as `MissedDose`. |
| Reminders.Device.OnDoseTaken | app/src/main/java/com/efvs/suppletrack/MainActivity.kt:1384-1391 | The receiver acts as `DoseTaken`. |
| Reminders.Device.DeliverAlarm | app/src/main/java/com/efvs/suppletrack/MainActivity.kt:1323-1327 | Firing a registered alarm consumes it and runs the missed-dose receiver on its extras. |
| DoseLedger.SyncTimesAppendsOnly | app/src/main/java/com/efvs/suppletrack/MainActivity.kt:292-301 | The start-up sync only appends, at most one entry per time, each recording one of the dose's times as taken today. |
| DoseLedger.SyncTimesCount | app/src/main/java/com/efvs/suppletrack/MainActivity.kt:294-298 | After the sync a slot has exactly one taken entry if its flag is set and it had none. Every other count is unchanged. |
| DoseLedger.SyncTimesNothingToDo | app/src/main/java/com/efvs/suppletrack/MainActivity.kt:295-296 | A sync where every set flag already has its entry changes nothing. |
| DoseLedger.SyncIdempotent | app/src/main/java/com/efvs/suppletrack/MainActivity.kt:292-301 | Running the sync twice equals running it once. |
| DoseLedger.FirstIndexOf | app/src/main/java/com/efvs/suppletrack/MainActivity.kt:333 | `indexOfFirst` returns the first dose with the id, and `None` iff there is none. |
| DoseLedger.UiTakenLogsSlot | app/src/main/java/com/efvs/suppletrack/MainActivity.kt:333-341 | The UI broadcast for a slot leaves it with exactly one taken entry for today, on the first dose with that id. Nothing else changes. |
| DoseLedger.UiTakenUnknownIgnored | app/src/main/java/com/efvs/suppletrack/MainActivity.kt:333-337 | An unknown dose id or a missing time changes no log. |
| DoseLedger.UiTakenIdempotent | app/src/main/java/com/efvs/suppletrack/MainActivity.kt:337-338 | Delivering the same broadcast twice equals delivering it once. |
| DoseLedger.SyncAfterUiTakenAddsNothing | app/src/main/java/com/efvs/suppletrack/MainActivity.kt:296 | After the UI broadcast for a slot, the sync adds no second entry for it. |
| DoseLedger.LogIntake | app/src/main/java/com/efvs/suppletrack/MainActivity.kt:375-379 | Logging appends one entry to one dose; it becomes the last entry of its date. Every other dose is unchanged. |
| DoseLedger.EditAsWrittenLosesHistory | app/src/main/java/com/efvs/suppletrack/MainActivity.kt:676-685 | A dose taken once and then renamed in the dialog has no taken entry left. |
| DoseLedger.Edit | app/src/main/java/com/efvs/suppletrack/MainActivity.kt:385 | Editing keeps the dose's id and log and replaces its form fields. Every other dose is unchanged. |
| DoseLedger.Delete | app/src/main/java/com/efvs/suppletrack/MainActivity.kt:386 | Deleting removes exactly the entry at the index and keeps the order of the rest. |
| DoseLedger.LastOn | app/src/main/java/com/efvs/suppletrack/MainActivity.kt:445 | `findLast` returns an entry of that date from the log, and `None` iff there is none. |
| DoseLedger.LastOnIsLast | app/src/main/java/com/efvs/suppletrack/MainActivity.kt:445 | The entry `findLast` returns sits at a position after which the log holds no entry of that date. |
| DoseLedger.RemoveTakenOn | app/src/main/java/com/efvs/suppletrack/MainActivity.kt:457 | `removeIf` keeps exactly the entries that are not taken on that date. |
| DoseLedger.RemoveTakenOnAppend | app/src/main/java/com/efvs/suppletrack/MainActivity.kt:457 | Removing from a concatenation removes from each part, so order and repetitions of the kept entries are preserved. |
| DoseLedger.RemoveTakenOnOne | app/src/main/java/com/efvs/suppletrack/MainActivity.kt:457 | A single entry is dropped exactly when it is a taken entry of that date. |
| DoseLedger.LocalToggleShowsChoice | app/src/main/java/com/efvs/suppletrack/MainActivity.kt:474-485 | In the local copy the checkbox shows what was just chosen. |
| DoseLedger.SharedLogShowsChoice | app/src/main/java/com/efvs/suppletrack/MainActivity.kt:445-446 | In the shared log the checkbox shows the choice, through the appended SKIPPED or TAKEN entry. The taken count rises by one only when checking. |
| DoseLedger.DoseList.SyncFromPrefs | app/src/main/java/com/efvs/suppletrack/MainActivity.kt:292-301 | The loops act as `SyncAll`, dose by dose. |
| DoseLedger.DoseList.SyncedLog | app/src/main/java/com/efvs/suppletrack/MainActivity.kt:293-300 | The inner loop computes `SyncTimes` of the dose's log. |
| DoseLedger.DoseList.OnDoseTakenUi | app/src/main/java/com/efvs/suppletrack/MainActivity.kt:329-342 | The receiver acts as `UiTaken`. |
| DoseLedger.DoseList.LogIntakeAt | app/src/main/java/com/efvs/suppletrack/MainActivity.kt:375-379 | `onLogIntake` acts as `LogIntake`. |
| DoseLedger.DoseList.Add | app/src/main/java/com/efvs/suppletrack/MainActivity.kt:387 | `onAdd` appends the dose. |
| DoseLedger.DoseList.EditAt | app/src/main/java/com/efvs/suppletrack/MainActivity.kt:385 | `onEdit` acts as the corrected `Edit`. |
| DoseLedger.DoseList.DeleteAt | app/src/main/java/com/efvs/suppletrack/MainActivity.kt:386 | `onDelete` acts as `Delete` and cancels nothing. |
| DoseLedger.DoseList.DeleteAndCancel | app/src/main/java/com/efvs/suppletrack/MainActivity.kt:386 | Corrected delete: removes the dose and cancels its slot codes. |
| DoseLedger.Checklist.Resync | app/src/main/java/com/efvs/suppletrack/MainActivity.kt:417-419 | The local copy is replaced by the shared list. |
| DoseLedger.Checklist.SetChecked | app/src/main/java/com/efvs/suppletrack/MainActivity.kt:474-486 | The checkbox changes the local copy as `LocalToggle` and logs TAKEN or SKIPPED into the shared list. |
| DoseLedger.Checklist.ToggleCard | app/src/main/java/com/efvs/suppletrack/MainActivity.kt:452-466 | A card click sets the checkbox to the opposite of what it shows. |
| CalendarStats.CountTaken | app/src/main/java/com/efvs/suppletrack/MainActivity.kt:793 | The count is 0 iff no entry is taken and equals the length iff all are. |
| CalendarStats.CountTakenJoin | app/src/main/java/com/efvs/suppletrack/MainActivity.kt:793 | Counting over `flatMap` adds the counts of the parts. |
| CalendarStats.Percent | app/src/main/java/com/efvs/suppletrack/MainActivity.kt:795 | `taken*100/total` lies in 0..100, is 100 iff all are taken, and is 0 when none is. |
| CalendarStats.PercentFacts | app/src/main/java/com/efvs/suppletrack/MainActivity.kt:795 | The same bounds and the 100 case, for the plain integer division. |
| CalendarStats.Adherence | app/src/main/java/com/efvs/suppletrack/MainActivity.kt:793-795 | The adherence score lies in 0..100, with 0 for no entries. |
| CalendarStats.AdherenceExtremes | app/src/main/java/com/efvs/suppletrack/MainActivity.kt:793-795 | The score is 100 iff there are entries and all are taken. It is 0 when none is taken. |
| CalendarStats.AdherenceExample | app/src/main/java/com/efvs/suppletrack/MainActivity.kt:795 | Three taken entries and one skipped entry score 75, rounding down. |
| CalendarStats.TotalsAfterAppend | app/src/main/java/com/efvs/suppletrack/MainActivity.kt:793-794 | One appended entry adds one to the total, and one to the taken count iff it is taken. |
| CalendarStats.PercentStep | app/src/main/java/com/efvs/suppletrack/MainActivity.kt:795 | One more taken entry never lowers the percentage, and one more other entry never raises it. |
| CalendarStats.LoggingMovesAdherence | app/src/main/java/com/efvs/suppletrack/MainActivity.kt:375-379 | Logging TAKEN never lowers the adherence score, and logging SKIPPED or MISSED never raises it. |
| CalendarStats.LogsOn | app/src/main/java/com/efvs/suppletrack/MainActivity.kt:864 | A day's entries are all of that date. |
| CalendarStats.DayEntries | app/src/main/java/com/efvs/suppletrack/MainActivity.kt:934 | `filter { log.date == day }` keeps exactly the entries of that day. |
| CalendarStats.DayEntriesAppend | app/src/main/java/com/efvs/suppletrack/MainActivity.kt:934 | Filtering a concatenation filters each part, so the kept entries stay in log order with their repetitions. |
| CalendarStats.DayEntriesOne | app/src/main/java/com/efvs/suppletrack/MainActivity.kt:934 | A single entry is kept exactly when it is dated that day. |
| CalendarStats.LogsOnMembership | app/src/main/java/com/efvs/suppletrack/MainActivity.kt:864 | An entry is among a day's entries iff it has that date and belongs to some dose's log. |
| CalendarStats.StatusOf | app/src/main/java/com/efvs/suppletrack/MainActivity.kt:865-873 | Day status: no entries iff empty; all taken; none taken; mixed iff some taken and some not. The four cases exclude each other. |
| CalendarStats.Argb | app/src/main/java/com/efvs/suppletrack/MainActivity.kt:847-850 | The four status colours are fixed opaque ARGB values. The today tint has no fixed value, because it is derived from the theme. |
| CalendarStats.CellBackgroundMeaning | app/src/main/java/com/efvs/suppletrack/MainActivity.kt:934-953 | Today's cell is green iff it has entries and all are taken, and tinted otherwise. Another day shows red iff it has entries and none is taken, and grey iff it has none. |
| CalendarStats.WeekStart | app/src/main/java/com/efvs/suppletrack/MainActivity.kt:698 | `with(MONDAY)` gives a Monday no later than the day and less than a week before it. |
| CalendarStats.WeekDays | app/src/main/java/com/efvs/suppletrack/MainActivity.kt:926 | The week view shows seven consecutive days from the start. |
| CalendarStats.WeekViewColumns | app/src/main/java/com/efvs/suppletrack/MainActivity.kt:926 | Started from `WeekStart`, the columns are Monday to Sunday and contain the day. |
| CalendarStats.PadMonthGrid | app/src/main/java/com/efvs/suppletrack/MainActivity.kt:843-846 | The three loops produce, after `lead` blanks, every day of the month once in order, then fewer than 7 trailing blanks. The length is a multiple of 7. |
| CalendarStats.SundayBasedLead | app/src/main/java/com/efvs/suppletrack/MainActivity.kt:842 | `dayOfWeek.value % 7` is below 7. |
| CalendarStats.MondayBasedLead | app/src/main/java/com/efvs/suppletrack/MainActivity.kt:854 | The lead a Monday-first header needs is below 7. |
| CalendarStats.MonthGridAsWritten | app/src/main/java/com/efvs/suppletrack/MainActivity.kt:840-846 | The month view's grid uses the Sunday-based lead. It holds every day of the month after that lead, then fewer than 7 trailing blanks, and its length is a multiple of 7. |
| CalendarStats.MonthGrid | app/src/main/java/com/efvs/suppletrack/MainActivity.kt:840-846 | The corrected grid uses the Monday-based lead. It holds every day of the month after that lead, then fewer than 7 trailing blanks, and its length is a multiple of 7. |
| CalendarStats.AsWrittenHeaderOffByOne | app/src/main/java/com/efvs/suppletrack/MainActivity.kt:842 | With the Sunday-based lead, every day sits under the header of the following weekday. |
| CalendarStats.AsWrittenApril2024 | app/src/main/java/com/efvs/suppletrack/MainActivity.kt:854 | April 2024 starts on a Monday, and its 1st lands in column 1, under "Di". |
| CalendarStats.MondayLeadHeaderMatches | app/src/main/java/com/efvs/suppletrack/MainActivity.kt:854 | With the Monday-based lead, every day sits under its own weekday. |
| IntakeRecords.Toggled | ui/intake/IntakeChecklistViewModel.kt:50-53 | A toggle negates `taken`, sets `takenAt` to now iff the intake became taken and to null otherwise, and changes no other field. |
| IntakeRecords.ToggleTwice | ui/intake/IntakeChecklistViewModel.kt:50-53 | Toggling twice restores `taken`, and restores a consistent untaken intake exactly. |
| IntakeRecords.PrnIntake | ui/intake/IntakeChecklistViewModel.kt:60-67 | A PRN intake is for the given profile and supplement, taken, with `takenAt == intakeTime == now`, and leaves its key to the database. |
| IntakeRecords.TodayWindow | ui/intake/IntakeChecklistViewModel.kt:38-40 | The today window holds exactly the instants whose local date is today. |
| IntakeRecords.UpdateRow | data/repository/IntakeRepository.kt:19 | An update replaces only the row with the entity's key, if it exists. No key is added. |
| IntakeRecords.MarkTakenEffect | notifications/MarkTakenReceiver.kt:12-20 | The effects are: -1 or an unknown id changes nothing; a known intake ends up taken; an untaken one gets `takenAt` = now; a taken one is not rewritten; no other row changes. |
| IntakeRecords.MarkTakenIdempotent | notifications/MarkTakenReceiver.kt:18-19 | Marking twice equals marking once, so the first stamp stays. |
| IntakeRecords.EditsKeepRowsConsistent | notifications/MarkTakenReceiver.kt:19 | Marking and toggling keep `taken` and `takenAt` in agreement in every row. |
| IntakeRecords.RowsInRange | data/repository/IntakeRepository.kt:14-15 | The query returns only rows of the profile within the window, and only rows stored in the table. |
| IntakeRecords.RowsInRangeComplete | data/repository/IntakeRepository.kt:14-15 | Every stored row of the profile within the window is returned. |
| IntakeRecords.IntakeDb.GetIntakeById | notifications/MarkTakenReceiver.kt:17 | `getIntakeById` returns the row iff the key is stored. |
| IntakeRecords.IntakeDb.UpdateIntake | data/repository/IntakeRepository.kt:19 | `updateIntake` acts as `UpdateRow` and keeps the table well keyed. |
| IntakeRecords.IntakeDb.InsertIntake | data/repository/IntakeRepository.kt:17 | An insert with key 0 gets a fresh key and stores the row under it. |
| IntakeRecords.OnMarkTaken | notifications/MarkTakenReceiver.kt:11-22 | The receiver acts as `MarkTaken` on the table. |
| IntakeRecords.ChecklistViewModel.LoadIntakesForToday | ui/intake/IntakeChecklistViewModel.kt:35-46 | The loaded intakes are the profile's rows whose local date is today. |
| IntakeRecords.ChecklistViewModel.ToggleIntake | ui/intake/IntakeChecklistViewModel.kt:48-56 | The toggle writes the toggled row. |
| IntakeRecords.ChecklistViewModel.AddPrnIntake | ui/intake/IntakeChecklistViewModel.kt:58-70 | A PRN intake is inserted under a fresh key. |
| IntakeCalendar.OnDay | ui/calendar/IntakeCalendarViewModel.kt:30 | A day's group holds exactly the intakes of that day. |
| IntakeCalendar.OnDayAppend | ui/calendar/IntakeCalendarViewModel.kt:30 | Selecting from a concatenation selects from each part, so `groupBy` keeps each day's intakes in query order with their repetitions. |
| IntakeCalendar.OnDayOne | ui/calendar/IntakeCalendarViewModel.kt:30 | A single intake is selected exactly when it falls on the day. |
| IntakeCalendar.GroupByDayIsFilter | ui/calendar/IntakeCalendarViewModel.kt:30-32 | `groupBy` has a key iff that day has intakes, so no group is empty, and each group is the day's intakes in input order. A missing date reads as the empty list (`IntakeCalendarScreen.kt` lines 60 and 124). |
| IntakeCalendar.MonthWindow | ui/calendar/IntakeCalendarViewModel.kt:25-26 | The month window holds exactly the instants whose local date is in the month. |
| IntakeCalendar.ConsecutiveMonthWindows | ui/calendar/IntakeCalendarViewModel.kt:25-26 | A month's window ends one millisecond before the next month's starts. No instant lies in both, and the two cover both months. |
| IntakeCalendar.AsWrittenLosesEarlyIntake | ui/calendar/IntakeCalendarViewModel.kt:30-32 | At UTC+1, an intake at 00:30 on 1 April 2024 is inside April's window but grouped under 31 March. |
| IntakeCalendar.LocalGroupingKeepsMonth | ui/calendar/IntakeCalendarViewModel.kt:25-33 | Grouped by local date, every key is a day of the month, and each day's group is exactly that day's intakes. |
| IntakeCalendar.CalendarViewModel.LoadIntakesForMonth | ui/calendar/IntakeCalendarViewModel.kt:22-36 | As written: the map is the month's rows grouped by their UTC date. Each day's list is exactly the rows whose UTC date is that day. |
| IntakeCalendar.CalendarViewModel.LoadIntakesForMonthLocal | ui/calendar/IntakeCalendarViewModel.kt:22-36 | Corrected: the same rows grouped by the local date the window was computed with, and all its keys lie in the month. |
| IntakeCalendar.CalendarWeeks | ui/calendar/IntakeCalendarScreen.kt:81-100 | Every row has 7 cells and there are ceil((lead + days)/7) rows. Cell (r, c) is cell 7r+c of the padded sequence, so the days appear once each in order after `dayOfWeek % 7` leading blanks. |
| IntakeCalendar.WeeksUnderSundayHeader | ui/calendar/IntakeCalendarScreen.kt:105 | Under "S M T W T F S" each date is in the column of its weekday counted from Sunday. |
| IntakeCalendar.IntakeStatus | ui/calendar/IntakeCalendarScreen.kt:124-130 | Colour class, with emptiness checked first: none iff empty; all taken; none taken; otherwise mixed iff some are taken and some not. |
| IntakeCalendar.IntakeBackground | ui/calendar/IntakeCalendarScreen.kt:125-135 | The selected date is always blue, and an unselected empty day is transparent. |
| IntakeCalendar.IntakeBackgroundDistinguishes | ui/calendar/IntakeCalendarScreen.kt:125-130 | On unselected days, distinct statuses give distinct colours. |

## Left out

- **Android services.** `AlarmManager`, `PendingIntent` and notification builders, shared-preference I/O, broadcast registration and permission prompts are not modelled. Only their effect on the three maps and sets is.
- **SecurityException.** The exception from `setExactAndAllowWhileIdle` is the `refused` set of request codes in `Env`.
- **Clocks.** `LocalDate.now()`, `LocalTime.now()` and `System.currentTimeMillis()` are parameters. The checklist reads `LocalTime.now()` twice (once for the local copy and once in `onLogIntake`), and the model uses one value for both.
- **Calendar dates.** `LocalDate.of`, `lengthOfMonth` and `plusMonths` are not modelled. A month is given by its first epoch day and its length.
- **Time zones.** A time zone is a fixed offset from UTC, so daylight-saving transitions are not modelled.
- Clock.ParseHHmm: the smart resolver reads "24:00" as midnight plus one excess day. The model returns midnight and drops the excess day, as `LocalTime.parse` does.
- DoseLedger.UiTaken: in the source, `LocalTime.parse` throws `DateTimeParseException` when the broadcast's time text is malformed, which crashes the receiver. The model leaves the list unchanged in that case. The scheduler only sends texts that it formatted itself.
- Decimal.ParseInt32: accepts ASCII digits only. Kotlin's `toInt()` also accepts other Unicode decimal digits, which the app never produces.
- Reminders.OnMissedDose: in the source, `toInt()` throws when the time text or the notification id does not parse, which crashes the receiver. The model leaves the state unchanged in that case.
- **Taken-action request code.** The code of the "Taken" action, `doseId*1000000 + …`, is computed only for its exception. Its value and its overflow are not modelled.
- **Translation table.** The `tr` table and all texts, themes and layouts are not modelled.
- **Random dose id.** The dialog's random id (`(0..100000).random()`) is the `freshId` parameter of `DialogItem`.
- DoseLedger.DialogItem: takes the weekday list as given, and the dialog's `sorted()` is not modelled. No reminder logic reads that list.
- **Scheduler and weekdays.** The scheduler ignores `recurrenceDays` and `durationDays`, and so does the model.
- **Aliasing.** The dose list is a value. Kotlin shares each `DoseItem`'s `MutableList` between `doseItems` and its `toMutableList()` copies. The model has one list per dose, and the checklist's copy is separate, as the `copy(adherenceLog = …toMutableList())` at lines 414, 418 and 454 makes it.
- **Coroutines and flows.** Coroutines, `GlobalScope`, `viewModelScope` and `Flow` collection are not modelled. Each load is one emission of its query, run to completion.
- **IntakeDao.** `IntakeDao` is not part of this model. Its range query is `RowsInRange`: the profile's rows with `start <= intakeTime <= end`, in key order.
- IntakeRecords.IntakeDb.InsertIntake: requires the key 0 that `addPRNIntake` leaves to the database. An insert with a preset key is not modelled.
- **Other parts of the app.** Profiles, supplements, export, Google Drive, biometric lock, settings, onboarding and the widget are not part of this model.

## Findings

| source | as written | input that shows it | evidently intended | confidence | as-written member | corrected member |
|---|---|---|---|---|---|---|
| app/src/main/java/com/efvs/suppletrack/MainActivity.kt:842-854 | The month grid puts `dayOfWeek.value % 7` blanks (Sunday = 0) before the 1st, under a Monday-first header "Mo … So" | April 2024 (1 April is a Monday): the 1st lands in column 1, under "Di" | `dayOfWeek.value - 1` blanks, so each day sits under its own weekday | high; not executed | CalendarStats.AsWrittenHeaderOffByOne | CalendarStats.MondayLeadHeaderMatches |
| app/src/main/java/com/efvs/suppletrack/MainActivity.kt:676-685 | The edit dialog builds a new `DoseItem` with the default empty log, and `onEdit` stores it in place of the old dose | Dose 7 with one taken entry on day 20000, renamed: no taken entry remains | Editing changes the form fields and keeps the dose's adherence log | high; not executed | DoseLedger.EditAsWrittenLosesHistory | DoseLedger.Edit |
| app/src/main/java/com/efvs/suppletrack/MainActivity.kt:386 | `onDelete` removes the dose. The next scheduling pass only adds alarms, so the deleted dose's alarm stays registered | Dose 7 at 08:00, scheduled on day 20000 at midnight and then deleted: the alarm under 70800 fires and shows a reminder | Deleting a dose cancels its alarms, as the disable branch does | medium; not executed | Reminders.StaleAlarmExample | Reminders.CancelDoseSilencesDose |
| ui/calendar/IntakeCalendarViewModel.kt:30-32 | The window is built in the local zone, but intakes are grouped by `intakeTime / 86400000`, the UTC date | At UTC+1, an intake at 00:30 local on 1 April 2024 is fetched for April but grouped under 31 March, so it appears on no April day | Group by the local date the window was computed with, as `CalendarViewModel.LoadIntakesForMonthLocal` does | high; not executed | IntakeCalendar.AsWrittenLosesEarlyIntake | IntakeCalendar.LocalGroupingKeepsMonth |
