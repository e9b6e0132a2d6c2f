# Entropy front end: task cache, urgency and inline editors in Dafny

This project models the client-side core of the Entropy task board's web
front end:

- the task records and their enumerations;
- the urgency classifier, with its shadow and style tables and the sort
  comparator built on it;
- the deadline normaliser, which converts between instants and the
  date and time inputs on the Taipei clock (UTC+8);
- the optimistic update cache of the task list;
- the dock of in-dock tasks;
- the type selector;
- the inline editors of the two task cards (title, difficulty and xp
  badges, deadline).

There is one module per source file:

| module | source file |
|---|---|
| `Types` | types/index.ts |
| `Urgency` | lib/urgency.ts |
| `Utils` | lib/utils.ts |
| `Datetime` | lib/datetime.ts |
| `UseTasks` | hooks/use-tasks.ts |
| `GlobalDock` | components/global-dock.tsx |
| `TypeSelector` | components/type-selector.tsx |
| `DashboardTaskCard` | components/dashboard-task-card.tsx |
| `TaskCard` | components/task-card.tsx |

`Edits` holds what both cards share: the outcome of an edit, the keys the
editors react to, and the deadline save.

Four helper modules stand in for the platform:

- `Wrappers`: `Option` and `Result`.
- `Text`: decimal digits, zero padding, `String.prototype.trim`, and the
  piece count of `split`.
- `Civil`: the proleptic Gregorian calendar. It has days-from-civil and its
  proved inverse.
- `JsDate`: `new Date(text)` on the upper-case subset of the date-time
  grammar of section 5.6 of RFC 3339 (only `T` and `Z`, not `t` and `z`),
  and `Date.prototype.toISOString`.

**Instants.** An instant is an integer number of milliseconds since
1970-01-01T00:00:00Z. `Date.now()` becomes the parameter `now`. A text that
`new Date` cannot read (its time is `NaN`) is `None`.

**Components.** A React component with local state is a `class`. Each
`useState` is a field, and each handler is a method that `modifies this`.
Each effect becomes a `Receive…` method that is called when the prop
changes. What a handler decides is a pure function returning an
`Edits.Outcome`: `Submit(payload)`, `Revert`, `Reject(alert)` or `NoOp`.
The method is proved against that function.

**Inputs that come from outside.** Three values are parameters:

- the result of `Math.round(Number(draft))`: `None` when it is not finite;
- the answer to `confirm`;
- whether the remote call succeeds.

`alert` becomes a returned text.

## Model

| member | source | states |
|---|---|---|
| Types.ParseTaskType | types/index.ts:4-8 | reading a wire string gives a type exactly for `school`, `skill`, `misc`, and the type read is the one whose wire string it is (the type-to-text map is injective) |
| Types.ParseTaskStatus | types/index.ts:11-16 | reading a wire string gives a status exactly for the five stage names, and the status read is the one whose wire string it is |
| Types.StatusMember | types/index.ts:11-16 | `TaskStatus.<NAME>` is defined for exactly DRAFT, STAGED, COMPLETED, INCINERATED; each of these names gives exactly its own stage (DRAFT the draft stage, and so on), and no member name yields the in-dock stage |
| Urgency.TierOf | lib/urgency.ts:24-27 | under 24 hours left is critical, 24 up to 72 hours is warning, 72 hours or more is normal, with the boundaries in milliseconds |
| Urgency.GetTaskUrgency | lib/urgency.ts:18-28 | a null, empty or unreadable (`NaN`) deadline is normal; otherwise the tier is the one of the milliseconds left, so the real-valued hours chain classifies exactly as the integer millisecond thresholds do |
| Urgency.HoursBelow | lib/urgency.ts:22-27 | `ms / 3600000 < h` holds exactly when `ms < h * 3600000` |
| Urgency.PastDeadlineIsCritical | lib/urgency.ts:24 | a deadline at or before now is critical |
| Urgency.NoInstantIsNormal | lib/urgency.ts:19-27 | a null, empty or unreadable deadline is normal |
| Urgency.Rank | lib/urgency.ts:53 | critical ranks 0, warning 1 and normal 2, so the rank orders the tiers from most to least urgent |
| Urgency.LaterDeadlineNotMoreUrgent | lib/urgency.ts:18-28 | at a fixed now, a later deadline never ranks as more urgent than an earlier one, and a deadline without an instant ranks with the latest |
| Urgency.UrgencyGrowsWithTime | lib/urgency.ts:18-28 | as now advances, a task's urgency never decreases |
| Urgency.GetUrgencyShadow | lib/urgency.ts:37-44 | every tier has a shadow class, and the colour of that class identifies the tier, so the three classes differ |
| Urgency.CompareByUrgency | lib/urgency.ts:52-55 | the result lies in [-2, 2]; it is negative exactly when the first deadline's tier is more urgent; it is zero exactly when the tiers agree (no tie-break) |
| Urgency.CompareByUrgencyIsPreorder | lib/urgency.ts:52-55 | the comparator is reflexive (`compare(a, a) == 0`), antisymmetric and transitive |
| Urgency.CompareFollowsDeadlines | lib/urgency.ts:52-55 | an earlier deadline never sorts after a later one |
| Utils.GetTaskUrgency | lib/utils.ts:14-24 | the copy in lib/utils.ts classifies every (deadline, now) pair as lib/urgency.ts does |
| Utils.UtilsUrgencyChain | lib/utils.ts:20-23 | past or under 24 hours is critical, under 72 hours is warning, otherwise normal |
| Utils.GetUrgencyStyles | lib/utils.ts:27-34 | every tier has a style, and the border colour of that style identifies the tier, so the three styles differ |
| Utils.GetUrgencyShadow | lib/utils.ts:37-44 | the shadow table of lib/utils.ts is the one of lib/urgency.ts for every tier |
| Datetime.Pad | lib/datetime.ts:4-6 | the text is left-padded with zeros to at least two characters and ends with the original text |
| Datetime.TaipeiFields | lib/datetime.ts:8-25 | the Taipei wall-clock fields of an instant are a valid date, an hour below 24 and a minute below 60, and denote the instant plus eight hours to the minute |
| Datetime.CollectDateParts | lib/datetime.ts:20-23 | the record built from the formatter's parts holds exactly the year, month, day, hour, minute and literal keys, each named part under its own type |
| Datetime.TaipeiPartsRecord | lib/datetime.ts:8-25 | the Taipei parts record holds the zero-padded year, month, day, hour and minute of the instant on the UTC+8 clock |
| Datetime.FormatParts | lib/datetime.ts:8-25 | the `forEach` loop builds exactly that record |
| Datetime.DeadlineInstant | lib/datetime.ts:28-30 | a deadline has an instant exactly when it is present and is the text of an RFC 3339 date-time that `new Date` reads; null and the empty string have none |
| Datetime.FormatDeadline | lib/datetime.ts:27-34 | the text is `No Deadline` exactly when the deadline is null, empty or unreadable |
| Datetime.FormatDeadlineShows | lib/datetime.ts:32-33 | a valid deadline is shown as `YYYY-MM-DD HH:MM (TPE)`, using its Taipei date and its 24-hour Taipei time |
| Datetime.DeadlineToInputParts | lib/datetime.ts:36-46 | the date input is empty exactly when the deadline is null, empty or unreadable, and then the time input is empty too |
| Datetime.InputPartsShow | lib/datetime.ts:41-45 | for a valid deadline the inputs hold its Taipei date as `YYYY-MM-DD` (when the year has four digits) and its Taipei time as a five-character `HH:MM` |
| Datetime.TimeWithSeconds | lib/datetime.ts:50-52 | the time read starts with the trimmed given time (or `23:59`) and adds at most three characters; it never has exactly two `:`-separated pieces, and a trimmed time with two pieces gets a third |
| Datetime.HourMinuteGainsSeconds | lib/datetime.ts:50-52 | an `HH:MM` time is read as `HH:MM:00` |
| Datetime.DefaultTimeApplies | lib/datetime.ts:50-52 | a missing or empty time is read as 23:59:00 |
| Datetime.GivenTimeApplies | lib/datetime.ts:50-52 | a given time is trimmed; it gains `:00` exactly when it has two pieces, and otherwise it is left as it is |
| Datetime.DefaultTimeHasMinutes | lib/datetime.ts:2-52 | the default time is trimmed and has two pieces, so it gains seconds |
| Datetime.BuildUtcIsoFromParts | lib/datetime.ts:48-59 | an empty date gives null; a candidate `date`T`time`+08:00 that cannot be read throws; otherwise the result is the ISO string of the instant read |
| Datetime.HourMinuteText | lib/datetime.ts:50-52 | an `HH:MM` time is trimmed and has two pieces |
| Datetime.TaipeiInstantFourDigit | lib/datetime.ts:54-58 | a Taipei date-time in years 1 to 9999 lies at an instant whose UTC year has four digits |
| Datetime.TaipeiDateTimeText | lib/datetime.ts:54 | the text of a Taipei date-time with no seconds or fraction is `date`T`HH:MM:00`+08:00 |
| Datetime.CandidateShowsTaipeiDateTime | lib/datetime.ts:54 | the candidate text built from a date and an `HH:MM` time is that date-time at +08:00 |
| Datetime.ParseTaipeiDateTime | lib/datetime.ts:54 | that candidate is read as the Taipei wall-clock instant |
| Datetime.BuildReadsTaipeiTime | lib/datetime.ts:48-59 | a valid date and `HH:MM` time give the ISO string of the instant on the Taipei clock, and that string reads back as the same instant |
| Datetime.TruncMinuteOf | lib/datetime.ts:36-59 | an instant that lies within a given whole minute truncates to the start of that minute |
| Datetime.TaipeiMinuteIsTruncation | lib/datetime.ts:41-45 | the Taipei date and minute of an instant denote that instant truncated to the minute |
| Datetime.InputPartsRoundTrip | lib/datetime.ts:36-59 | building from the inputs a deadline shows gives an ISO string whose instant is the deadline truncated to the minute |
| JsDate.ParseInstant | lib/datetime.ts:54-55 | `new Date(text)` gives an instant exactly when the text is an RFC 3339 date-time (upper-case `T` and `Z`, four-digit year) whose fields are in range |
| JsDate.ShownInstantIsRead | lib/datetime.ts:54-55 | the text of any in-range date-time is read as the instant it denotes |
| JsDate.ToIsoString | lib/datetime.ts:58 | `toISOString` ends in `Z`; for an instant with a four-digit UTC year it has 24 characters and reads back as the same instant |
| Text.Trim | lib/datetime.ts:50 | the trimmed text is empty exactly when the text is all whitespace, and otherwise neither starts nor ends with whitespace |
| Text.TrimIdempotent | components/dashboard-task-card.tsx:217 | trimming a trimmed title changes nothing |
| UseTasks.Merge | hooks/use-tasks.ts:56 | every field the update sends overwrites the task's; every other field, including the timestamps, is kept |
| UseTasks.Patched | hooks/use-tasks.ts:55-57 | the write keeps the list's length, order and ids; entries with a different id are untouched; the entries with the update's id are merged |
| UseTasks.OptimisticList | hooks/use-tasks.ts:53-58 | an absent list becomes the empty list; a present one is patched |
| UseTasks.MergeIdempotent | hooks/use-tasks.ts:56 | merging the same update twice is merging it once |
| UseTasks.PatchedIdempotent | hooks/use-tasks.ts:55-57 | writing the same update twice leaves the list as writing it once |
| UseTasks.OptimisticIdempotent | hooks/use-tasks.ts:53-58 | the optimistic write applied twice gives the cache it gives once |
| UseTasks.PatchedCommutes | hooks/use-tasks.ts:55-57 | updates of two different ids can be written in either order |
| UseTasks.QueryCache.constructor | hooks/use-tasks.ts:9-16 | a cache starts with the given list and neither query stale |
| UseTasks.QueryCache.Refetch | hooks/use-tasks.ts:9-16 | the server's list replaces the cache and the task query is fresh |
| UseTasks.QueryCache.OnMutate | hooks/use-tasks.ts:45-62 | the snapshot returned is the whole list before the write, and the cache then holds the optimistic list |
| UseTasks.QueryCache.OnError | hooks/use-tasks.ts:67-73 | a snapshot that exists is put back; without one the cache is left as it is |
| UseTasks.QueryCache.OnSettled | hooks/use-tasks.ts:76-79 | both the task and the dashboard queries become stale, and the cache is unchanged |
| UseTasks.QueryCache.UpdateTask | hooks/use-tasks.ts:45-79 | on success the cache holds the update; on failure it is back to the snapshot, or empty when there was no list; both queries are stale either way |
| UseTasks.QueryCache.DeleteTask | hooks/use-tasks.ts:83-94 | the cache never changes; the queries become stale only on success |
| UseTasks.QueryCache.OverlappingUpdates | hooks/use-tasks.ts:45-73 | when an earlier update fails after a later one has written, the whole-list rollback removes both writes |
| GlobalDock.DockedTasks | components/global-dock.tsx:16 | the docked tasks are exactly the in-dock tasks of the list |
| GlobalDock.DockedTasksConcat | components/global-dock.tsx:16 | the filter keeps list order |
| GlobalDock.StatusFilter | components/global-dock.tsx:16 | `filter(t => t.status === TaskStatus[name])` keeps exactly the tasks whose status is the member called `name` |
| GlobalDock.DockedTasksAsWritten | components/global-dock.tsx:16 | the filter as written keeps only tasks of the list whose status equals `TaskStatus.IN_DOCK` |
| GlobalDock.UndeclaredMemberKeepsNothing | components/global-dock.tsx:16 | filtering against a member the enumeration does not declare keeps no task |
| GlobalDock.DockAlwaysEmptyAsWritten | components/global-dock.tsx:16 | the filter as written, against the missing member `TaskStatus.IN_DOCK`, keeps no task |
| GlobalDock.DockedTaskMissedAsWritten | components/global-dock.tsx:16 | an in-dock task is docked by the intended filter and dropped by the filter as written |
| GlobalDock.Dock | components/global-dock.tsx:9-40 | no list shows an empty dock; slot i holds the i-th docked task or nothing; the dock is full exactly when at least three tasks are docked, which is exactly when every slot is occupied; the counter reads `n / 3` |
| GlobalDock.CounterCountsDocked | components/global-dock.tsx:34 | the counter is the decimal count of docked tasks followed by ` / 3` |
| GlobalDock.RemoveRequest | components/global-dock.tsx:55-60 | a delete is dispatched exactly for an occupied slot whose removal was confirmed, and it names that slot's task |
| GlobalDock.RemoveTargetsDockedTask | components/global-dock.tsx:39-60 | whatever the dock deletes is an in-dock task of the cached list |
| TypeSelector.Find | components/type-selector.tsx:30 | a found option is the first entry of the table with the type asked for; not finding one means no option has that type |
| TypeSelector.TypeOptionsOnePerType | components/type-selector.tsx:14-18 | the table has an entry for every type, and its entries differ in type and label |
| TypeSelector.CurrentOption | components/type-selector.tsx:14-30 | the `find(...)!` lookup always finds the entry of the current type |
| TypeSelector.HandleSelect | components/type-selector.tsx:32-36 | selecting the current type sends nothing; any other type sends exactly the id and the new type |
| TypeSelector.Select | components/type-selector.tsx:43 | a disabled trigger, or one with an update pending, lets no selection through |
| TypeSelector.SelectionChangesOnlyType | components/type-selector.tsx:32-36 | a selection written into the cache changes the task's type and nothing else |
| Edits.DeadlineSave | components/dashboard-task-card.tsx:141-149 | an empty date saves null; a date-time that cannot be read is refused with the alert; otherwise the ISO string of the instant read is saved |
| Edits.UnchangedDraftSavesDeadline | components/task-card.tsx:58-70 | saving untouched inputs sends null for no deadline, and otherwise the deadline truncated to the minute |
| DashboardTaskCard.CommitDecision | components/dashboard-task-card.tsx:44-66 | a non-finite draft reverts; a number below min or above max is refused with the alert naming the broken bound, checking the lower bound first; an in-bounds number is sent exactly when it differs from the value |
| DashboardTaskCard.NumberBadgeEditor.constructor | components/dashboard-task-card.tsx:37-38 | the badge starts closed with the value as its draft |
| DashboardTaskCard.NumberBadgeEditor.Open | components/dashboard-task-card.tsx:118 | a click opens the input, keeping the draft |
| DashboardTaskCard.NumberBadgeEditor.Type | components/dashboard-task-card.tsx:88 | typing replaces the draft |
| DashboardTaskCard.NumberBadgeEditor.Commit | components/dashboard-task-card.tsx:44-66 | the editor acts as the decision says: a refusal leaves it open and as it was; a revert restores the draft and closes it; a submitted number is in bounds and differs from the value |
| DashboardTaskCard.NumberBadgeEditor.Cancel | components/dashboard-task-card.tsx:68-71 | the draft shows the value again and the editor closes |
| DashboardTaskCard.NumberBadgeEditor.KeyDown | components/dashboard-task-card.tsx:73-80 | Enter commits, with the editor left as the commit decision says (open on a refusal, draft restored on a revert); Escape cancels; other keys change nothing |
| DashboardTaskCard.NumberBadgeEditor.ReceiveValue | components/dashboard-task-card.tsx:40-42 | a new value replaces the draft |
| DashboardTaskCard.DeadlineEditor.constructor | components/dashboard-task-card.tsx:134-135 | the editor starts closed, with inputs showing the deadline |
| DashboardTaskCard.DeadlineEditor.Open | components/dashboard-task-card.tsx:156 | opening keeps the inputs |
| DashboardTaskCard.DeadlineEditor.Type | components/dashboard-task-card.tsx:162-169 | typing replaces the date or time input |
| DashboardTaskCard.DeadlineEditor.HandleSave | components/dashboard-task-card.tsx:141-149 | a readable or empty date hands on the saved deadline and closes the editor; an unreadable one alerts and leaves it open |
| DashboardTaskCard.DeadlineEditor.HandleCancel | components/dashboard-task-card.tsx:151-155 | the inputs show the deadline again and the editor closes |
| DashboardTaskCard.DeadlineEditor.ReceiveDeadline | components/dashboard-task-card.tsx:137-139 | a new deadline refills the inputs |
| DashboardTaskCard.TitleBlurDecision | components/dashboard-task-card.tsx:216-227 | a blank title reverts; a non-blank trimmed title different from the current one is sent trimmed; any other title sends nothing; nothing is refused |
| DashboardTaskCard.SubmittedTitleIsTrimmed | components/dashboard-task-card.tsx:217-224 | a title that is sent is non-empty, already trimmed, and differs from the current one |
| DashboardTaskCard.UntouchedTitleSendsNothing | components/dashboard-task-card.tsx:223-226 | leaving an already trimmed title as it was sends nothing |
| DashboardTaskCard.DifficultyEditKeepsWellFormed | components/dashboard-task-card.tsx:269-275 | a difficulty the badge sends, once written into the task, keeps it within the documented 1 to 10 |
| DashboardTaskCard.Card.constructor | components/dashboard-task-card.tsx:206-287 | the card starts with the task's title, a difficulty badge bounded 1 to 10 and an xp badge bounded below by 0, both closed with their values as drafts, and a closed deadline editor whose inputs show the task's deadline |
| DashboardTaskCard.Card.OpenTitle | components/dashboard-task-card.tsx:206 | opening keeps the title |
| DashboardTaskCard.Card.TypeTitle | components/dashboard-task-card.tsx:207 | typing replaces the title |
| DashboardTaskCard.Card.HandleTitleBlur | components/dashboard-task-card.tsx:216-227 | the editor closes; a change is sent as a title update of this task; a blank title shows the task's title again |
| DashboardTaskCard.Card.HandleTitleKeyDown | components/dashboard-task-card.tsx:229-237 | Enter runs the blur, sending what it sends and showing the task's title again after a blank one; Escape shows the task's title and closes the editor; other keys change nothing |
| DashboardTaskCard.Card.CommitDifficulty | components/dashboard-task-card.tsx:269-275 | only difficulties from 1 to 10 are sent, exactly when the commit decision submits, as a difficulty update of this task; the badge is left as the decision says |
| DashboardTaskCard.Card.CommitXp | components/dashboard-task-card.tsx:276-283 | only xp values of at least 0 are sent, as `xp_value`, exactly when the commit decision submits; the badge is left as the decision says |
| DashboardTaskCard.Card.SaveDeadline | components/dashboard-task-card.tsx:284-287 | a saved deadline is sent as a deadline update of this task; the editor closes unless the save is refused, and its inputs and deadline are kept |
| DashboardTaskCard.Card.ReceiveTask | components/dashboard-task-card.tsx:209-211 | a changed title replaces the edited one; the badges and deadline editor take the new values, each redrawing its draft only when its value changed and staying open or closed as it was |
| TaskCard.TitleBlurDecision | components/task-card.tsx:36-43 | the trimmed title is sent exactly when the raw title differs from the current one and is not blank; otherwise the title reverts |
| TaskCard.CardsAgreeOnRealChanges | components/task-card.tsx:36-43 | where the typed title differs from the current one both before and after trimming, this card and the dashboard card decide alike |
| TaskCard.PaddedTitleResent | components/task-card.tsx:37-38 | the current title with a trailing space is sent unchanged here, while the dashboard card sends nothing |
| TaskCard.StageRequest | components/task-card.tsx:192-198 | a stage update is sent exactly when the button is enabled for the card, the task is a draft, and no update is pending; it moves the task to staged |
| TaskCard.StagingMovesOnlyStatus | components/task-card.tsx:192-198 | a stage update written into the cache moves the task to staged and changes nothing else |
| TaskCard.Card.constructor | components/task-card.tsx:24-27 | the card starts with both editors closed, the task's title, and inputs showing its deadline |
| TaskCard.Card.OpenTitle | components/task-card.tsx:24 | opening keeps the title and leaves the deadline editor as it was |
| TaskCard.Card.TypeTitle | components/task-card.tsx:25 | typing replaces the title and leaves the deadline editor as it was |
| TaskCard.Card.HandleTitleBlur | components/task-card.tsx:36-43 | the editor closes; a change is sent as a title update; anything else shows the task's title again; the deadline editor is untouched |
| TaskCard.Card.HandleTitleKeyDown | components/task-card.tsx:45-53 | Enter runs the blur, keeping a sent title and otherwise showing the task's title; Escape restores the title and closes the editor; other keys change nothing; the deadline editor is untouched |
| TaskCard.Card.OpenDeadline | components/task-card.tsx:26 | opening keeps the inputs and leaves the title editor as it was |
| TaskCard.Card.TypeDeadline | components/task-card.tsx:27 | typing replaces the inputs and leaves the title editor as it was |
| TaskCard.Card.HandleDeadlineSave | components/task-card.tsx:58-70 | an empty date sends null and a readable one its ISO string, and the editor closes; an unreadable one alerts, sends nothing and leaves the editor open; the title editor is untouched |
| TaskCard.Card.HandleDeadlineCancel | components/task-card.tsx:72-75 | the inputs show the task's deadline again and the editor closes; the title editor is untouched |
| TaskCard.Card.StageClick | components/task-card.tsx:192-198 | the click sends what the stage guard allows |
| TaskCard.Card.ReceiveTask | components/task-card.tsx:29-31 | only a changed deadline refills the inputs; the title state is kept |
| TaskCard.Card.StaleTitleResent | components/task-card.tsx:24-43 | with no effect on the title, a title renamed elsewhere is not picked up, and opening and leaving the editor sends the old title back |

## Left out

- Parsing by `new Date`: only the RFC 3339 date-time form with a four-digit year is modelled. The other forms JavaScript engines accept (date only, local time, expanded six-digit years, free text) read as unreadable here.
- `toISOString` past year 9999 or before year 0: the six-digit form is written out but never read back, and no lemma covers it. JavaScript's limit of ±8.64e15 ms is not modelled, because every instant read from a four-digit year lies far inside it.
- Datetime.InputPartsShow: the date input is stated as `YYYY-MM-DD` only for Taipei years 1000 to 9999, because the `en-CA` formatter does not pad shorter years.
- Datetime.InputPartsRoundTrip: proved only for Taipei years 1000 to 9999, for the same reason.
- Edits.UnchangedDraftSavesDeadline: proved only for Taipei years 1000 to 9999, for the same reason.
- Asia/Taipei is a fixed UTC+8 offset. The zone's historical offsets and daylight-saving periods are not modelled, nor the rest of `Intl.DateTimeFormat`: the formatter's part list for the `en-CA` locale is written out as a function.
- `Math.round(Number(draft))` is not modelled. The commit takes the number a draft reads as, or `None` for a non-finite one.
- Urgency.CompareByUrgency: `compareByUrgency` calls `getTaskUrgency` twice, and each call reads `Date.now()` (lib/urgency.ts:21, lib/urgency.ts:54). The model passes one `now` to both, so Urgency.CompareByUrgencyIsPreorder holds only for a clock that does not move between the two reads.
- The hours in the urgency chain are real numbers (exact rationals). IEEE double rounding of `ms / 3600000` is not modelled.
- `await cancelQueries` and the interleaving of asynchronous completions are not modelled; a mutation's steps run one after the other. Refetching after a query is marked stale is a separate call (`QueryCache.Refetch`).
- The HTTP calls are not modelled; a remote call's success is a boolean parameter.
- Audio recording and upload, the rendering-only views, and the drag-and-drop handlers are not part of this model. That includes the drop handler that maps zones to stages and refuses drops on a full dock: its source is not part of this model.
- `cn` is not modelled: it only wraps class-name libraries.
- Dialogs are not modelled as dialogs. `alert` is a returned text, and `confirm` is a boolean parameter.
- Focus is not modelled: the blur that follows Enter is a direct call, and unmounting does not fire a blur.
- Types.TaskCreatePayload is a datatype only: no create operation is among the modelled files.
- The wire text of the in-dock stage is taken to be `in_dock`, because the enumeration does not declare it.
- Types.WellFormed states the documented ranges of a task, but the back end is not modelled, so nothing guarantees that the cache holds only well-formed tasks.

## Findings

| source | as written | input that shows it | evidently intended | confidence | as-written member | corrected member |
|---|---|---|---|---|---|---|
| components/global-dock.tsx:16 | the dock filters on `TaskStatus.IN_DOCK`, which the enumeration at types/index.ts:11-16 does not declare, so every task is compared against `undefined` and the dock stays empty | a cached list holding one task whose status is the in-dock stage | the dock shows the in-dock tasks, in list order | not executed | GlobalDock.DockAlwaysEmptyAsWritten | GlobalDock.DockedTasks |
