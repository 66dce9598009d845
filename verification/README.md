# Verification model of the OTA framework

A Dafny 4.11 model of the stateful and arithmetic parts of the framework, with proofs about it.
`dafny verify dfyconfig.toml` checks everything.

Code that changes state is modelled by classes and methods, and each method is proved against a
function of the old state or against a history of what happened. The properties of those
functions and histories are lemmas over every input, every run or every reachable state. Clock
readings, random draws, fresh identifiers, upstream responses, callbacks that fail and the
database's row order are inputs. Calls are sequential.

| part | modules |
|---|---|
| calendar, ISO text, strings, sorting | `Calendar`, `IsoTime`, `Text`, `Sorting`, `Outcomes` |
| cron expressions | `CronField` (one field), `CronFaults` (what it refuses), `Cron` (expressions and the search for the next minute) |
| scheduler | `JobHistory` (what histories are possible), `Scheduler` (the class), `SchedulerRuns` (whole runs); `HookHistory`, `EventHooks` (event hooks and debouncing) |
| HTTP client | `RateLimit` (dual token bucket), `RateAccounts` (where tokens go), `Retry` (back-off loop) |
| audit log | `AuditFiles`, `Audit` (sink and reader), `AuditOrder`, `AuditQueries` (single criteria), `Grouping` |
| approval gates | `GateTrail`, `GateBatches`, `GateRuns` (whole runs), `GateMeaning` (entries and statuses by name), `Gates` (store and manager) |
| routine runs | `RunPolicy` (programs and what they do), `RunMeaning` (event by event), `RunAudit` (what the trail says), `Enforcement` (the class) |
| email triage | `TrustHistory`, `TriageSpec`, `DecisionLog`, `Triage` (state, promotion, tick) |
| capability bindings | `Bindings` (resolver), `InstallSpec`, `Validator` |
| markdown files | `Markdown` |

## Results worth knowing

The proofs fix the exact conditions under which some promises hold. Where the code and its own
comments disagree, the model follows the code.

* Cron: day and weekday must both match and 0 is Monday. The search covers four years, so an
  expression for leap-day Mondays can have a next minute that the search does not reach
  (`Cron.SweepTooShort`). With weekday `*` it succeeds exactly when a date of the common year is
  admitted, or 29 February is and one of its minutes lies within the sweep (`Cron.WeekdayStar`),
  which it does from every start between 1901 and 2095; with day `*` it succeeds from every start
  before the year 9999 (`Cron.DayStar`).
* Scheduler: a callback or a search that raises ends the loop task, and because the task is still
  referred to, `start` does nothing and `stop` raises. No job is fired by the loop any more until
  the process restarts (`SchedulerRuns.RaiseSilencesLoop`). For the same reason the loop never
  fires a minute twice for one registration (`SchedulerRuns.LoopAdvances`); ticks called one by
  one would, exactly when a tick finds a minute it has fired for already
  (`SchedulerRuns.TicksAdvance`).
* Scheduler: a registration refused for want of an upcoming minute stays in memory, and the row of
  an earlier process with it. A fire is for a matching minute after the registration exactly when
  some call since the registration has written the row (`SchedulerRuns.FireMatchesIffStored`).
  Otherwise the job is fired once for a minute that does not match or is not after the
  registration; if that fire finds no minute either, it ends the loop and leaves the row for the
  next process (`SchedulerRuns.RefusedJobFires`).
* Event hooks: debouncing spaces the fires of one registration. Across a new registration of the
  same id it holds exactly when the hook is registered with its last fire or a later one, or the
  clock has passed the debounce anyway (`HookHistory.DebouncedAcrossAdding`). The object that
  fired keeps its last fire and so stays debounced; a new object may fire at once.
* Rate limiter: a request for more tokens than a capacity never returns
  (`RateLimit.TooLargeNeverGranted`).
* Audit reader: month pruning reads year and month off the bounds without converting them to UTC.
  The scan is complete on every log exactly when that changes no month that matters
  (`AuditOrder.CompleteIffFaithful`); bounds in UTC are always fine.
* Gates: the similarity query looks at the status alone, so a plain one-off approval is remembered
  as well (`GateTrail.DecisionRemembers`), and the `approval_mode` column is never written.
* Email triage: opting a template out after its promotion does not stop automatic sending
  (`TrustHistory.OptOutDoesNotDemote`); only an edit does. A template named in the configuration
  is opted in again by every tick.
* Install validation: a report without issues guarantees resolution of every verb only if some
  dotted prefix of the capability is bound (`InstallSpec.AllVerbsResolve`), and guarantees the
  adapter only if the capability itself is bound (`InstallSpec.AllVerbsExamined`). A binding for a
  single verb passes (`InstallSpec.OneVerbIsNotEnough`).
* An adapter without entry point or factory passes install validation although it cannot be loaded
  (`InstallSpec.ValidatedMayNotLoad`).
* Markdown: a document comes back unchanged exactly when its body holds no carriage return and, for
  empty front matter, does not itself begin with a fenced block (`Markdown.RoundTrip`,
  `Markdown.BareRoundTrip`).

## Model

| member | source | states |
|---|---|---|
| Calendar.DatesInOrder | ota_core/automation/cron.py:87-105 | day numbers and calendar dates of the proleptic Gregorian calendar are in the same order |
| Calendar.DateRoundTrip | ota_core/automation/cron.py:87-105 | a valid date is the date of its own day number |
| IsoTime.IsoOrder | ota_core/automation/scheduler.py:202-208 | byte order of two UTC isoformat texts is chronological order, although the fraction has six digits or none |
| IsoTime.IsoAtMost | ota_routines/email_triage/state.py:374-390 | the comparison in a stored-text query holds exactly when the instants compare so |
| IsoTime.IsoInjective | ota_core/automation/scheduler.py:202-208 | different instants have different texts |
| IsoTime.IsoShape | ota_core/automation/scheduler.py:202-208 | the text spelled out: date, T, time, a fraction of six digits unless it is zero, +00:00 |
| CronField.CollectSpan | ota_core/automation/cron.py:50-56 | stepping through a range adds exactly its values, or reports the first one outside the limits |
| CronField.ParseField | ota_core/automation/cron.py:20-60 | the result is the union of what the parts denote, or the error of the first faulty part |
| CronField.OutcomeInRange | ota_core/automation/cron.py:54-60 | a field that reads is non-empty and within its limits; the empty-field error is unreachable |
| CronField.OutcomeUnique | ota_core/automation/cron.py:20-60 | the declarative reading of a field has one outcome per text |
| CronField.PrintedFieldReads | ota_core/automation/cron.py:20-60 | every list of stars, numbers, ranges and steps reads back as the values it stands for |
| CronField.PrintedSetReads | ota_core/automation/cron.py:20-60 | the comma-joined decimal members of any non-empty subset of the limits read back as that subset |
| CronFaults.RangeMeans | ota_core/automation/cron.py:37-46 | a text with a dash is a range of two numbers; a missing number and a reversed range are their own errors |
| CronFaults.ValueMeans | ota_core/automation/cron.py:34-51 | a text without a dash is `*` or one number, or an error |
| CronFaults.StepMeans | ota_core/automation/cron.py:23-33 | after a slash stands a positive number; zero, negative and unreadable steps are their own errors; without a slash the step is 1 |
| CronFaults.PartMeans | ota_core/automation/cron.py:23-56 | step, base and limits are checked in that order; the first number outside the limits is reported; otherwise the part denotes every step-th number of its range |
| CronFaults.SignsRead | ota_core/automation/cron.py:28-51 | an integer may carry a sign |
| CronFaults.UnderscoreRead | ota_core/automation/cron.py:28-51 | an underscore between two digits is ignored |
| CronFaults.SpaceBehindIgnored | ota_core/automation/cron.py:28-51 | white space behind a number is ignored |
| Cron.Parse | ota_core/automation/cron.py:71-85 | five fields are read left to right with their own limits; the first faulty one decides the error |
| Cron.ParsedIsValid | ota_core/automation/cron.py:71-85 | every field of a parsed expression is non-empty and within its limits |
| Cron.ParseUnique | ota_core/automation/cron.py:71-85 | one text means one expression |
| Cron.PrintedExprReads | ota_core/automation/cron.py:71-85 | the text of a valid expression parses to that expression and to nothing else |
| Cron.FindNext | ota_core/automation/cron.py:96-105 | the loop computes the bounded search from the following whole minute |
| Cron.NextIsLeast | ota_core/automation/cron.py:96-105 | the search returns m exactly when m is the least accepted minute strictly after dt and lies within the sweep |
| Cron.NextExact | ota_core/automation/cron.py:96-105 | a failed search means that no minute of the sweep is accepted; it overflows exactly when the last representable minute cuts the sweep short |
| Cron.NextMonotone | ota_core/automation/cron.py:96-105 | a later start never finds an earlier minute |
| Cron.WeekdayStarYearly | ota_core/automation/cron.py:96-105 | with weekday `*` and an admitted date of the common year the search succeeds |
| Cron.WeekdayStarLeap | ota_core/automation/cron.py:96-105 | with weekday `*`, 29 February alone is found from any start if and only if one of its minutes at an admitted time lies between the start and the end of the sweep |
| Cron.WeekdayStar | ota_core/automation/cron.py:96-105 | with weekday `*` the search succeeds, from every start before the year 9999, if and only if a date of the common year is admitted, or 29 February is and one of its minutes lies within the sweep |
| Cron.LeapMinuteThisCentury | ota_core/automation/cron.py:96-105 | from every start between 1901 and 2095 a minute of 29 February at an admitted time lies within the sweep |
| Cron.DayStar | ota_core/automation/cron.py:96-105 | with day `*` the search succeeds from every start before the year 9999 |
| Cron.ImpossibleDate | ota_core/automation/cron.py:96-105 | an expression admitting no calendar date never finds a minute |
| Cron.SweepTooShort | ota_core/automation/cron.py:96-105 | leap-day Mondays searched from 1 March 2024: a later matching minute exists, in 2044, and the search fails |
| JobHistory.TextSelectsDue | ota_core/automation/scheduler.py:202-208 | the text comparison selects exactly the rows whose minute has come |
| JobHistory.FireColumns | ota_core/automation/scheduler.py:219-225 | the row after a fire, column by column: the clock before the call, failed or succeeded, the new minute; expression and other rows stay |
| Scheduler.Scheduler.constructor | ota_core/automation/scheduler.py:80-94 | a new process starts with no jobs in memory and the table as it was left |
| Scheduler.Scheduler.RegisterCron | ota_core/automation/scheduler.py:96-113 | a duplicate or unreadable expression changes nothing; otherwise the job is in memory and the row shows its next minute, unless there is none |
| Scheduler.Scheduler.DeregisterCron | ota_core/automation/scheduler.py:115-120 | job and row of exactly that id disappear |
| Scheduler.Scheduler.FireCron | ota_core/automation/scheduler.py:210-227 | one call; the row is rewritten from the end of the call also when the callback fails, and unchanged when the search fails; either failure raises |
| Scheduler.Scheduler.Trigger | ota_core/automation/scheduler.py:147-151 | a manual fire behaves as a loop fire and an unknown job changes nothing |
| Scheduler.Scheduler.FetchDue | ota_core/automation/scheduler.py:202-208 | exactly the due rows, each once |
| Scheduler.Scheduler.FireDue | ota_core/automation/scheduler.py:193-200 | a job found due at the start of a tick is still due when its turn comes, and fires once |
| Scheduler.Scheduler.Tick | ota_core/automation/scheduler.py:193-200 | each due job in memory fires once and no other; the first fire that raises is the last of the tick, and without one every due job has fired |
| Scheduler.Scheduler.Start | ota_core/automation/scheduler.py:172-176 | a task is started only if there is none, not even an ended one |
| Scheduler.Scheduler.Stop | ota_core/automation/scheduler.py:178-183 | stopping a running task forgets it; stopping one that has ended raises and keeps it |
| Scheduler.Scheduler.RunRound | ota_core/automation/scheduler.py:185-191 | the task ends in exactly the round whose tick raised |
| SchedulerRuns.DueIsLeast | ota_core/automation/scheduler.py:106-113 | in every history the stored minute is the least matching one after the instant it was computed at |
| SchedulerRuns.AfterFire | ota_core/automation/scheduler.py:219-225 | after any fire of any job in memory the row is the registration's own and shows a minute after the fire if and only if there is a row and the search found a minute, whether or not the callback failed |
| SchedulerRuns.TicksAdvance | ota_core/automation/scheduler.py:193-227 | in every history, whoever calls the ticks and whether or not the registration was accepted, the minutes consumed have begun and never go back; they strictly increase if and only if every tick found a minute not yet fired for |
| SchedulerRuns.TicksFit | ota_core/automation/scheduler.py:96-227 | in every history the minutes consumed before a call since the registration wrote the row miss, and all later ones match, lie after the registration and have begun |
| SchedulerRuns.FireMatchesIffStored | ota_core/automation/scheduler.py:96-227 | a fire of a tick is for a matching minute after the registration that has begun if and only if some call since the registration had written the row |
| SchedulerRuns.LoopNeverRepeats | ota_core/automation/scheduler.py:185-227 | ticks run by the loop always find a minute not yet fired for, and at most one of them per registration fires for a stale one |
| SchedulerRuns.LoopAdvances | ota_core/automation/scheduler.py:185-227 | fires of the loop consume strictly increasing minutes in every history, failing callbacks and searches and refused registrations included |
| SchedulerRuns.FiresAtMostMatches | ota_core/automation/scheduler.py:185-227 | for every registration, accepted or refused, there are never more fires of the loop than matching minutes since, plus one for a first fire for a stale minute |
| SchedulerRuns.PerennialNeverRepeats | ota_core/automation/scheduler.py:193-227 | for day `*`, or weekday `*` with a date of the common year, even ticks called one by one never repeat a minute and never fire for a stale one |
| SchedulerRuns.OnlyCallbackRaises | ota_core/automation/scheduler.py:210-227 | a fire of such a job raises if and only if its callback does |
| SchedulerRuns.RaiseSilencesLoop | ota_core/automation/scheduler.py:172-191 | after a fire of the loop that raised, no job at all is fired by the loop before a restart |
| SchedulerRuns.CallbackEndsLoop | ota_core/automation/scheduler.py:193-227 | in every history with a running loop, any due job in memory can end it by a callback that raises |
| SchedulerRuns.ConsecutiveFires | ota_core/automation/scheduler.py:185-227 | late ticks coalesce: with manual fires and other jobs between them, the second of two consecutive fires of the loop is for the first matching minute after the end of the last fire that stored one |
| SchedulerRuns.RefusedJobFires | ota_core/automation/scheduler.py:96-113 | after any refused registration the loop fires the job for the minute of an old row, which misses; without a next minute that ends the loop and leaves the row as the next process finds it, with one the row is the registration's own from then on |
| SchedulerRuns.RefusedExpression | ota_core/automation/cron.py:71-105 | a text that parses, has matching minutes and is refused on 1 March 2024 |
| SchedulerRuns.StaleRow | ota_core/automation/scheduler.py:80-113 | such a row is left by any process that registered the job and ended |
| EventHooks.EventScheduler.RegisterEventHook | ota_core/automation/scheduler.py:122-132 | a known id changes nothing; otherwise the hook comes last in the offering order |
| EventHooks.EventScheduler.DeregisterEventHook | ota_core/automation/scheduler.py:134-139 | exactly the hook with that id is removed |
| EventHooks.EventScheduler.FireEvent | ota_core/automation/scheduler.py:153-170 | exactly the hooks of the event's type whose history permits it fire, show the fire and are recorded, in order up to the first callback that raises, which is not recorded; the count is the number of those hooks |
| HookHistory.FiresAreWanted | ota_core/automation/scheduler.py:156-169 | a hook offered an event fires if and only if it is for the event's type and its history permits a fire; as many fires as such hooks |
| HookHistory.OtherTypeUntouched | ota_core/automation/scheduler.py:157-158 | a hook for another type gets no fire and keeps its last one |
| HookHistory.FiresAreSpaced | ota_core/automation/scheduler.py:159-163 | any two fires of one registration are at least the debounce apart, over every history |
| HookHistory.FirstFireAllowed | ota_core/automation/scheduler.py:122-163 | just after its registration a hook may fire if and only if the last fire it was registered with is a debounce ago |
| HookHistory.DebouncedAcrossAdding | ota_core/automation/scheduler.py:122-163 | every next fire after a new registration keeps the debounce from an earlier fire if and only if the hook comes with that fire or a later one, or the clock has passed the debounce anyway |
| HookHistory.SameObjectStaysDebounced | ota_core/automation/scheduler.py:66-72 | the hook object that fired stays debounced when it is registered again |
| RateLimit.TokenBucket.constructor | ota_core/http/client.py:22-60 | both levels start full with the rates and default capacities of the policy |
| RateLimit.FaultMeans | ota_core/http/client.py:29-37 | which policies are refused, and with which error |
| RateLimit.TokenBucket.TryOnce | ota_core/http/client.py:62-80 | one round refills both levels and takes the tokens from both or from neither, and nothing more |
| RateLimit.TokenBucket.Acquire | ota_core/http/client.py:62-99 | a request below one is rejected unchanged; otherwise the rounds run until both levels can pay |
| RateLimit.LevelsStayInRange | ota_core/http/client.py:62-99 | in every run both levels stay between zero and their capacity |
| RateLimit.CallIsRun | ota_core/http/client.py:62-80 | a call takes its tokens from the level exactly once if it returns and never otherwise |
| RateLimit.SlidingWindow | ota_core/http/client.py:40-99 | in every run and every window both levels grant at most capacity plus rate times length |
| RateLimit.AcquireWindow | ota_core/http/client.py:40-99 | the same over any sequence of acquire calls, finished or waiting |
| RateLimit.PayableAfterWait | ota_core/http/client.py:69-80 | a level can pay at t if and only if the computed wait has passed |
| RateLimit.SecondRoundGrants | ota_core/http/client.py:62-80 | after a sleep of at least the computed wait the second round grants |
| RateLimit.EarliestInstant | ota_core/http/client.py:69-80 | the computed wait ends at the first instant at which both levels can pay |
| RateLimit.TooLargeNeverGranted | ota_core/http/client.py:62-80 | a request above a capacity is never granted |
| RateLimit.AcquireReturns | ota_core/http/client.py:62-80 | acquire returns, by its second round, if and only if the request fits both capacities |
| RateAccounts.TokensConserved | ota_core/http/client.py:62-99 | over any draws the tokens at the end are those at the start plus what time yielded minus what was drawn and what spilled over a full level |
| RateAccounts.SpillsIffFull | ota_core/http/client.py:82-99 | nothing spills if and only if no refill finds the level over its capacity |
| RateAccounts.AcquireConserves | ota_core/http/client.py:62-99 | a call costs both levels exactly its tokens if it returns and nothing otherwise |
| RateAccounts.GrantAtOnce | ota_core/http/client.py:62-80 | at the instant of a refill a request is granted if and only if both levels hold it, and leaves the rest |
| RateAccounts.BurstGranted | ota_core/http/client.py:62-80 | a burst of requests is granted at one instant, request by request, if and only if both levels hold all of it |
| Retry.Request | ota_core/http/client.py:158-221 | every attempt but the last was retryable and slept its delay; the outcome is that of the first non-retryable attempt or comes after exactly max_retries + 1; at most max_retries + 1 requests are sent; a call that slept n times without a readable Retry-After slept at most n caps and at most base times (2^n - 1); the raise after the loop needs negative max_retries |
| Retry.AttemptsCounted | ota_core/http/client.py:174-221 | a call that slept n times sent n + 1 requests |
| Retry.SleepsAreBrief | ota_core/http/client.py:120-122 | delays drawn within their ceilings sum to at most n caps and at most base times (2^n - 1) |
| Retry.DelayNotNegative | ota_core/http/client.py:102-122 | no sleep is negative, also for a Retry-After date in the past |
| Retry.DelayMeans | ota_core/http/client.py:102-122 | the delay is the Retry-After seconds, the time left to its date, or the drawn fraction of the ceiling, and never negative for the first two |
| Retry.CeilingMeans | ota_core/http/client.py:120-122 | the ceiling is the lesser of the cap and the base doubled with every attempt |
| Retry.RetryableMeans | ota_core/http/client.py:174-203 | network faults, timeouts and the configured statuses are tried again, other faults are not |
| Audit.Sink.RotateIfNeeded | ota_core/audit/sink.py:114-127 | the file of the event's month is open afterwards and no month's contents change |
| Audit.Sink.Emit | ota_core/audit/sink.py:67-112 | exactly one line is added, to the file of the event's UTC month, whatever was written before |
| Audit.Sink.Close | ota_core/audit/sink.py:135-140 | nothing but the open file is forgotten |
| Audit.Reader.MonthlyFiles | ota_core/audit/reader.py:103-112 | exactly the files with a month's name, in month order, for any listing order |
| Audit.Reader.ScanFile | ota_core/audit/reader.py:131-143 | the matching events of a file, in file order |
| Audit.Reader.ScanMonth | ota_core/audit/reader.py:114-129 | a file contributes exactly the emitted events of its month that survive pruning and filter |
| Audit.Reader.Scan | ota_core/audit/reader.py:126-129 | the scan is the grouping by month of everything emitted, not of what the files happen to hold |
| Audit.Reader.ByTrace | ota_core/audit/reader.py:145-146 | exactly the emitted events of the trace |
| Audit.Reader.ByRoutineRun | ota_core/audit/reader.py:148-149 | exactly the emitted events of the run |
| Audit.Reader.Count | ota_core/audit/reader.py:151-152 | the number of emitted events that survive pruning and filter |
| AuditFiles.NameRoundTrip | ota_core/audit/sink.py:114-127 | the name a month is written under is read back as that month |
| AuditFiles.ShapedNameReads | ota_core/audit/reader.py:83-112 | four digits, a dash, two digits and .jsonl are read as the month, also with a newline behind |
| AuditFiles.ReadNameIsShaped | ota_core/audit/reader.py:83-112 | no other names are read as a month |
| AuditFiles.NameShape | ota_core/audit/sink.py:114-127 | the name spelled out |
| AuditFiles.AppendStored | ota_core/audit/sink.py:104-112 | after each append every month's file holds exactly the month's events |
| Grouping.StableSort | ota_core/audit/reader.py:103-129 | grouping keeps every element as often as it occurs, sorted by group, each group in its original order |
| AuditOrder.ScanIsStableSort | ota_core/audit/reader.py:126-143 | the scan is the stable sort by month of the accepted emitted events |
| AuditOrder.NothingLost | ota_core/audit/reader.py:114-143 | with faithful bounds pruning loses no matching event |
| AuditOrder.UtcBoundsFaithful | ota_core/audit/reader.py:114-124 | bounds in UTC are faithful |
| AuditOrder.CompleteIffFaithful | ota_core/audit/reader.py:114-124 | the scan is complete on every log if and only if the bounds are faithful |
| AuditQueries.SeverityYields | ota_core/audit/reader.py:50-72 | a least severity selects the events at its place or later in the order debug, info, warn, error, critical |
| AuditQueries.NamedSeverities | ota_core/audit/reader.py:67-72 | of two of the five severities, one passes the other as least if and only if it does not come before it |
| AuditQueries.UnknownIsLeast | ota_core/audit/reader.py:67-72 | an unknown severity stands with debug |
| AuditQueries.TypesYield | ota_core/audit/reader.py:45-64 | a set of types selects the events of those types, and the empty set every event |
| AuditQueries.WindowYields | ota_core/audit/reader.py:45-64 | UTC bounds select the events from one to the other, both included |
| AuditQueries.OffsetMeans | ota_core/audit/reader.py:45-49 | a bound with an offset accepts what the UTC bound of the same instant accepts |
| AuditQueries.TextYields | ota_core/audit/reader.py:45-64 | the text search selects what it accepts |
| AuditQueries.CriteriaTogether | ota_core/audit/reader.py:45-64 | a filter accepts an event if and only if each of its criteria does |
| Gates.GateStore.HasRememberedApproval | ota_core/policy/gates.py:232-246 | true if and only if some row of the class is approved in any of the three ways |
| Gates.GateStore.ListPending | ota_core/policy/gates.py:210-222 | exactly the pending gates, each once, oldest first |
| Gates.GateStore.UpdateDecision | ota_core/policy/gates.py:248-272 | only a pending row changes; an unknown or decided one is refused unchanged |
| Gates.GateManager.RecordDecision | ota_core/policy/gates.py:430-469 | row and trail change together or not at all, and keep agreeing |
| Gates.GateManager.ProposeForReview | ota_core/policy/gates.py:310-381 | the proposing step of a run; one row and one gate.proposed entry, followed by gate.auto_approved_by_similarity if and only if the class is remembered and the mode is offered; a given similarity key takes precedence over the function |
| Gates.GateManager.Decide | ota_core/policy/gates.py:383-407 | the deciding step of a run; taken exactly for pending gates and the three allowed statuses, each with its own entry |
| Gates.GateManager.ExpireDue | ota_core/policy/gates.py:409-428 | the expiring step of a run; afterwards no pending gate is due, exactly the returned gates changed, each has one gate.expired entry, and no decision was refused |
| Gates.NewGateMeans | ota_core/policy/gates.py:321-351 | what a new gate records of its proposal; it is due exactly from its number of seconds after its creation on |
| Gates.ResultMeans | ota_core/policy/gates.py:442-452 | the stored result is the payload with the mode's name and the reason added, or nothing |
| GateTrail.ProposeStep | ota_core/policy/gates.py:328-365 | a proposal keeps the agreement of rows and trail and all earlier rows |
| GateTrail.DecideStep | ota_core/policy/gates.py:430-469 | a decision keeps it: one proposed entry per gate and one decision entry if and only if it is decided |
| GateRuns.ApplyKeeps | ota_core/policy/gates.py:310-468 | every proposal, decision and expiry, taken or refused, keeps the agreement, the decided rows and the trail |
| GateRuns.RunIsSound | ota_core/policy/gates.py:310-468 | in every run each gate has one proposed entry and one decision entry if and only if it is decided, and every automatic approval has its origin |
| GateRuns.RunKeeps | ota_core/policy/gates.py:248-272 | from any point of a run to its end decided rows never change, no gate disappears and the trail only grows |
| GateRuns.ApprovedByStep | ota_core/policy/gates.py:232-246 | a class counts as approved after a run if and only if some step of it was a person's approval of a pending gate of the class |
| GateRuns.ApprovedForGood | ota_core/policy/gates.py:232-272 | a class approved by a person at some point of a run is approved at its end, whatever the later steps |
| GateRuns.ApprovedAtOnce | ota_core/policy/gates.py:310-381 | after any run a new proposal is approved at once if and only if it offers to be remembered and a person approved a gate of its class at any earlier step |
| GateRuns.ExpireAllExpires | ota_core/policy/gates.py:409-428 | expiring a list of gates decides exactly the due ones among them, in order |
| GateTrail.RememberedMeansHuman | ota_core/policy/gates.py:232-246 | the query, which also accepts automatic approvals, holds if and only if a person approved a gate of the class |
| GateTrail.AutoApprovalHasOrigin | ota_core/policy/gates.py:366-381 | every automatic approval comes after the entry of a human approval with the same routine, gate and similarity key |
| GateTrail.DecisionRemembers | ota_core/policy/gates.py:232-246 | a class becomes remembered by any human approval, whatever the approval mode |
| GateTrail.ClassMeans | ota_core/policy/gates.py:232-246 | two gates share a class if and only if they agree in routine, gate and similarity key |
| GateTrail.DecidedMeans | ota_core/policy/gates.py:248-272 | a decision sets status, result and time of a gate and nothing else |
| GateMeaning.EntriesByName | ota_core/policy/gates.py:310-468 | after any run, and for each of the six entry types by name, a gate has an entry of the type if and only if its row says so |
| GateMeaning.StatusComesFromStep | ota_core/policy/gates.py:310-468 | a gate has a decided status if and only if some step of the run gave it that one: rejected by a person while pending, expired when found due, and so on |
| GateMeaning.EntriesComeFromSteps | ota_core/policy/gates.py:310-468 | the same for the entries: a rejected one if and only if a person rejected the gate, an expired one if and only if an expiry found it due |
| RunPolicy.Exec | ota_core/policy/l0b.py:77-130 | after any program the active context is the one before it |
| RunMeaning.OpenMeans | ota_core/policy/l0b.py:77-92 | a run enters with all counters zero, as the active one, and with its start event |
| RunMeaning.RunEnds | ota_core/policy/l0b.py:77-130 | for every body, a run raises if and only if its body does, and ends with run_failed or run_completed accordingly |
| RunMeaning.LastEventTells | ota_core/policy/l0b.py:94-126 | a run's last event is run_completed with its counters if and only if it did not raise |
| RunMeaning.VerbEnds | ota_core/policy/__init__.py:82-97 | inside a run a call begins with its invoked event, raises if and only if the dispatch does, and its finished event says so |
| RunMeaning.VerbOutside | ota_core/policy/__init__.py:83-85 | outside a run a call is its dispatch alone |
| RunMeaning.InvokeMeans | ota_core/policy/l0b.py:253-276 | an invocation counts one call on its run and changes no other counter |
| RunMeaning.ApproachMeans | ota_connect/binding/dispatch.py:102-119 | what stands between a verb and its adapter, in order, and the event that each refusal leaves |
| RunMeaning.ReserveMeans | ota_core/policy/l0b.py:173-226 | a reservation is refused if and only if it is made outside its run or would exceed a limit, and the event names the first such limit |
| RunMeaning.RecordMeans | ota_core/policy/l0b.py:228-251 | the three counters of the active run grow by the three amounts, nothing else changes |
| Enforcement.Runtime.EnforceIntegration | ota_core/policy/l0b.py:132-149 | refused integrations leave one event, permitted ones none |
| Enforcement.Runtime.EnforceScopes | ota_core/policy/l0b.py:151-171 | granted if and only if every required scope is declared; otherwise the event lists the missing ones |
| Enforcement.Runtime.ApproachAdapter | ota_connect/binding/dispatch.py:102-119 | an adapter is reached only past configuration, binding, loading, integration and scopes, in that order |
| Enforcement.Runtime.RecordVerbInvocation | ota_core/policy/l0b.py:253-276 | a fresh id, one more tool call on the active run, one invoked event |
| Enforcement.Runtime.ReserveLlmBudget | ota_core/policy/l0b.py:173-226 | raises if and only if the first exceeded limit, input then output then cost, leaves its event |
| Enforcement.Runtime.RecordLlmUsage | ota_core/policy/l0b.py:228-251 | the counters grow by exactly the reported amounts |
| Enforcement.Runtime.RoutineRun | ota_core/policy/l0b.py:77-130 | for every body the last event is run_failed if it raised and run_completed with the run's counters if not; nothing happens for an invalid trace |
| Enforcement.Runtime.CallVerb | ota_core/policy/__init__.py:80-98 | inside a run the last event is the finished event of the invocation, succeeded if and only if the call did not raise |
| Enforcement.Runtime.Dispatch | ota_connect/binding/dispatch.py:89-138 | the adapter's own code runs only if it was reached |
| Enforcement.Runtime.Execute | ota_core/policy/l0b.py:77-304 | the imperative code and the program semantics agree on every nested program |
| RunAudit.ExecKeeps | ota_core/policy/l0b.py:77-304 | every program keeps the trail well bracketed and leaves open exactly what it found open |
| RunAudit.StartsAreEndsPlusOpen | ota_core/policy/l0b.py:77-130 | in a well-bracketed trail every start and every invocation is ended once or still open |
| RunAudit.WholeProgram | ota_core/policy/l0b.py:77-304 | one start and one end per run, one end per invocation with its id, exact counters in completion events, adapters called only as permitted |
| RunAudit.ReachedIffPermitted | ota_connect/binding/dispatch.py:109-119 | inside a run an adapter is reached if and only if the run permits its integration and scopes |
| RunAudit.OnlyOwnRunBilled | ota_core/policy/l0b.py:228-251 | a program changes the usage of no earlier run but the one it is in, and not even of that if it records nothing there |
| RunAudit.BudgetsHold | ota_core/policy/l0b.py:173-251 | if each recorded usage was reserved before, with anything in between that records nothing else on the run, no run exceeds its budget |
| TrustHistory.PromotedStep | ota_routines/email_triage/state.py:224-251 | a template is promoted if and only if some approval since the last edit met the threshold while it was opted in |
| TrustHistory.RowStep | ota_routines/email_triage/state.py:211-287 | the incremental update of every column equals its definition over the whole feedback history |
| TrustHistory.FeedbackAgrees | ota_routines/email_triage/state.py:211-287 | feedback on one template keeps every row equal to the fold of that template's own history |
| TrustHistory.AutoSendJustified | ota_routines/email_triage/helpers.py:78-89 | automatic sending holds if and only if there are a threshold of unedited approvals since the last edit and an opt-in, an allow-list entry or a promotion |
| TrustHistory.OptOutDoesNotDemote | ota_routines/email_triage/state.py:211-222 | after an opt-out automatic sending depends on the earlier promotion alone |
| TrustHistory.EditDemotes | ota_routines/email_triage/state.py:253-287 | right after an edit nothing is sent automatically |
| Triage.EmailTriageState.MarkProcessed | ota_routines/email_triage/state.py:155-175 | the pair is recorded, and the answer says whether it was new |
| Triage.EmailTriageState.OptInAutoSend | ota_routines/email_triage/state.py:211-222 | the tables agree with the history extended by the opt-in or opt-out |
| Triage.EmailTriageState.RecordUneditedApproval | ota_routines/email_triage/state.py:224-251 | the tables agree with the history extended by the approval |
| Triage.EmailTriageState.RecordEdit | ota_routines/email_triage/state.py:253-287 | the tables and the edit log agree with the history extended by the edit |
| Triage.EmailTriageState.Trust | ota_routines/email_triage/state.py:289-296 | the row returned is the fold of the template's history, also for a template never seen |
| Triage.EmailTriageState.RecentDecisions | ota_routines/email_triage/state.py:374-390 | the text query returns exactly the decisions made at or after the cutoff with a wanted action, in the order of time |
| Triage.TrustPromotion.constructor | ota_routines/email_triage/helpers.py:67-76 | every allowed template is opted in exactly once |
| Triage.TrustPromotion.Evaluate | ota_routines/email_triage/helpers.py:78-89 | the decision is the one the template's feedback history implies |
| Triage.EmailTriage.ProcessOne | ota_routines/email_triage/run.py:68-150 | tables, outbox and outcome follow the specification of one email; a raise leaves them as they were |
| Triage.EmailTriage.Tick | ota_routines/email_triage/run.py:36-65 | a tick is the opt-ins followed by the page in order, abandoned at the first raise |
| TriageSpec.ClassifyIsFirstHit | ota_routines/email_triage/run.py:167-186 | the classification is the name of the first category with a keyword in subject or body |
| TriageSpec.HitsMeans | ota_routines/email_triage/run.py:181-185 | a category is hit if and only if one of its keywords occurs in the subject or in the body |
| TriageSpec.JudgeMeans | ota_routines/email_triage/run.py:85-104 | the template is that of the first category of the classified name; "skip" and a missing template are told apart |
| TriageSpec.NoHitIsSkipped | ota_routines/email_triage/run.py:167-186 | an email that no category hits is skipped |
| TriageSpec.OutcomeLeaves | ota_routines/email_triage/run.py:78-150 | for each outcome its decision row, mark, reply and approval, field by field |
| TriageSpec.OutcomeMeans | ota_routines/email_triage/run.py:78-150 | each outcome holds if and only if its condition on the tables and the feedback history holds; a reply is sent if and only if it is earned and wanted |
| TriageSpec.ProcessKeeps | ota_routines/email_triage/run.py:78-150 | one decision row per processed key, one auto_sent row per reply and each reply earned, for every email |
| TriageSpec.RunSendsOnce | ota_routines/email_triage/run.py:52-150 | over any ticks and feedback each key is answered at most once, replies are the auto_sent rows, each earned by the history at that moment |
| TriageSpec.SummaryAdds | ota_routines/email_triage/run.py:51-65 | scanned equals drafted plus auto_sent plus skipped plus duplicates, and auto_sent equals the replies added |
| TriageSpec.SummaryCounts | ota_routines/email_triage/run.py:51-65 | each counter of a finished tick is the number of emails with that outcome |
| TriageSpec.MarkedExactly | ota_routines/email_triage/run.py:78-150 | a finished tick marks exactly the emails it settles; a missing template leaves the email unmarked |
| TriageSpec.SecondTickIsIdle | ota_routines/email_triage/run.py:78-80 | a finished tick repeated over the same page changes nothing, also after more feedback |
| Bindings.ResolveIsLongest | ota_connect/binding/resolver.py:41-58 | the answer is the longest bound dotted prefix of capability.verb, and there is none if and only if none is bound |
| Bindings.LongestUnique | ota_connect/binding/resolver.py:41-58 | that prefix is unique |
| Bindings.ResolveIsWalk | ota_connect/binding/resolver.py:41-58 | the sorted scan agrees with dropping trailing segments one at a time |
| Bindings.TieBreakIrrelevant | ota_connect/binding/resolver.py:33-35 | any order of the keys with the longer ones first gives the same answer |
| Bindings.SecondTestNeverDecides | ota_connect/binding/resolver.py:51-57 | whenever the second test holds the first one has held |
| Bindings.SortedLongestFirst | ota_connect/binding/resolver.py:33-35 | the constructor's order puts longer keys first |
| InstallSpec.FoundIffKnown | ota_core/integration_source/source.py:68-109 | after an error-free discovery the manifest of an adapter is found if and only if its id is listed, and it is the one that was validated |
| InstallSpec.FindMeans | ota_core/integration_source/source.py:94-109 | looking an adapter up fails for any broken manifest, and otherwise by how many readable ones have its id |
| InstallSpec.DiscoverMeans | ota_core/integration_source/source.py:78-92 | discovery fails for any broken manifest, and otherwise for an id that occurs twice |
| InstallSpec.LoadMeans | ota_connect/binding/registry.py:78-92 | loading fails as looking up does, or because the adapter does not instantiate |
| InstallSpec.RelevantMeans | ota_connect/binding/validator.py:101-104 | a key is relevant if and only if the capability is a dotted prefix of it |
| InstallSpec.InstantiatesMeans | ota_connect/binding/registry.py:94-117 | a factory's outcome decides before the entry point, which must be there, have its form and import |
| InstallSpec.EntrypointMeans | ota_connect/binding/registry.py:108-111 | an entry point is two non-empty texts around the first colon |
| InstallSpec.IntegrationIsLastNamed | ota_connect/binding/validator.py:130-132 | of integrations with the same id the last counts |
| InstallSpec.NothingReportedIffFine | ota_connect/binding/validator.py:89-122 | no issue for a capability if and only if it has a relevant key and every one of them names a known adapter that claims it |
| InstallSpec.NoDependencyReportedIffFine | ota_connect/binding/validator.py:125-152 | no issue for a dependency if and only if its integration, level and scopes all exist |
| InstallSpec.ValidatedIsAssigned | ota_connect/binding/validator.py:89-122 | for a validated capability that is itself bound every verb resolves to a discoverable adapter that claims it, and is served if and only if that adapter instantiates |
| InstallSpec.ValidatedMayNotLoad | ota_connect/binding/registry.py:78-117 | an adapter with neither entry point nor factory passes validation and serves no verb |
| InstallSpec.AllVerbsExamined | ota_connect/binding/validator.py:101-122 | every verb is answered by a key the validator looked at if and only if the capability itself is bound |
| InstallSpec.AllVerbsResolve | ota_connect/binding/resolver.py:41-58 | every verb resolves if and only if some dotted prefix of the capability is bound |
| InstallSpec.OneVerbIsNotEnough | ota_connect/binding/validator.py:101-122 | a binding for one verb is reported clean although other verbs fail |
| Validator.CheckCapability | ota_connect/binding/validator.py:99-122 | exactly the issues of the capability |
| Validator.CheckCapabilityBindings | ota_connect/binding/validator.py:89-122 | exactly the issues of the required capabilities, or the error of the discovery |
| Validator.CheckIntegrationDependencies | ota_connect/binding/validator.py:125-152 | exactly the issues of the dependencies |
| Validator.ValidateRoutineInstall | ota_connect/binding/validator.py:46-66 | exactly those issues, and none if and only if every capability and every dependency is fine |
| Markdown.Folder.WriteMarkdown | ota_core/storage/markdown.py:40-64 | the file is replaced whole or nothing changes, and no temporary file is left |
| Markdown.Folder.ReadMarkdown | ota_core/storage/markdown.py:20-37 | the parse of the text after universal newline translation, with its two errors |
| Markdown.FirstClosingFence | ota_core/storage/markdown.py:25-30 | in a written document the first closing fence found is the one written after the front matter |
| Markdown.LineEndingsUnified | ota_core/storage/markdown.py:21 | whichever of the three line endings a text uses, it is read with newlines instead |
| Markdown.BlockIsParsed | ota_core/storage/markdown.py:25-37 | a fenced block goes to the loader without its last newline, with one result for each of its four answers, and the body is what follows the closing fence |
| Markdown.UnfencedIsBody | ota_core/storage/markdown.py:22-27 | a text that does not begin with a fenced block is all body |
| Markdown.WrittenIsRead | ota_core/storage/markdown.py:20-48 | front matter and body come back, the body with its line endings as newlines, however many fence lines it holds |
| Markdown.RoundTrip | ota_core/storage/markdown.py:20-48 | the document comes back unchanged if and only if the body has no carriage return |
| Markdown.BareRoundTrip | ota_core/storage/markdown.py:20-48 | without front matter the body comes back if and only if it has no carriage return and does not begin with a fenced block |

## Left out

- Floating point: the rate limiter and the back-off use exact reals, so rounding, infinities and NaN (also in a Retry-After header) are not modelled.
- Concurrency: one scheduler task, one decider at a time, callbacks that do not call back into the scheduler; the lock of the token bucket is taken as serialised calls.
- SQLite, the file system, asyncio, httpx: tables are maps and sequences, files are sequences of lines; the order of equal sort keys is the database's.
- JSON, YAML, pydantic and hashing: codecs are parameters; the content hash and the lower-cased texts of an email are inputs.
- Time zones other than UTC for cron and the scheduler; `created_at`, `updated_at` and payload columns that nothing reads back.
- Numbers in cron fields and file names are ASCII digits; Python also accepts other Unicode digits, and limits very long ones.
- Gate identifiers are assumed fresh, as `uuid4` values are; `list_recent` and the gate registry only select.
- Context objects are taken to be fresh for every run, and all enforcers to share one trail.
- The table `event_hooks` is written and never read; it is omitted.
- Triage.EmailTriage.ProcessOne: drafting and the approval card are calls that succeed or raise; their texts are not modelled, and a reply that was delivered although the call raised is not seen.
- Drift detection, the `/why` lookup and the other read-only listings of email triage: they count or select what is modelled here.
- Validator.CheckCapabilityBindings: the issues are given as a set of findings; their order, wording and multiplicity are not modelled.
- The cache of loaded adapters, which returns what a first load returned; importing an entry point and calling it is an input.
- Integration adapters, OAuth, LLM providers, dashboard, contracts and generated stubs keep no state that is worth a proof.
