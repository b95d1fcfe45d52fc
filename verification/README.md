# Endpoint activity analytics and unattended updates: a verified model

This project models the parts of the endpoint system where many steps have to agree with each
other, and proves that they do.

**Activity analytics** (`Calendar`, `Activity`, `Recorder`, `Tiling`, `Freshness`, `Sweep`,
`Precedence`, `Measure`, `Summaries`, `Logins`, `Conservation`, `Reports`, `Rollups`, `Answers`,
`Sightings`, `LastSeenDays`, `DayTotals`, `RowOrder`, `RetentionWindow`, `AnalyticsStore`). Devices
send samples. The recorder turns them into half-open intervals, cut at the midnights of every report
calendar, and marks the user-days they can change. A worker rebuilds marked days by sweeping the stored intervals; retention deletes old intervals, days and cursors.
The chain of results is: the sweep with its lazily cleaned queue computes the pointwise priority
rule; a summary is a count of instants, is unique, and conserves time; recording a sample keeps
the store a faithful account of the sample history; the days a sample marks are exactly the days
whose selection it can change; and, over every interleaving of ingestion, the lock/read/commit of
a rebuild, and retention, every clean day reports the summary of everything ever recorded for it -
and, with the intervals taken out of the statement, the pointwise totals of all samples its user's
devices ever sent, the devices it lists and its last observation included.
Retention is safe exactly when whatever it may delete lies, in every report zone, in days that
ended 48 hours before; the settings allow `detail_days = 1`, for which the model reaches a state
where evidence is gone from a day still to be rebuilt, and then one where a wrong day is published.

**The update and rollback worker** (`AltWorker`, `AltSafety`, `AltRecovery`, `AltOutcomes`,
`AltRefusals`, `AltHost`). The worker is a machine whose steps perform at most one atomic file operation; any step may fail with an I/O
error, the process may die between any two, and the service account may rewrite its own files at
any time. In every reachable state `current.json` names a complete, matching release. An update
interrupted any number of times ends, after one undisturbed activation, exactly like an
uninterrupted one. The class `Host` gives the procedures themselves, and each is proved to end as
the machine does. The startup report is proved to name the right operation and outcome over
interrupted runs, also after a rollback the launcher asked for.

**SemVer** (`Text`, `Semver`, `SemverOrder`). The direct comparator and the sortable text key of
Semantic Versioning 2.0.0, section 11, give the same order on every valid version of at most 64
characters.

**Journals** (`Journals`). Report and handoff journals under interleaved processes, with an HTTP
call between the two transactions of each operation.

**Smaller cores**: run-length compressed activity snapshots (`Snapshots`), canonical facts
(`Canonical`) and semantic diffs (`Diffs`), and the builder's depth-first manifest order against the
installer's sortedness check (`ManifestOrder`).

Operations that the repository performs by changing state are methods of a class or loops, each
tied by its `ensures` to a specification function (`Record`, `Retained`, `RunOut`, `LoadOrCreate`,
`Ingest`, ...) or to a meaning (`Refines`, `Summarizes`, `Tiles`); the lemmas are about those.
Time is an integer number of microseconds. A report zone is a strictly increasing function from
days to the instants they start, with `date` as its inverse. Identifiers and digests are numbers
or texts compared for equality only.

Where the code does not meet a property, the exact condition is proved:

| property | holds exactly when | failing input |
|---|---|---|
| retention never takes evidence from a day still to be rebuilt, and no published day is wrong (any number of report zones) | whenever it runs, the last instant before its cutoff lies in a local day that ended at least 48 hours earlier, in every zone; without clock changes, `detail_days >= 2` | RetentionWindow.ShortWindowLoses, RetentionWindow.ShortWindowMisreports |
| the installer accepts the builder's manifest order | no directory holding files has a file-bearing sibling that extends its name with a character below `/` | ManifestOrder.PackageBesideItsLibraries |
| swapping the comparator's prerelease arguments flips the answer | the deciding identifiers are not one number spelt in two ways | SemverOrder.LeadingZeroBreaksFlip |
| a contract-shaped list is canonical under reordering | it holds no two rows differing only in missing against empty texts | Canonical.MissingTiesWithEmpty |
| the displayed account of a day does not depend on the order of rows that start together | all named rows that start first carry the same name | Logins.CanBeDisplayed |
| after an update and the rollback the launcher asked for, the report is that operation, rolled back | the launcher was not stopped while rewriting the history | AltRecovery.UpdateThenRollbackReported |

## Model

| member | source | states |
|---|---|---|
| Calendar.DateIsInverse | endpoint_server/activity/analytics_math.py:34-37 | The local date of an instant is the one day whose half-open bounds hold it. |
| Calendar.StartedByDate | endpoint_server/activity/analytics_math.py:34-37 | A day has begun by an instant exactly when it is no later than the instant's date. |
| Calendar.BoundaryAhead | endpoint_server/activity/analytics_store.py:76-79 | The next report boundary lies strictly ahead, so the splitting loop makes progress and ends. |
| Calendar.SameDaysUntilBoundary | endpoint_server/activity/analytics_store.py:76-79 | Two instants share their date in every zone exactly when no report boundary separates them. |
| Sweep.EndpointEvents | endpoint_server/activity/analytics_math.py:50-56 | The event table holds exactly the two clipped endpoints of every row with a non-empty clip. |
| Sweep.Surface | endpoint_server/activity/analytics_math.py:61-63 | After dropping closed rows from the top, the queue's head is live and beats every other live row, and no live row is lost. |
| Sweep.PassPoint | endpoint_server/activity/analytics_math.py:72-77 | Processing one endpoint opens and closes exactly the rows that begin or end there. |
| Sweep.SteadyBetween | endpoint_server/activity/analytics_math.py:59-60 | Between two neighbouring endpoints the covering rows do not change. |
| Sweep.StretchIsOwned | endpoint_server/activity/analytics_math.py:61-71 | The stretch emitted between two endpoints belongs throughout to the least active row, and is an overlap exactly when a second row covers it. |
| Sweep.MergedSegments | endpoint_server/activity/analytics_math.py:44-79 | The heap sweep computes the pointwise rule: ordered, disjoint, non-empty segments covering exactly the union of the clipped rows, each owned at every instant by the least (state, device, position), flagged as overlap exactly where contested. |
| Precedence.OwnsExactlyIfItWins | endpoint_server/activity/analytics_math.py:61-77 | Said without ranks: a covering row owns an instant exactly if no covering row shows a better state (ACTIVE, IDLE, LOCKED, DISCONNECTED, UNKNOWN, in that order) and it has the least device, then position, of its state. |
| Precedence.SegmentWinner | endpoint_server/activity/analytics_math.py:44-79 | At every instant of a swept segment the winner is that row, and the segment is an overlap exactly if another row covers the instant. |
| Precedence.SecondsAreWins | endpoint_server/activity/analytics_math.py:87-92 | The seconds of each state are the instants at which it wins: of ACTIVE all at which some row shows it, of each later state those at which it shows and nothing better does. |
| Summaries.ProgramsAreNamed | endpoint_server/activity/analytics_math.py:10-17 | The known programs go by their product names, as office or browser, whatever category is reported. |
| Summaries.OtherProgramsKeepTheirName | endpoint_server/activity/analytics_math.py:40-41 | Any other program goes by its own name and the reported category; missing ones get fixed words. |
| Summaries.SummaryIsUnique | endpoint_server/activity/analytics_math.py:82-109 | The instant-by-instant meaning of a summary fixes it: two summaries of the same rows and window are equal. |
| Summaries.Accumulate | endpoint_server/activity/analytics_math.py:83-95 | The loop's tables hold, for every state, application and category, the total length of the segments won by it, and only keys that occur. |
| Summaries.HorizonTime | endpoint_server/activity/analytics_math.py:96-98 | First left end to last right end is the number of instants with coverage at or before and at or after them. |
| Summaries.RemainderTime | endpoint_server/activity/analytics_math.py:96-99 | Inside the observed span, what no row covers is exactly the remainder added to UNKNOWN. |
| Summaries.Summarize | endpoint_server/activity/analytics_math.py:82-109 | The computed summary has the instant-by-instant meaning: state times with interior gaps as UNKNOWN, span, per-application and per-category ACTIVE time as tables, contested time, devices, last observation. |
| Conservation.StatesFillSpan | endpoint_server/activity/analytics_math.py:96-101 | State seconds sum exactly to the observed span; the remainder clamp never hides anything. |
| Conservation.AppsAreActive | endpoint_server/activity/analytics_math.py:92-104 | Application totals sum to ACTIVE time. |
| Conservation.CategoriesAreActive | endpoint_server/activity/analytics_math.py:92-105 | Category totals sum to ACTIVE time. |
| Conservation.OverlapWithinSpan | endpoint_server/activity/analytics_math.py:90-105 | Overlap and UNKNOWN are each between zero and the observed span. |
| Conservation.CoverageIsShare | endpoint_server/activity/analytics_math.py:102 | The coverage ratio of balanced totals (of a day, and in the same form of a report) is absent exactly for an empty span, lies between 0 and 1, times the span gives the time in known states, and is 1 exactly when nothing is UNKNOWN. |
| Conservation.SummaryBalances | endpoint_server/activity/analytics_math.py:82-109 | Every summary satisfies all conservation laws at once. |
| Conservation.OwnerEchoed | endpoint_server/activity/analytics_math.py:61-77 | When one device never has two intervals at once, owners depend only on device and reading, never on row position. |
| Conservation.SummaryInsensitive | endpoint_server/activity/analytics_math.py:44-109 | A summary depends on its rows only through what they show at each instant. |
| Conservation.SummaryIgnoresOrder | endpoint_server/activity/analytics_store.py:154-157 | Whatever order the database returns ties in, all modelled parts of the summary are the same; the displayed account is the exception. |
| Logins.LoginStableExactlyWhenEarliestAgree | endpoint_server/activity/analytics_math.py:107 | The displayed account is the same for every order of rows that start together exactly when all named rows that start first carry one name. |
| Logins.CanBeDisplayed | endpoint_server/activity/analytics_math.py:107 | Any named row that starts first is the one displayed in some order the query may return. |
| Logins.DisplaysSomeName | endpoint_server/activity/analytics_math.py:107 | The displayed account is never an empty text, and is missing exactly if no row has a non-empty one. |
| Conservation.SummaryIgnoresCuts | endpoint_server/activity/analytics_store.py:74-79 | Cutting a stored interval at any interior point changes no total of the summary. |
| Reports.AddTable | endpoint_server/activity/analytics_reports.py:26-29 | The accumulating loop yields the key-wise sum of two tables. |
| Reports.CombineDaily | endpoint_server/activity/analytics_reports.py:13-36 | No rows give no report; otherwise one pass yields the fold whose parts the next rows describe. |
| Reports.ReportSumsDays | endpoint_server/activity/analytics_reports.py:22-25 | Span, overlap and the seconds of each state are sums over the published days. |
| Reports.ReportSumsApps | endpoint_server/activity/analytics_reports.py:26-29 | So are the seconds of each application and category, listed exactly if some day lists them. |
| Reports.PendingExactlyIfSomeDay | endpoint_server/activity/analytics_reports.py:36 | A report is pending exactly when some row is dirty, published or not. |
| Reports.AsOldAsTheOldestDay | endpoint_server/activity/analytics_reports.py:30-36 | The update time is the least among rows with a payload, absent exactly if none has one. |
| Reports.ReportConservesTime | endpoint_server/activity/analytics_reports.py:13-36 | A report over balanced days balances: no second appears or disappears when days are combined. |
| Reports.Timeline | endpoint_server/console/activity_analytics.py:194-202 | Segments and unknown fillers tile day start to min(day end, now) without hole or overlap; swept segments appear unchanged and in order; fillers stand exactly where nothing was observed. |
| Freshness.SpanMarksItsDays | endpoint_server/activity/analytics_store.py:18-28 | Marking the span of an interval for its user marks exactly the user-days whose rebuild query selects that interval, in every zone. |
| Freshness.MarkDirtyMarks | endpoint_server/activity/analytics_store.py:29-35 | The upsert makes exactly those days dirty; known payloads and all other rows stay, and a day marked for the first time queues as of the start of the span. |
| Tiling.AlwaysExtends | endpoint_server/activity/analytics_store.py:86-97 | During a short gap the loop always extends: the arm that starts a continuation row is never taken. |
| Tiling.StayStepKeeps | endpoint_server/activity/analytics_store.py:86-108 | One stretch of a short gap keeps intervals disjoint, uncrossed by any midnight, and truthful up to the stretch's end. |
| Tiling.GapStepKeeps | endpoint_server/activity/analytics_store.py:80-85 | One stretch of a long gap records UNKNOWN, cut at the boundary, and keeps the tiling. |
| Tiling.GapReading | endpoint_server/activity/analytics_store.py:68-73 | What the samples say across a long gap: UNKNOWN, of the same account within a day or of nobody, and nothing before the detail window. |
| Tiling.RecordTracks | endpoint_server/activity/analytics_store.py:48-135 | Accepting a sample keeps the tiling, and the stored intervals tell exactly what the longer sample history says; the cursor's interval is the newest, ends at the sample and lies in one calendar day. |
| Freshness.TouchesItsDates | endpoint_server/activity/analytics_store.py:153-157 | The rebuild query selects an interval for exactly the days from its first to its last local date. |
| Freshness.ChangeAndMark | endpoint_server/activity/analytics_store.py:83-98 | Changing or inserting one interval and marking its span moves only selections of marked days. |
| Freshness.FreshRowAccounted | endpoint_server/activity/analytics_store.py:100-108 | The zero-length row opened at a boundary touches only days already marked. |
| Freshness.RecordAccounted | endpoint_server/activity/analytics_store.py:48-135 | A sample changes what a rebuild selects only for days it marks dirty, and the days it marks are exactly those of its span and owner; known payloads survive. |
| Freshness.RecordLeavesOthers | endpoint_server/activity/analytics_store.py:58-60 | A sample changes no interval and no cursor of another device. |
| Sightings.SampleIsSeen | endpoint_server/activity/analytics_store.py:61-63 | A sample that is no later than the cursor or repeats its id changes nothing; any other moves the cursor to itself, is the last its interval was seen by, and moves no other stored interval's last-observed time. |
| Sightings.HeartbeatAddsNoRow | endpoint_server/activity/analytics_store.py:111-126 | While reading and calendar day stay the same and no gap lies between, a sample adds no row: it only moves the end and the last-observed time of the running interval. |
| Sightings.RecordSeen | endpoint_server/activity/analytics_store.py:102-134 | Accepting a sample keeps every interval explained by a sample: last seen by the last sample it holds, by the one it was carried over from at midnight, or, in a gap, at its own end; and every sample is held by an interval. |
| Rollups.SampleKeysRecent | endpoint_server/activity/ingestion.py:54-57 | With samples at most a day late, every day a sample marks ends less than 48 hours before it arrives. |
| Rollups.TakenInExactly | endpoint_server/activity/ingestion.py:54-57 | A sample is taken in exactly if it is at most 24 hours late and five minutes early, and no day it marks is locked by a rebuild. |
| Rollups.SampleJoinsHistory | endpoint_server/activity/analytics_store.py:61-67 | A sample joins its device's history exactly if the device has no cursor, or it is later than the last one and no repetition of it; tracking resumes exactly if the interval before it is still stored. |
| Rollups.IngestTracked | endpoint_server/activity/analytics_store.py:48-135 | Ingestion keeps every device's intervals truthful to its samples, removed intervals included. |
| Rollups.DirtyDayComplete | endpoint_server/activity/analytics_store.py:176-181 | A day waiting for its rebuild has lost no interval to retention. |
| Rollups.CommitKeeps | endpoint_server/activity/analytics_store.py:142-163 | Publishing under the row lock writes the summary of the complete history: nothing read has changed since. |
| Rollups.DeletedIsBuried | endpoint_server/activity/analytics_store.py:173-181 | If the window keeps clear, what retention may delete touches only days before the detail window in every zone, ended over 48 hours ago, and none that is dirty. |
| Rollups.DeletableExactly | endpoint_server/activity/analytics_store.py:173-181 | Retention may delete an interval exactly if it ended before the first detailed day of every zone, and it is nobody's or its user has no dirty day. |
| Rollups.StaleExactly | endpoint_server/activity/analytics_store.py:183-185 | A day expires exactly once it has ended, in UTC, for as long as aggregates are kept. |
| Rollups.RetainBuried | endpoint_server/activity/analytics_store.py:168-191 | Under that condition all removed intervals stay so after retention. |
| Rollups.NextKeeps | endpoint_server/activity/analytics_store.py:48-191 | While the detail window keeps clear of late samples, every step of ingestion, rebuild (lock, read, commit, abort) and retention keeps the whole invariant. |
| Rollups.RunKeeps | endpoint_server/activity/analytics_store.py:48-191 | Under the same condition the invariant holds in every reachable ledger, whatever the interleaving. |
| Answers.IntervalWithinOneDay | endpoint_server/activity/analytics_store.py:74-79 | All instants of a stored interval fall on one local date in every supported zone. |
| Answers.NoHoleInHistory | endpoint_server/activity/analytics_store.py:66-108 | While tracking goes on and consecutive samples lie within the detail window, every instant up to the last sample is told. |
| Answers.RunTellsHistory | endpoint_server/activity/analytics_store.py:48-135 | In every reachable ledger an instant is covered by an interval ever recorded exactly if all samples of the device say something of it, restarts of tracking included; the interval is the only one and carries what they say. |
| Answers.RunTracked | endpoint_server/activity/analytics_store.py:48-135 | The recorder's part of the invariant holds on every run without any assumption on the length of days. |
| Answers.SamplesSay | endpoint_server/activity/analytics_store.py:68-85 | In the fields themselves: between two samples nothing is told if tracking restarted, the earlier sample's account, state and (if ACTIVE) application up to the allowed gap, and otherwise UNKNOWN, of the same account within a day or of nobody, and nothing before the detail window. |
| Answers.NothingSaidOutside | endpoint_server/activity/analytics_store.py:54-56 | Nothing is told before the first sample nor from the last one on. |
| LastSeenDays.RunSeen | endpoint_server/activity/analytics_store.py:48-135 | On every run every interval ever recorded, removed ones included, has the last-observed time the samples give it. |
| LastSeenDays.RunShowsOnlyActiveApps | endpoint_server/activity/analytics_store.py:109-110 | No interval ever recorded names an application unless it is ACTIVE, nor a browser without an application. |
| Answers.CleanDayIsTrue | endpoint_server/activity/analytics_store.py:138-165 | A clean day reports the balanced summary of its complete history up to its update time, in whatever order rows are read. |
| Answers.WindowIsComplete | endpoint_server/activity/analytics_store.py:173-181 | Inside the detail window nothing has been removed. |
| Answers.RetentionKeepsAnswers | endpoint_server/activity/analytics_store.py:168-191 | If the window keeps clear, retention changes neither the row nor the history of any day it keeps, and the invariant stands. |
| Answers.EveryRunReportsTrue | endpoint_server/activity/analytics_store.py:48-191 | On every run, if the window keeps clear, each clean day is the balanced summary of everything ever recorded for it, and of what is stored if it lies in the detail window. |
| DayTotals.SummaryTotalsSamples | endpoint_server/activity/analytics_math.py:44-109 | The summary of a day's intervals is the pointwise rule over samples: at each instant the best state any device says (ACTIVE, IDLE, LOCKED, DISCONNECTED, UNKNOWN), and of the devices saying it the least. |
| LastSeenDays.DevicesSighted | endpoint_server/activity/analytics_math.py:106 | A day lists exactly the devices on which its user was sighted: by a sample of the day, by a short pause or a gap of the user reaching into it. |
| LastSeenDays.LastSeenIsLastSighting | endpoint_server/activity/analytics_math.py:108 | The day's last observation is the latest such sighting, and missing exactly if there is none. |
| DayTotals.EveryRunTotalsSamples | endpoint_server/activity/analytics_store.py:48-191 | On every run, if the window keeps clear, every clean day holds exactly the state, application, category, span and overlap totals of all samples ever accepted, from its start to its end or its rebuild; they balance; and its devices and last observation are those of the sightings. |
| RetentionWindow.SummaryExists | endpoint_server/activity/analytics_math.py:82-109 | Every window of every row list has a summary, so the meaning is never vacuous. |
| RetentionWindow.RebuildReachable | endpoint_server/activity/analytics_store.py:148-163 | Any dirty day no one has locked and of at most 20000 intervals can be rebuilt, changing nothing but its row, which then holds the summary of its stored intervals. |
| RetentionWindow.LastOfItsDay | endpoint_server/activity/analytics_store.py:172-175 | The day holding the last deletable instant ends, in every zone, before retention runs. |
| RetentionWindow.ShortWindowLoses | endpoint_server/activity/analytics_store.py:172-182 | If retention may ever delete from a day that ended less than 48 hours ago, a reachable ledger has a dirty day from which evidence is already gone. |
| RetentionWindow.SafeExactlyWhenClear | endpoint_server/activity/analytics_store.py:172-182 | For any report zones: rebuilds see complete days in every reachable ledger exactly when the cutoff always keeps clear of days that ended less than 48 hours ago. |
| RetentionWindow.ShortWindowMisreports | endpoint_server/activity/analytics_store.py:138-182 | Otherwise a reachable ledger even publishes a clean day that is not the summary of what was recorded for it. |
| RetentionWindow.TrueExactlyWhenClear | endpoint_server/activity/analytics_store.py:138-182 | Every clean day of every reachable ledger is the summary of everything ever recorded exactly under that condition. |
| RetentionWindow.LongEnoughClears | endpoint_server/activity/analytics_store.py:172-175 | It suffices that `detail_days` consecutive days span 48 hours in each zone. |
| RetentionWindow.OneZoneSafeExactlyWhenLongEnough | endpoint_server/activity/analytics_store.py:172-182 | With one report zone that is also necessary. |
| RetentionWindow.FixedZonesNeedTwoDays | endpoint_server/activity/analytics_policy.py:14-15 | Where no report zone shifts its clocks, a one-day window, which the settings allow, is unsafe and every longer one is safe. |
| RetentionWindow.OffsetIsFixed | endpoint_server/activity/analytics_policy.py:25-27 | UTC and every zone at a constant offset from it are such zones. |
| RetentionWindow.ThreeDaysSuffice | endpoint_server/activity/analytics_policy.py:9-10 | With sixteen hours to every day, three or more detail days (the default is 14) are safe for all zones together. |
| AnalyticsStore.AnalyticsStore.Add | endpoint_server/activity/analytics_store.py:38-45 | A new row gets an unused identifier and leaves everything else alone. |
| AnalyticsStore.AnalyticsStore.Dirty | endpoint_server/activity/analytics_store.py:18-35 | The zone-by-zone loop upserts exactly the user-days of the span: known payloads stay, new rows start empty, all become dirty. |
| AnalyticsStore.AnalyticsStore.SplitUpTo | endpoint_server/activity/analytics_store.py:74-108 | The in-place loop over stretches has the effect of the specified walk. |
| AnalyticsStore.AnalyticsStore.RecordObservation | endpoint_server/activity/analytics_store.py:48-135 | The in-place update of intervals, cursor and marks is the specified effect of one observation. |
| AnalyticsStore.SelectRows | endpoint_server/activity/analytics_store.py:154-157 | The query's rows: every selected interval once, by start. |
| AnalyticsStore.AnalyticsStore.RebuildDay | endpoint_server/activity/analytics_store.py:153-163 | One day's row gets the summary of its stored intervals up to min(day end, now) and becomes clean; over 20000 intervals it only moves to the back. |
| AnalyticsStore.AnalyticsStore.RebuildDaily | endpoint_server/activity/analytics_store.py:138-165 | A batch within bounds rebuilds dirty days of supported zones: all, or a full batch none of which waits behind a day left out by update time, day and user; other rows are unchanged; a batch out of bounds is refused. |
| AnalyticsStore.FirstBatch | endpoint_server/activity/analytics_store.py:148-151 | A limited ordered selection: the first `limit` candidates in rank order, all if fewer. |
| AnalyticsStore.AnalyticsStore.RetainAnalytics | endpoint_server/activity/analytics_store.py:168-191 | Deletes the oldest expired intervals not owned by a user with a dirty day, the oldest expired days and expired cursors, each up to the batch; forgets deleted intervals in cursors; refuses a batch out of bounds. |
| AnalyticsStore.IntervalsExpireOldestFirst | endpoint_server/activity/analytics_store.py:173-182 | In plain fields: only intervals that ended before every zone's detail window and belong to nobody or to a user without dirty days go, earliest end first, and either all such go or a full batch; the others stay as they are. |
| AnalyticsStore.DaysExpireOldestFirst | endpoint_server/activity/analytics_store.py:183-186 | Only days ended, in UTC, for longer than aggregates are kept go, earliest first, all or a full batch. |
| AnalyticsStore.CursorsExpire | endpoint_server/activity/analytics_store.py:187-190 | Only cursors unused for longer than aggregates are kept go; one that stays forgets its interval exactly if that was deleted. |
| AnalyticsStore.RebuildIsThreeSteps | endpoint_server/activity/analytics_store.py:148-163 | Rebuilding a day is the ledger's lock, read and commit in a row. |
| AnalyticsStore.RetentionIsOneStep | endpoint_server/activity/analytics_store.py:172-190 | What the retention job deletes is a retention step the ledger allows, also while rebuilds hold rows; only a held row itself is waited for. |
| SemverOrder.NumeralByValue | pc_agent/update_eligibility.py:6-8 | A number without leading zeros is determined by its value. |
| SemverOrder.NumericKeyOrder | endpoint_server/console/fleet.py:64-67 | Numeric keys are prefix-free and compare as their values, whatever follows them. |
| SemverOrder.TerminatedOrder | endpoint_server/console/fleet.py:71-72 | Terminating identifiers with `!` keeps their order, whatever follows them. |
| SemverOrder.TokenKeyOrder | endpoint_server/console/fleet.py:71-72 | Identifier keys are prefix-free and compare as the identifiers do: numbers below words. |
| SemverOrder.KeyOfRendered | endpoint_server/console/fleet.py:74-87 | The recursive text splitting recovers the components; build metadata is ignored. |
| SemverOrder.KeyEmbedsPrecedence | endpoint_server/console/fleet.py:43-87 | On all valid versions of at most 64 characters both keys exist, their byte order equals the comparator, and they are equal exactly at equal precedence. |
| SemverOrder.FlipsUnlessAmbiguous | pc_agent/update_eligibility.py:56-68 | For any two identifier lists, swapping arguments flips the answer exactly when the deciding pair is not one number spelt in two ways. |
| SemverOrder.LeadingZeroBreaksFlip | pc_agent/update_eligibility.py:59-60 | `01` and `1` are each reported older than the other. |
| SemverOrder.PrecedenceFlips | pc_agent/update_eligibility.py:27-68 | On strict versions of any length the comparator is antisymmetric in sign and zero exactly on versions that differ at most in build metadata. |
| SemverOrder.PrecedenceTransitive | pc_agent/update_eligibility.py:27-68 | On strict versions the order is transitive. |
| SemverOrder.EqualExactlyUpToBuild | pc_agent/update_eligibility.py:27-68 | On every version the updater parses, zero goes exactly to versions that differ at most in build metadata. |
| SemverOrder.NewerIsTransitive | pc_agent/update_eligibility.py:27-68 | On every version the updater parses, being strictly newer is transitive. |
| SemverOrder.EligibleExactly | pc_agent/update_eligibility.py:21-24 | With a rollback reason every version of other precedence may be installed and no other; without one only strictly newer ones. |
| SemverOrder.OneWayOnly | pc_agent/update_eligibility.py:16-24 | Of two strict versions of different precedence exactly one may follow the other without a reason. |
| SemverOrder.UpgradesClimb | pc_agent/update_eligibility.py:16-24 | For every version the updater parses: without a rollback reason any later installed version is strictly newer than any earlier one, so none repeats, not even under other build metadata. |
| AltSafety.NextKeeps | pc_agent/alt_update_installer.py:45-264 | Every step, I/O error, crash and change by the service account keeps the safety invariant. |
| AltSafety.RunKeeps | pc_agent/alt_update_installer.py:45-264 | The safety invariant holds in every reachable state. |
| AltSafety.SelectedReleaseIsSafe | pc_agent/alt_update_installer.py:72-96 | In every reachable state, mid-crash states included, `current` names a directory that matches its manifest, and no step touches that directory. |
| AltSafety.ReturnValueIsTrue | pc_agent/alt_update_installer.py:99-164 | False means the selector is as the activation found it; true means it names the returned version. |
| AltSafety.SelectorChangesOnlyAtCommits | pc_agent/alt_update_installer.py:111-124 | The selector changes only by an update commit, to the candidate with the old selector as `previous`, or by a rollback commit, from the crashed selector to `previous`. |
| AltSafety.RollbacksAreSeparated | pc_agent/alt_update_installer.py:229-239 | Between any two rollback commits of a run there is an update commit. |
| AltOutcomes.AcceptedExactly | pc_agent/alt_update_installer.py:385-402 | A bundle is accepted exactly if a download at the requested path has the requested digest and unpacks to exactly its manifest's files, of the requested version, in one of the two layouts, programs 0755 and the rest 0644. |
| AltOutcomes.VerifiedExactly | pc_agent/alt_update_installer.py:623-636 | A selector passes exactly if its directory is such a complete release with its version and revision. |
| AltOutcomes.RefusedExactly | pc_agent/alt_update_installer.py:62-78 | The checks give a request up exactly if nothing is so offered, the running release is unreadable or unverified, or it is the requested version but not what is offered. |
| AltOutcomes.UnusableRequestEnds | pc_agent/alt_update_installer.py:142-164 | Without a usable request: set aside with a reason, false, nothing else moves. |
| AltOutcomes.RefusedEnds | pc_agent/alt_update_installer.py:142-164 | A refused request: false, selectors and releases untouched, a failure record, the reason, and the request gone. |
| AltOutcomes.WrongDigestEnds | pc_agent/alt_update_installer.py:385-402 | In particular if no download at the requested path has the requested digest. |
| AltOutcomes.NewReleaseEnds | pc_agent/alt_update_installer.py:72-141 | A new release: its directory is the download, it is selected, the old selector kept as `previous`, success recorded with the old version, the request gone, true. |
| AltOutcomes.UnreadablePreviousEnds | pc_agent/alt_update_installer.py:112-149 | An unreadable `previous` stops it with the directory in place; selectors and request stay. |
| AltOutcomes.ReplayEnds | pc_agent/alt_update_installer.py:99-110 | A replay of the running release: recorded exactly if `previous` names another verified release, otherwise rejected as inconsistent; selectors and releases stay. |
| AltOutcomes.RollbackEnds | pc_agent/alt_update_installer.py:203-264 | A rollback happens exactly if the request names the running release as crashed (or the one already returned to) and a verified `previous` of another version; otherwise the request alone is set aside. |
| AltOutcomes.CommitErrorIsUndone | pc_agent/alt_update_installer.py:112-121 | If `current.json` cannot be written, `previous` is put back and the request stays. |
| AltOutcomes.EarlyErrorIsRecorded | pc_agent/alt_update_installer.py:142-164 | An error before the directory is in place gives the request up with a failure record. |
| AltOutcomes.LateErrorStillSucceeds | pc_agent/alt_update_installer.py:125-144 | An error after the commit still reports success and keeps the request for a replay. |
| AltOutcomes.RollbackErrors | pc_agent/alt_update_installer.py:240-264 | An error in a rollback rejects the request before the selector moved, keeps it while marker or request are written, and no longer matters at the last removal. |
| AltOutcomes.PlacedWasDownloaded | pc_agent/alt_update_installer.py:67-91 | In every run a directory that changes other than by being set aside becomes the content of a download that had its request's digest when it was checked. |
| AltOutcomes.SelectedWasDownloaded | pc_agent/alt_update_installer.py:97-124 | And every newly selected release is such a download, complete and of the requested version. |
| AltRecovery.RunOut | pc_agent/alt_update_installer.py:45-264 | Every activation without faults returns. |
| AltRecovery.RecordedOnce | pc_agent/alt_update_installer.py:787-794 | The record written is last, the only one of its operation, within a hundred, and writing it again changes nothing. |
| AltRecovery.RecordedKeepsOthers | pc_agent/alt_update_installer.py:787-794 | Before the new record stand the newest ninety-nine records of other operations, in order. |
| AltRecovery.WithoutKeepsOthers | pc_agent/alt_update_installer.py:787-793 | Filtering removes exactly the records of the operation. |
| AltRecovery.CheckOnceCommitted | pc_agent/alt_update_installer.py:99-110 | A replay after the commit recognises its own selector and finds a consistent prior one. |
| AltRecovery.OnTheWayKeeps | pc_agent/alt_update_installer.py:57-141 | Steps, crashes and restarts stay among the described stages of one update. |
| AltRecovery.UpdateSurvivesCrashes | pc_agent/alt_update_installer.py:57-141 | After any number of crashes between any two file operations, one undisturbed rerun leaves exactly the disk of an uninterrupted update: candidate installed and selected, old selector kept, one history record, request gone. |
| AltRecovery.RollbackSurvivesCrashes | pc_agent/alt_update_installer.py:203-260 | After any number of crashes a rerun completes the rollback; a spent `previous` naming the running release is left over exactly if the last activation died between removing the request and removing it. |
| AltRecovery.RollbackCommitsOnce | pc_agent/alt_update_installer.py:232-239 | However often a rollback is replayed, the selector moves once. |
| AltRecovery.UpdateReported | pc_agent/gateway_update_runtime.py:165-193 | After an update, however often interrupted, the startup report on the new version is this operation, applied, exactly unless the old marker claims a rollback from that version to itself. |
| AltRecovery.JunkSkipped | pc_agent/gateway_update_runtime.py:171-180 | Records without a usable operation never hide an older one. |
| AltRecovery.ReportExactly | pc_agent/gateway_update_runtime.py:165-193 | The report is what the newest record that is not silent says - a failure with its own version, a success as rolled back if the marker says so and as applied if it runs - and there is none exactly if all records are silent. |
| AltRecovery.FailureReported | pc_agent/gateway_update_runtime.py:181-182 | A failure that is the newest usable record is reported whatever runs and whatever marker lies there. |
| AltRefusals.RefusalSurvivesCrashes | pc_agent/alt_update_installer.py:142-164 | A refused update, however often interrupted, ends with one failure record, untouched selectors and releases and no request, and the startup report is that operation, failed, for every running version and marker. |
| AltRecovery.RollbackReported | pc_agent/gateway_update_runtime.py:183-190 | After a rollback, however often interrupted, with the rolled-back update as newest usable record, the report is that operation, rolled back to the running version. |
| AltRecovery.UpdateThenRollbackReported | pc_agent/launcher/launcher_main.py:391-431 | An interrupted update, the launcher's request, history record and marker up to any point at which it is stopped, then an interrupted rollback: the original release is selected again, and the report is that operation, rolled back to it, exactly unless the launcher was stopped while rewriting the history. |
| AltHost.Host.AppendHistory | pc_agent/alt_update_installer.py:769-794 | An unusable history is set aside; this operation's record is replaced and at most a hundred are kept. |
| AltHost.Host.RejectPending | pc_agent/alt_update_installer.py:797-811 | The request is set aside and the reason is left; nothing else changes. |
| AltHost.Host.SelectCandidate | pc_agent/alt_update_installer.py:97-141 | Publishing or recognising the candidate's selector ends as the machine does from the same point. |
| AltHost.Host.InstallAndSelect | pc_agent/alt_update_installer.py:72-96 | Placing the tree (setting an unusable one of another release aside) and selecting it ends as the machine does. |
| AltHost.Host.ApplyAltUpdate | pc_agent/alt_update_installer.py:45-170 | The whole update procedure leaves the disk and the return value of the machine's undisturbed run. |
| AltHost.Host.WriteAltRollbackRequest | pc_agent/alt_update_installer.py:173-195 | A request is written exactly when the selectors are readable, the running one is the crashed version and the previous one is not; it then authorizes the rollback if that release is verified. |
| AltHost.Host.RequestRollback | pc_agent/launcher/launcher_main.py:391-431 | The launcher's request, operation-less history record and non-terminal marker, written exactly when the identities allow the request. |
| AltHost.Host.ApplyAltRollback | pc_agent/alt_update_installer.py:198-264 | The whole rollback procedure leaves the disk and the return value of the machine's undisturbed run. |
| Journals.LoadOrCreate | pc_agent/update_adapter.py:474-499 | The record returned makes the claim and is in the journal; if some record already makes it the journal is unchanged, and otherwise only the new, undelivered record is added at the end. |
| Journals.DeliverExactly | pc_agent/update_adapter.py:397-405 | A confirmed delivery is merged exactly if the record with its key makes its claim; that record then has a delivery time, the earlier one if it had one, and every other is unchanged. |
| Journals.RecordHandoffExactly | pc_agent/update_adapter.py:285-305 | A handoff is refused exactly if its operation is recorded with another pair, changes nothing if known, and otherwise becomes the last record after the newest ninety-nine. |
| Journals.AcknowledgeExactly | pc_agent/update_adapter.py:332-343 | An acknowledgement is merged exactly if the operation's record has its pair; that record then has a receipt, and every other is unchanged. |
| Journals.JournalFiles.BeginReport | pc_agent/update_adapter.py:365-373 | First transaction of a report: record and key are in the journal before anything is sent. |
| Journals.JournalFiles.FinishReport | pc_agent/update_adapter.py:397-405 | Transaction after confirmation: reload, find by key, bind the claim, keep an earlier delivery time. |
| Journals.JournalFiles.BeginHandoff | pc_agent/update_adapter.py:285-305 | A new operation is recorded and the last hundred are kept; a known one with another pair is refused. |
| Journals.JournalFiles.FinishHandoff | pc_agent/update_adapter.py:332-343 | Transaction after acknowledgement: reload, bind the pair, mark once. |
| Journals.RunKeeps | pc_agent/update_adapter.py:271-405 | In every interleaving report claims and keys stay unique, every key sent is in the journal under its claim, and handoffs stay unique per operation. |
| Journals.OneKeyPerClaim | pc_agent/update_adapter.py:474-499 | Over a whole run of any processes one claim is only ever sent under one key, in the journal when sent. |
| Journals.DeliveredForGood | pc_agent/update_adapter.py:403-404 | A delivery time, once written, never changes. |
| Journals.ConfirmedNeverSentAgain | pc_agent/update_adapter.py:365-405 | Once the server's confirmation of a claim has been taken in, no process ever sends that claim again. |
| Journals.UndeliveredIsSent | pc_agent/update_adapter.py:365-385 | A report of a claim that is not delivered is sent, with the key of its record in the journal. |
| Journals.AcknowledgedHasReceipt | pc_agent/update_adapter.py:332-343 | A confirmed acknowledgement leaves a receipt if the operation is still recorded with its pair. |
| Journals.AcknowledgedNeverSentAgain | pc_agent/update_adapter.py:322-330 | While the operation stays recorded, an acknowledgement with a receipt is not sent again. |
| Journals.HandoffsBound | pc_agent/update_adapter.py:301-343 | A retained handoff keeps its pair and its receipt, and a receipt only stands on a pair the server acknowledged. |
| Journals.HandoffsBoundAlong | pc_agent/update_adapter.py:301-343 | The same over any stretch of a run in which the operation stays among the last hundred. |
| Snapshots.CompressionIsTight | endpoint_server/activity/ingestion.py:115-141 | Snapshots are in time order and neighbours never mean the same. |
| Snapshots.CompressionIsLossless | endpoint_server/activity/ingestion.py:101-141 | Every accepted observation means what the newest snapshot at or before it says. |
| Snapshots.IngestReflects | endpoint_server/activity/ingestion.py:62-141 | Each arrival, accepted, replayed, late or refused, keeps the stored state the compression of what was accepted. |
| Snapshots.ObservationAccepted | endpoint_server/activity/ingestion.py:52-117 | An observation is accepted exactly if threshold and time are within bounds, it is later than everything accepted, and no snapshot came from it; it is shown with its own fields, an interactive session as IDLE exactly from the threshold on. |
| Snapshots.ObservationVerdict | endpoint_server/activity/ingestion.py:101-141 | A snapshot is stored, and its id remembered, exactly for an accepted change of meaning; out of bounds is refused. |
| Snapshots.ObservationHeard | endpoint_server/activity/ingestion.py:77-84 | The device counts as heard at the arrival of any observation in bounds that is not older than what is shown and no repetition, and never earlier than before. |
| Snapshots.PointerAdvances | endpoint_server/activity/ingestion.py:62-141 | Under activity ingestion the current snapshot, the projection shown and the time last heard never go back. |
| Snapshots.PointerNamesFirstNewest | endpoint_server/context/ingestion.py:111-173 | For every profile and every order of completing collections, the current row names the newest snapshot, the first to complete if several are equally new, and the time last heard is the latest. |
| Snapshots.StoredIsCompressedHistory | endpoint_server/activity/ingestion.py:41-141 | For every sequence of arrivals the snapshots are tight and lossless and the projection shown is the latest accepted one. |
| Snapshots.ActivityContext.IngestActivityObservation | endpoint_server/activity/ingestion.py:41-141 | The in-place ingestion has the specified effect and verdict. |
| Canonical.SortIsStable | endpoint_server/context/canonicalize.py:24-27 | Sorting keeps items of one key in their incoming order. |
| Canonical.OrderIgnoredExactlyWithoutTies | endpoint_server/context/canonicalize.py:16-27 | A stably sorted list is independent of the incoming order exactly when no two different items share a key. |
| Canonical.RowsIgnoreOrderExactly | endpoint_server/context/canonicalize.py:16-27 | A contract-shaped list is canonical under reordering exactly when no two rows differ only in missing against empty texts. |
| Canonical.CompleteRowsIgnoreOrder | endpoint_server/context/canonicalize.py:61-69 | Baseline lists, which have no missing values, are always canonical under reordering. |
| Canonical.MissingTiesWithEmpty | endpoint_server/context/canonicalize.py:74-95 | Two memory modules, one without a serial and one with an empty one, have a different canonical form when reported in the other order. |
| Canonical.NetworkIgnoresOrder | endpoint_server/context/canonicalize.py:110-131 | Network facts are canonical under any reordering of interfaces and of their addresses. |
| Canonical.NetworkExactlyByFacts | endpoint_server/context/canonicalize.py:110-131 | Two network sections have one canonical form exactly if they name the same interfaces with the same addresses, each as often. |
| Canonical.FullRowsExactly | endpoint_server/context/canonicalize.py:16-27 | Two lists without missing values have one canonical form exactly if they hold the same rows. |
| Diffs.InventoryDiffMissesExactly | endpoint_server/context/diff.py:53-72 | For any inventory snapshots, an empty diff means equal canonical forms exactly unless the systems differ only outside hostname and the five listed fields, or in a missing against a null one. |
| Diffs.SystemFieldsCovered | endpoint_server/context/diff.py:57-64 | The contract's system has no other fields: agreeing on those six means being equal. |
| Diffs.BaselineDiffEmptyExactlyWhenSame | endpoint_server/context/diff.py:14-21 | The fixed list of change fields covers every section a baseline's canonical form keeps. |
| Diffs.DiffEmptyExactlyWhenSame | endpoint_server/context/diff.py:31-79 | On contract-shaped snapshots the diff is empty exactly when the canonical forms are equal, and refused exactly for different or other profiles. |
| Diffs.BaselineFormExactly | endpoint_server/context/canonicalize.py:41-71 | A baseline's canonical form depends on exactly its three system fields, four hardware fields and the named columns of its three lists. |
| Diffs.InventoryFormExactly | endpoint_server/context/canonicalize.py:74-95 | An inventory's on exactly system and hardware whole, two memory fields, and the named columns of modules, storage and interfaces. |
| Diffs.BaselineCodesExactly | endpoint_server/context/diff.py:14-21 | Each code of a baseline diff is listed exactly when its own section changed, and AGENT_CHANGED never. |
| Diffs.InventoryCodesExactly | endpoint_server/context/diff.py:23-28 | Each code of an inventory diff is listed exactly when hostname, one of the five system fields, hardware, memory, storage or interfaces changed. |
| Diffs.StoredDiffsNameAChange | endpoint_server/context/ingestion.py:243-268 | Every stored diff names at least one change, and only facts without a change are not stored. |
| Diffs.ReorderedBaselineUnchanged | endpoint_server/context/diff.py:46-72 | Reordering the lists of a baseline never produces a change. |
| ManifestOrder.SiblingOrder | tools/build_linux_agent.py:113-164 | Every path of an earlier sibling precedes every path of a later one, except where the later name extends a directory's name below the separator: then all follow. |
| ManifestOrder.ListsExactlyTheFiles | tools/build_linux_agent.py:113-164 | The depth-first listing holds exactly the paths of the files of the tree. |
| ManifestOrder.AcceptedExactlyWhenClean | tools/build_linux_agent.py:267-278 | The depth-first listing passes the installer's sortedness check exactly when no directory anywhere clashes with a sibling. |
| ManifestOrder.PackageBesideItsLibraries | tools/build_linux_agent.py:113-164 | Any package beside a `.libs` directory of its own name below `_internal` is listed in an order the installer refuses. |

## Left out

- Rounding: durations are integer microseconds where the code keeps float seconds.
- Summaries.Summarize: applications are a table; the order in which they are listed is not modelled, and the coverage ratio and the displayed account are separate members (Conservation.CoverageIsShare, Logins.LoginStableExactlyWhenEarliestAgree).
- Real time-zone data: only strictly increasing day starts and their inverse are assumed, so skipped or repeated midnights are not modelled.
- Normalisation: `normalize_login` and the lower-casing of process names are taken as already applied; device identifiers are numbers. The displayed account is carried by Logins only, not by stored intervals.
- The heap of the sweep is an ordered sequence of the same entries.
- Conservation.SummaryIgnoresOrder: says nothing of the displayed account, which does depend on the order of rows that start together (Logins.LoginStableExactlyWhenEarliestAgree).
- A change of policy during a run: retention lengths, report zones and the gap limit are fixed.
- AnalyticsStore.AnalyticsStore.RebuildDaily: rows locked by others are skipped in the ledger, not in this method, which models one worker alone; users are ordered by code points; ingestion waiting for a locked row is a step that is not yet enabled.
- Timeline and report authorisation, limits, connection gaps and power markers.
- File modes of directories, ownership, links, descriptor pinning, size limits, path checks and fsync: a leaf is missing, unusable or good, and each write, rename or removal is atomic.
- Staging and quarantine leftovers under unique names are not kept on the modelled disk; archives are abstract contents with an injective digest.
- AltHost.Host.ApplyAltUpdate: a method describes an undisturbed run; I/O errors and crashes are steps of the machine in AltWorker. Update and rollback activations do not overlap, as one service runs both, and it stops the agent and its launcher first (deploy/agent/alt/apply-pending-alt-update.sh:145-162).
- AltRecovery.UpdateSurvivesCrashes: interruptions here are crashes and restarts; I/O errors are covered by AltSafety, since an error before the tree is complete makes the worker give up the request.
- SemVer patterns are predicates on characters and parts; regular expression engines and SQL text execution are not part of the model.
- Journal files that are unreadable, oversized or hold invalid records, and `max_bytes`; a transaction is one atomic step.
- Snapshots, collections and current rows of profiles other than activity beyond the rule for advancing them, change events, the failure paths of collections, and retention of snapshots.
- Snapshots that are not JSON objects of the expected nesting; sessions and networks have no diff.
- HTTP, sessions, cookies, capability registry, configuration, user interface, browser sensor queue, module lifecycle, builds and provisioning.
