# Seven Rains on-call scheduler, in Dafny

A model of the core of the Seven Rains (七雨) weekly duty scheduler and of
its audit scripts.

**The week plan.** A plan is a grid from day of week (0 = Monday .. 6 =
Sunday) to a dict from employee name to duty. A duty is WORK '白', ON_CALL
'听' or REST '休'. A plan has accessors and a dict form (`to_dict` /
`from_dict`).

**The rules.** Five scheduling rules, each with a priority and a name. Only
three of them ever reject:
- RestAfterOnCall: rest after an on-call, within the week and carried over
  into the next week.
- NoConsecutiveWeekend: no weekend on-call two weeks running.
- NoConsecutiveWeekday: not on call on the same weekday as last week.

**The scheduler.** A class holding the roster and a rule list kept sorted by
priority. `generate_week` works in three greedy phases:
1. carried-over rest;
2. one on-call a day, each followed by its rest window;
3. WORK or REST in every remaining cell.

**Storage.** The plan store, keyed by week start: save, load, previous
weeks, the weeks of a month, delete, clear.

**The audits.**
- The five-rule audit of `comprehensive_rule_check.py`.
- The stricter rule-3 audit of `detailed_rule3_check.py`.

**The CLI.** The year-month argument parser of the command-line entry point.

## How the files fit together

**Data structures:**
- `rows.dfy`: Python dicts as ordered association lists (`Row`), with
  first-match lookup.
- `decimal.dfy`: `str`/`int` of a day number.
- `sorting.dfy`: a stable sort by key, used both for the rule list and for
  the stored weeks.

**Scheduling core:**
- `models.dfy`: the plan (`WeekPlan` class, `Week` value) and its dict
  form.
- `rules.py` becomes `rules.dfy`.
- `scheduler.py` becomes `scheduler.dfy`.
- `storage.py` becomes `storage.dfy`.

**Audits and CLI:**
- The audit scripts become `audit.dfy` and `rule3_audit.dfy`. Each check
  method is proved against a predicate that says what "the rule holds"
  means, and every violation it reports is proved real.
- `conformance.dfy` states what a generated week gives the audit.
- `cli.dfy` holds the argument parser.

The central results are:
- **GenerateWeek:** a generated week is a full grid of the roster. It has at
  most one on-call a day, and exactly one unless every roster employee rests
  that day. It keeps every same-week rest window and every carried-over
  rest. Every weekday REST has a reason: carried-over rest, the rest window
  of that employee's earlier on-call, or the Monday after a stored Friday
  on-call. Every other weekday cell is ON_CALL or WORK, and every weekend
  cell that is not ON_CALL is REST. The grid is exactly `Generated`: each
  day's on-call is the rotation pick among the employees every rule accepts
  (`Phase2Pick`), or the first unassigned roster employee when no one is
  accepted.
- **GeneratedPassesAudit:** such a week, stored, passes the audit's
  same-week rest check.
- **LoadAfterSave:** saving and then loading a week round-trips.
- **DetailedImpliesRestKept:** the detailed rule-3 audit is at least as
  strict as rule 3 of the five-rule audit.

## Model

| member | source | states |
|---|---|---|
| Rows.LookupFound | src/sevens_rain/models.py:49-51 | `get` finds nothing exactly when no entry has the key; what it finds is an entry of the dict |
| Rows.LookupUnique | src/sevens_rain/models.py:49-51 | in a dict with unique keys, `get` returns the value stored under the key |
| Rows.Put | src/sevens_rain/models.py:43-47 | `d[k] = v` makes `k` map to `v`, leaves every other key's value alone, keeps key order and appends a new key at the end |
| Rows.PutKeepsUniqueKeys | src/sevens_rain/models.py:43-47 | assigning into a dict never creates a duplicate key |
| Rows.KeysWith | src/sevens_rain/models.py:53-57 | the keys listed are exactly those whose entry holds the value |
| Rows.KeysWithNoRepeats | src/sevens_rain/models.py:53-57 | in a dict the listed keys are pairwise distinct |
| Rows.KeysWithLookup | src/sevens_rain/models.py:53-57 | in a dict a key is listed exactly when `get` returns the value for it |
| Rows.FirstKeyWithFound | comprehensive_rule_check.py:316-324 | the scan that stops at the first hit finds nothing exactly when no entry holds the value; otherwise it returns the first such entry's key |
| Rows.FirstKeyWithListed | comprehensive_rule_check.py:316-324 | the first-hit scan finds something exactly when the full listing is non-empty, and it finds a listed key |
| Rows.MapValues | src/sevens_rain/models.py:62-65 | the dict comprehension keeps every key and its position and maps each value |
| Rows.LookupMapValues | src/sevens_rain/models.py:62-65 | looking up in the mapped dict gives the mapped value of the lookup |
| Decimal.NatToDecimal | src/sevens_rain/models.py:64 | `str(n)` is a non-empty digit string with no leading zero except "0" |
| Decimal.ValueOfDecimal | src/sevens_rain/models.py:77 | `int(str(n)) == n` for every natural |
| Decimal.DecimalOfValue | src/sevens_rain/models.py:77 | `str(int(s)) == s` for every canonical digit string |
| Decimal.ParseDayKey | src/sevens_rain/models.py:77 | whatever day key is accepted prints back as the same text |
| Decimal.DayKeyRoundTrip | src/sevens_rain/models.py:64-77 | `int(str(day)) == day` for every day, negative ones included |
| Decimal.DayKeyInjective | src/sevens_rain/models.py:64 | distinct days get distinct keys in the dict form |
| Sorting.Insert | src/sevens_rain/scheduler.py:24 | insertion step of the sort: one longer, same elements plus the new one |
| Sorting.InsertSorted | src/sevens_rain/scheduler.py:24 | inserting into a sorted list keeps it sorted |
| Sorting.SortBy | src/sevens_rain/storage.py:45 | `list.sort(key=…)` gives a sorted permutation of its input |
| Sorting.SortByStable | src/sevens_rain/scheduler.py:24 | the sort is stable: the elements of each key keep their relative order |
| Sorting.SortBySorted | src/sevens_rain/scheduler.py:24 | sorting a sorted list changes nothing |
| Sorting.WithKeyAppend | src/sevens_rain/storage.py:45 | the elements of a given key in a concatenation are those of each part, in order |
| Sorting.InsertAtEnd | src/sevens_rain/scheduler.py:249 | an element whose key is not smaller than any other is placed last |
| Models.DayTypeOf | src/sevens_rain/models.py:10-14 | `DayType(value)` succeeds exactly on the three values, giving the duty with that value |
| Models.ValueOfDistinct | src/sevens_rain/models.py:10-14 | the three values are distinct, and every duty reads back from its value |
| Models.Assignment | src/sevens_rain/models.py:49-51 | `get_assignment` is None on a day the plan does not hold |
| Models.WithAssignment | src/sevens_rain/models.py:43-47 | `set_assignment` changes exactly one cell, adds the day if missing, and keeps each day a dict |
| Models.OnCallEmployees | src/sevens_rain/models.py:53-57 | the listed employees are exactly those with an ON_CALL entry on that day |
| Models.OnCallEmployeesExact | src/sevens_rain/models.py:53-57 | in a well-formed plan, being listed is exactly holding ON_CALL |
| Models.EmptyDays | src/sevens_rain/models.py:27-30 | seven days, 0..6, each empty |
| Models.PostInit | src/sevens_rain/models.py:27-30 | a plan built with no assignments gets days 0..6 with no cells; otherwise its assignments are kept |
| Models.WeekPlan.constructor | src/sevens_rain/models.py:27-30 | the new plan is the `__post_init__` form of its arguments |
| Models.WeekPlan.SetAssignment | src/sevens_rain/models.py:43-47 | the plan's grid becomes the one-cell update; the week start is unchanged |
| Models.WeekPlan.EmployeeSchedule | src/sevens_rain/models.py:35-41 | seven duties, day d's being the cell, or WORK where the cell is unset |
| Models.ToDict | src/sevens_rain/models.py:59-68 | the dict form keeps the week start and holds, under `str(day)`, each day's dict with duty values |
| Models.ToDictKeys | src/sevens_rain/models.py:59-68 | every key of the dict form parses back to one of the plan's days |
| Models.DecodeRow | src/sevens_rain/models.py:78-80 | a day's dict decodes exactly when every value is a duty's value; the result keeps keys and order |
| Models.DecodeDays | src/sevens_rain/models.py:76-81 | the decoded grid has a day for each key, holding that key's decoded dict |
| Models.FromDict | src/sevens_rain/models.py:70-86 | `from_dict` fails exactly on a bad day key or duty value; otherwise it builds the `__post_init__` plan |
| Models.DecodeEncodedRow | src/sevens_rain/models.py:64-79 | decoding an encoded day dict gives it back |
| Models.DecodesTo | src/sevens_rain/models.py:70-86 | a dict whose keys are exactly the day texts of a grid, each holding that day's encoded dict, decodes to the grid |
| Models.FromDictToDict | src/sevens_rain/models.py:59-86 | `from_dict(to_dict(p))` is p, up to the seven empty days `__post_init__` gives a plan with no assignments |
| Rules.RestWindow | src/sevens_rain/rules.py:165-181 | the same-week rest days after an on-call on day d lie after d within the week; day d+1 is always among them for d ≤ 5 |
| Rules.NextWeekRest | src/sevens_rain/rules.py:185-207 | the carried-over rest days are Monday or Tuesday, and exist exactly after a Friday, Saturday or Sunday on-call |
| Rules.Validate | src/sevens_rain/rules.py:47-215 | every built-in rule accepts any duty but ON_CALL; the coverage and minimum rules always accept |
| Rules.WeekdayRuleExact | src/sevens_rain/rules.py:132-150 | with history, the weekday rule rejects ON_CALL exactly when the employee was on call that weekday last week |
| Rules.WeekendRuleExact | src/sevens_rain/rules.py:82-126 | the weekend rule rejects exactly a weekend ON_CALL after a weekend on-call last week |
| Rules.RestRuleExact | src/sevens_rain/rules.py:158-215 | the rest rule rejects ON_CALL exactly after an on-call yesterday or under a carried-over rest |
| Rules.DefaultRules | src/sevens_rain/rules.py:221-227 | five built-in rules with priorities 110, 100, 90, 88, 80 |
| Rules.ValidateAll | src/sevens_rain/scheduler.py:214-220 | true exactly when every rule accepts |
| Rules.DefaultRulesAllow | src/sevens_rain/rules.py:47-227 | the default set accepts every non-on-call duty; it accepts an on-call exactly when the rest, weekend and weekday conditions all hold |
| Scheduler.DefaultRulesSorted | src/sevens_rain/scheduler.py:22-24 | the constructor's sort leaves the default rule list in declaration order |
| Scheduler.RemovalKeepsSorted | src/sevens_rain/scheduler.py:251-257 | deleting one rule from a sorted list keeps it sorted |
| Scheduler.StillNeeding | src/sevens_rain/scheduler.py:231-232 | the candidates that still need an on-call are exactly those in both lists |
| Scheduler.ChooseEmployeeForOnCall | src/sevens_rain/scheduler.py:222-240 | the chosen employee is available, is the only one when there is one, and still needs an on-call whenever any candidate does; among several it is the one at position `day` modulo the length, counted among the candidates still needing an on-call if there are any, else among all candidates |
| Scheduler.Candidates | src/sevens_rain/scheduler.py:95-104 | the filtered roster holds exactly the employees unassigned that day whom every rule accepts for ON_CALL |
| Scheduler.RemoveFirst | src/sevens_rain/scheduler.py:116 | `list.remove` drops one occurrence of the element and nothing else |
| Scheduler.WithRest | src/sevens_rain/scheduler.py:134-167 | REST is set for the employee on exactly the listed days; every other cell is unchanged |
| Scheduler.RestMondayTuesday | src/sevens_rain/scheduler.py:74-82 | REST on Monday and Tuesday for the employee, nothing else changes |
| Scheduler.CarryRestFor | src/sevens_rain/scheduler.py:61-82 | one employee's phase-1 pass sets REST exactly on the days last week's on-call carries over |
| Scheduler.CarryRest | src/sevens_rain/scheduler.py:61-82 | after phase 1 each listed employee rests exactly on its carried-over days; no other cell changes |
| Scheduler.Phase2Start | src/sevens_rain/scheduler.py:84-93 | a grid holding only REST satisfies the phase-2 invariant before day 0 |
| Scheduler.PlaceOnCall | src/sevens_rain/scheduler.py:106-119 | putting an unassigned roster employee on call, with its rest window, covers the day and keeps the invariant |
| Scheduler.DayBlocked | src/sevens_rain/scheduler.py:120-132 | a day on which every roster employee already has a cell is one on which they all rest |
| Scheduler.WithOnCall | src/sevens_rain/scheduler.py:112-120 | on the on-call day, exactly the chosen employee changes, to ON_CALL |
| Scheduler.FirstUnassignedIn | src/sevens_rain/scheduler.py:125-132 | the emergency scan: the first roster position unassigned that day, every earlier one being assigned, or the roster length |
| Scheduler.Phase2Pick | src/sevens_rain/scheduler.py:106-132 | whoever a day of phase 2 puts on call is a roster employee unassigned that day |
| Scheduler.Phase2PickSpec | src/sevens_rain/scheduler.py:94-132 | somebody is picked exactly when some roster employee is unassigned; when some employee passes every rule the pick passes every rule, and is still needing an on-call whenever such a candidate exists; otherwise the pick is the first unassigned roster employee |
| Scheduler.Phase2DayPlaces | src/sevens_rain/scheduler.py:106-132 | on a day not yet reached, the ON_CALL cells after the step are exactly the pick |
| Scheduler.Phase2DayKeeps | src/sevens_rain/scheduler.py:94-132 | one day of phase 2 keeps the phase-2 invariant |
| Scheduler.Phase2Keeps | src/sevens_rain/scheduler.py:84-132 | phase 2 over days 0..n-1 from a REST-only grid establishes the phase-2 invariant for those days |
| Scheduler.Phase2OnCalls | src/sevens_rain/scheduler.py:84-132 | after phase 2, each day's ON_CALL cells are exactly the pick made when that day was reached: later days never change them |
| Scheduler.Phase2OnCallsLast | src/sevens_rain/scheduler.py:106-132 | right after day d of phase 2, that day's ON_CALL cells are exactly the pick made for it |
| Scheduler.Phase2Earlier | src/sevens_rain/scheduler.py:134-167 | a later day of phase 2 changes no cell of an earlier day: the rest window after an on-call lies strictly ahead of it |
| Scheduler.Phase1Grid | src/sevens_rain/scheduler.py:61-82 | phase 1 on an empty week gives a seven-day grid holding only REST, set exactly where last week's on-call carries rest over |
| Scheduler.FillKeepsOnCalls | src/sevens_rain/scheduler.py:169-190 | phase 3 never adds or removes an ON_CALL cell |
| Scheduler.GeneratedMeetsGuarantees | src/sevens_rain/scheduler.py:26-59 | the grid of the three phases from an empty week meets every generator guarantee (GeneratedWeek) |
| Scheduler.GeneratedOnCalls | src/sevens_rain/scheduler.py:84-132 | in a generated week, an employee is ON_CALL on a day exactly when phase 2 picked them that day; the pick passes every rule against the grid built so far whenever some employee does, and is otherwise the first unassigned roster employee |
| Scheduler.ShouldRestInsteadOfWork | src/sevens_rain/scheduler.py:192-212 | the WORK-to-REST switch can only happen on Monday |
| Scheduler.FillDayCells | src/sevens_rain/scheduler.py:174-190 | filling a day sets exactly the unset roster cells of that day |
| Scheduler.FillDaysCells | src/sevens_rain/scheduler.py:169-190 | phase 3 sets exactly the unset roster cells of days 0..6 and leaves assigned ones alone |
| Scheduler.ComposePhases | src/sevens_rain/scheduler.py:26-59 | phase 3 applied after phases 1 and 2 yields a week meeting every generator guarantee: full grid, coverage, rest windows, carried rest, every weekday REST explained, WORK on every other weekday cell not ON_CALL, REST at the weekend |
| Scheduler.NamesOf | src/sevens_rain/scheduler.py:242-244 | one name per rule, in rule order |
| Scheduler.WeekScheduler.constructor | src/sevens_rain/scheduler.py:13-24 | the rule list is the given or default rules, sorted by priority, highest first, stably |
| Scheduler.WeekScheduler.RuleNames | src/sevens_rain/scheduler.py:242-244 | the names of the rules in their current priority order |
| Scheduler.WeekScheduler.AddRule | src/sevens_rain/scheduler.py:246-249 | the list grows by one and stays sorted; rules of each priority keep their order and the new one comes last among its priority |
| Scheduler.WeekScheduler.RemoveRule | src/sevens_rain/scheduler.py:251-257 | true iff a rule of that name exists; then the first such rule is deleted and the list stays sorted; otherwise nothing changes |
| Scheduler.WeekScheduler.AssignMandatoryRest | src/sevens_rain/scheduler.py:61-82 | the grid becomes phase 1 of the old one: each roster employee rests exactly on the days last week's on-call carries over; no history, no change |
| Scheduler.WeekScheduler.CarryRestOf | src/sevens_rain/scheduler.py:70-82 | one employee's pass of phase 1 leaves the grid as CarryRestFor describes: REST on exactly the days last week's on-call carries over, nothing else changed |
| Scheduler.WeekScheduler.AssignRestAfterOnCall | src/sevens_rain/scheduler.py:134-167 | REST on every day of the on-call day's rest window, nothing else |
| Scheduler.WeekScheduler.AssignRestOn | src/sevens_rain/scheduler.py:147-156 | REST on each listed day, nothing else |
| Scheduler.WeekScheduler.ValidateAssignment | src/sevens_rain/scheduler.py:214-220 | true exactly when every rule accepts |
| Scheduler.WeekScheduler.AvailableFor | src/sevens_rain/scheduler.py:95-104 | the candidates are exactly the roster employees unassigned that day whom every rule accepts for ON_CALL, in roster order |
| Scheduler.WeekScheduler.AssignOnCallDuties | src/sevens_rain/scheduler.py:84-132 | the grid becomes Phase2 of the old one (day by day, the pick of Phase2Pick with its rest window); at most one on-call a day, every rest window kept, every day covered unless all the roster rests, and every new REST in the rest window of an earlier on-call of the same employee |
| Scheduler.WeekScheduler.AssignOnCallOn | src/sevens_rain/scheduler.py:94-132 | the grid and the needing list become Phase2Day of the old ones: the rotation pick among the employees every rule accepts, or else the first unassigned roster employee, goes on call with its rest window; only a rotation pick leaves the needing list |
| Scheduler.WeekScheduler.FirstUnassigned | src/sevens_rain/scheduler.py:125-132 | the first roster position whose cell is unset that day, or the roster length when there is none (FirstUnassignedIn) |
| Scheduler.WeekScheduler.FillRemainingDays | src/sevens_rain/scheduler.py:169-190 | the grid becomes the phase-3 fill of every unset roster cell |
| Scheduler.WeekScheduler.FillDayOf | src/sevens_rain/scheduler.py:174-190 | the employee loop of one day sets exactly the unset roster cells of that day to their phase-3 value |
| Scheduler.WeekScheduler.GenerateWeek | src/sevens_rain/scheduler.py:26-59 | a new plan for that week start whose grid is Generated (phase 3 over phase 2 over phase 1 from an empty week), hence: full grid of the roster, at most one on-call a day, covered unless blocked, rest windows and carried rest kept; a weekday REST only for carried rest, an earlier on-call's rest window or the Monday after a stored Friday on-call; WORK on every other weekday cell that is not ON_CALL; REST on every weekend cell that is not ON_CALL |
| Storage.Others | src/sevens_rain/storage.py:37-39 | no record of that week remains; every other week's records are kept in order; something was dropped exactly when such a record existed |
| Storage.OthersNoneDropped | src/sevens_rain/storage.py:141-161 | if nothing was dropped, the list is unchanged |
| Storage.Saved | src/sevens_rain/storage.py:28-47 | after a save the list is sorted by week start, the week has exactly its new record, and every other week is untouched |
| Storage.LoadFrom | src/sevens_rain/storage.py:49-66 | None exactly when no record of the week exists; a loaded week has the requested week start |
| Storage.LoadAfterSave | src/sevens_rain/storage.py:28-66 | loading a week just saved gives back the saved plan |
| Storage.LoadOtherAfterSave | src/sevens_rain/storage.py:28-66 | saving one week does not change the load result of any other week |
| Storage.DecodeWhereSpec | src/sevens_rain/storage.py:82-86 | the scan over stored records fails exactly when a record it reads is corrupt; otherwise it returns exactly the decoded records in the window, no more of them than there are records |
| Storage.DecodeWhereStep | src/sevens_rain/storage.py:82-86 | one more record read: skipped outside the window, appended when it decodes, and the whole query fails when it does not |
| Storage.DecodedInWindow | src/sevens_rain/storage.py:82-119 | every week a query returns lies in its window |
| Storage.SliceTo | src/sevens_rain/storage.py:90 | Python's `s[:count]`, negative counts included: a prefix of the right length |
| Storage.MostRecentFirst | src/sevens_rain/storage.py:89-90 | the sorted slice comes from the input, most recent first, at most `count` long, all of it when `count` allows, skipping no more recent week |
| Storage.PreviousWeeksSpec | src/sevens_rain/storage.py:68-90 | `load_previous_weeks` gives only earlier weeks, most recent first, at most `count`, never skipping a more recent one |
| Storage.MonthWeeksSpec | src/sevens_rain/storage.py:92-123 | `get_month_weeks` gives the overlapping weeks ascending by week start, each decoded record once |
| Storage.MonthWeeksMembers | src/sevens_rain/storage.py:92-123 | a week is returned exactly when some stored record overlapping the month decodes to it |
| Storage.DecodeWhereFailurePersists | src/sevens_rain/storage.py:82-86 | a corrupt record makes the whole query fail, whatever follows it |
| Storage.PlanStorage.constructor | src/sevens_rain/storage.py:13-21 | the store holds the records already in the file |
| Storage.PlanStorage.SaveWeek | src/sevens_rain/storage.py:28-47 | the stored list becomes the saved form |
| Storage.PlanStorage.LoadWeek | src/sevens_rain/storage.py:49-66 | the scan returns what the first record of that week decodes to |
| Storage.PlanStorage.LoadPreviousWeeks | src/sevens_rain/storage.py:68-90 | the loop returns the specified previous weeks |
| Storage.PlanStorage.GetMonthWeeks | src/sevens_rain/storage.py:92-123 | the loop returns the specified month weeks |
| Storage.PlanStorage.DeleteWeek | src/sevens_rain/storage.py:141-161 | true exactly when a record of that week existed; afterwards none does and the others are kept |
| Storage.PlanStorage.ClearAll | src/sevens_rain/storage.py:163-165 | the store is empty |
| Audit.OnCallNames | comprehensive_rule_check.py:36-38 | the names listed are exactly those with an on-call entry that day |
| Audit.CollectOnCall | comprehensive_rule_check.py:36-38 | the scan collects exactly the on-call names of the day |
| Audit.CheckWeekCoverage | comprehensive_rule_check.py:32-47 | no finding exactly when every day of the week has exactly one on-call; every finding is real |
| Audit.CheckDailyCoverage | comprehensive_rule_check.py:20-56 | passes exactly when every day of every week has exactly one on-call; every reported day is not covered |
| Audit.OnCallUpToDays | comprehensive_rule_check.py:71-78 | the names scanned so far are exactly the on-call names of the earlier days |
| Audit.CountDay | comprehensive_rule_check.py:71-78 | fails exactly on an on-call name outside the roster; otherwise counts exactly the roster |
| Audit.CountOnCall | comprehensive_rule_check.py:64-78 | fails exactly when an off-roster name is on call; otherwise a roster name's count is positive exactly when it is on call that week |
| Audit.MissingInWeek | comprehensive_rule_check.py:80-84 | nothing missing exactly when everyone on the roster is on call that week; each reported name is on the roster and not on call |
| Audit.CheckMinimumOnCall | comprehensive_rule_check.py:58-97 | aborts exactly on an off-roster on-call name; otherwise passes exactly when everyone has an on-call in every week |
| Audit.CheckInWeekRest | comprehensive_rule_check.py:116-190 | no finding exactly when the employee rests through every rest window of the week; every finding is real |
| Audit.CheckCrossWeekRest | comprehensive_rule_check.py:194-234 | no finding exactly when the employee rests on every carried-over day of the next week; every finding is real |
| Audit.CheckWeekRest | comprehensive_rule_check.py:116-190 | no finding exactly when every roster employee keeps the week's rest windows |
| Audit.CheckPairRest | comprehensive_rule_check.py:194-234 | no finding exactly when every roster employee keeps the carried-over rest into the next week |
| Audit.CheckWeeksRest | comprehensive_rule_check.py:116-190 | no finding exactly when every week keeps its rest windows |
| Audit.CheckPairsRest | comprehensive_rule_check.py:194-234 | no finding exactly when every adjacent pair of weeks keeps the carried-over rest |
| Audit.CheckRestAfterOnCall | comprehensive_rule_check.py:99-243 | passes exactly when every rest window and carried-over rest is kept; every violation is real |
| Audit.WeekendDays | comprehensive_rule_check.py:263-274 | the weekend days listed are exactly those the employee is on call |
| Audit.CheckPairWeekends | comprehensive_rule_check.py:261-277 | no finding exactly when no roster employee is on call on both weekends |
| Audit.CheckConsecutiveWeekends | comprehensive_rule_check.py:245-292 | passes exactly when no one is on call on two consecutive weekends; every violation is real |
| Audit.FirstOnCallListed | comprehensive_rule_check.py:316-324 | the first on-call name exists exactly when the day has one, and is one of them |
| Audit.FindFirstOnCall | comprehensive_rule_check.py:316-324 | the scan finds the first on-call entry of the day |
| Audit.CheckPairWeekdays | comprehensive_rule_check.py:313-333 | no finding exactly when no weekday has the same first on-call name in both weeks |
| Audit.CheckRepeatedWeekday | comprehensive_rule_check.py:294-344 | passes exactly when no weekday repeats its first on-call name in the next week; every violation is real |
| RestAudit.WorkDayAfter | detailed_rule3_check.py:127-194 | the next-week day checked after a Thu..Sun on-call is Mon, Tue or Wed, and is not a carried-over rest day |
| RestAudit.AsFindings | detailed_rule3_check.py:28-107 | one finding per same-week violation, in order |
| RestAudit.AsFindingsHold | detailed_rule3_check.py:28-107 | wrapping same-week violations keeps them real findings |
| RestAudit.CarryOverByDay | detailed_rule3_check.py:114-194 | the cross-week demands are the Thursday, Friday, Saturday and Sunday blocks together |
| RestAudit.CheckThursdayCarryOver | detailed_rule3_check.py:127-136 | no finding exactly when a Thursday on-call is followed next Monday by neither ON_CALL nor REST (an unset cell passes) |
| RestAudit.CheckFridayCarryOver | detailed_rule3_check.py:139-154 | no finding exactly when a Friday on-call is followed by REST next Monday and by anything but ON_CALL next Tuesday |
| RestAudit.CheckWeekendCarryOver | detailed_rule3_check.py:157-194 | no finding exactly when a weekend on-call is followed by REST next Monday and Tuesday and by anything but ON_CALL next Wednesday |
| RestAudit.CheckCarryOver | detailed_rule3_check.py:114-194 | no finding exactly when the employee meets every carried-over demand; every finding is real |
| RestAudit.CheckPairCarryOver | detailed_rule3_check.py:114-194 | no finding exactly when every roster employee meets the carried-over demands |
| RestAudit.CheckInWeekPart | detailed_rule3_check.py:28-107 | no finding exactly when every week keeps its rest windows |
| RestAudit.CheckCrossWeekPart | detailed_rule3_check.py:114-194 | no finding exactly when every adjacent pair meets the carried-over demands |
| RestAudit.AnalyzeRule3 | detailed_rule3_check.py:6-208 | no violation exactly when every same-week and carried-over demand holds; every violation is real |
| RestAudit.DetailedImpliesRestKept | detailed_rule3_check.py:114-194 | whatever the detailed audit passes, rule 3 of the five-rule audit passes too |
| Cli.Body | seven_rain_cli.py:25-29 | the matched text minus the one newline `$` admits has the year-month shape |
| Cli.ParseYearMonth | seven_rain_cli.py:19-42 | an empty argument means the current month; a format error exactly when the pattern fails; a returned month is in range; each range error carries an out-of-range value; for a well-formed argument, the month its digits spell is returned exactly when the year is in 2020..currentYear+10 and the month in 1..12, else the year error when the year is out of range, else the month error |
| Cli.FormatThenParse | seven_rain_cli.py:19-42 | every accepted target month is accepted again in its `YYYY-MM` form |
| Cli.ParseThenFormat | seven_rain_cli.py:19-42 | the formatted form of a parsed month parses to the same month |
| Cli.TrailingNewlineAccepted | seven_rain_cli.py:25-42 | "2025-09" followed by one newline is accepted as September 2025, because `$` matches before a final newline |
| Cli.OneDigitMonthAccepted | seven_rain_cli.py:25-42 | "2025-9" is accepted as September 2025 |
| Cli.TwoNewlinesRejected | seven_rain_cli.py:25-27 | two trailing newlines are a format error |
| Conformance.StoredCell | src/sevens_rain/models.py:59-68 | a stored cell is the text of the plan's cell |
| Conformance.StoredOnCall | src/sevens_rain/models.py:53-68 | the stored day lists an employee as on call exactly when the plan has them on call |
| Conformance.StoredHasDays | src/sevens_rain/models.py:59-68 | a seven-day plan stores the seven day keys the audit reads |
| Conformance.StoredRestKept | comprehensive_rule_check.py:116-190 | a plan whose rest windows hold passes the same-week rest audit once stored |
| Conformance.StoredAtMostOne | comprehensive_rule_check.py:36-38 | a plan with at most one on-call a day stores at most one on-call entry a day |
| Conformance.StoredCovered | comprehensive_rule_check.py:36-43 | a day with an on-call in the plan is covered in the audit's sense once stored |
| Conformance.GeneratedPassesAudit | src/sevens_rain/scheduler.py:26-59 | a generated week, stored, passes the same-week rest audit and has exactly one on-call on every day that is not blocked |
| Conformance.KeysWithDistinct | comprehensive_rule_check.py:36-38 | in a stored plan the on-call listing names nobody twice |

## Left out

- Metadata and timestamps of the dict form and the store (`created_at`, `metadata`) are not modelled; a `WeekRecord` is the week start and the assignments.
- File I/O is not modelled: `_load_data`, `_save_data`, the backup and restore of the store, and `load_october_data` of the audit script. The store is the in-memory list of records; the audits take that list as a parameter.
- `get_all_weeks` and `get_statistics` of the store are not modelled; they are reporting helpers outside the scheduling and audit core.
- Printing and the reports the scripts print are not modelled; the checks return their outcome and their findings.
- Calendar dates are not modelled. A week start is an `int` day number. `date.fromisoformat`, `isoformat` and `timedelta` become integer arithmetic. `get_month_weeks` takes the month's first and last day numbers as parameters.
- The clock is a parameter: `datetime.now().year` is `currentYear` in `Cli.ParseYearMonth`.
- Decimal.ParseDayKey: accepts only canonical text such as `str` produces. Python's `int()` also takes "01", "+1", " 1" and non-ASCII digits. Two such keys naming the same day in one stored dict, where the later one wins, are not modelled.
- Cli.MatchesYearMonth covers ASCII digits only, while Python's `\d` also matches other Unicode digits.
- Cli.ParseYearMonth: the `except ValueError` branch of `parse_year_month` is not modelled, because `int` cannot fail on a string the pattern accepts.
- A stored row that names one employee twice is not modelled faithfully. A parsed JSON object cannot hold such a row, because `json.load` keeps the last value of a repeated key. On such a row `Rows.Lookup` takes the first entry, while `Rows.KeysWith` and `Audit.OnCallNames` list the employee twice, so the model can differ from the source there.
- Stored JSON values that are `null` or not strings are not modelled; a stored duty is text, and text that is not one of the three values is a decode failure.
- Scheduler.WeekScheduler.AssignOnCallDuties: the emergency branch, used when no employee passes the rules, puts the first unassigned roster employee on call. The model keeps that branch. The guarantee is therefore "covered unless every roster employee rests that day", not "covered every day".
- Scheduler.WeekScheduler.GenerateWeek: the generator does not guarantee rules 2, 4 and 5 of the audit, nor that the next-week day the detailed rest audit checks after a late-week on-call is not ON_CALL. The greedy search has no backtracking and can miss all of these.
- Scheduler.ShouldRestInsteadOfWork: the store read of `_should_assign_rest_instead_of_work` is the parameter `lastStored`, the most recent stored week before this one.
- The `assignments_made` counter of phase 2 is not modelled; nothing reads it.
- Scheduler.WeekScheduler.constructor: `rules or DEFAULT_RULES.copy()` sorts a caller's non-empty list in place, so the caller's list is reordered too. The model copies instead; it does not capture this aliasing.
- Rules: custom rules are a `Custom` variant whose verdict is a given function of the arguments. Rule objects defined outside the five built-in ones are not modelled otherwise.
- Audit.CheckedRoster: the audit script hard-codes six names. The checks take the roster as a parameter, and `CheckedRoster` is the script's list.
- Audit: a stored week lacking one of the day keys "0".."6" makes the script raise `KeyError`. The model requires the keys to be present (`AllHaveDays`) instead of modelling the exception.
- `excel_generator.py`, `main.py`, `build_exe.py` and `debug_specific.py` are not part of this model.
