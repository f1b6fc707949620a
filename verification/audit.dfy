/**
 * The five-rule audit of a list of stored weeks (the dict form, duty values
 * as text).  Each check walks the weeks with nested loops, collects its
 * violations, and passes exactly when it found none; each is proved against a
 * declarative predicate stating the rule.
 *
 * The checks index `assignments[str(day)]` for days 0..6 directly, so every
 * week must carry all seven day keys (HasDays); the employee list the checks
 * walk is the parameter `roster` (CheckedRoster is the one the script uses).
 */
module Audit {
  import opened Wrappers
  import opened Rows
  import opened Decimal
  import opened Models
  import opened Rules

  const OnCallText: string := "听"
  const RestText: string := "休"

  /** The six names the audit script lists. */
  const CheckedRoster: seq<string> := ["姚强", "钱国祥", "包汀池", "孙震", "夏银龙", "张尧"]

  predicate HasDays(w: WeekRecord) {
    forall d :: 0 <= d < 7 ==> DayKey(d) in w.assignments
  }

  predicate AllHaveDays(weeks: seq<WeekRecord>) {
    forall i :: 0 <= i < |weeks| ==> HasDays(weeks[i])
  }

  /** `week['assignments'][str(day)]`. */
  function DayRow(w: WeekRecord, d: int): Row<string>
    requires HasDays(w) && 0 <= d < 7
  {
    w.assignments[DayKey(d)]
  }

  /** `week['assignments'][str(day)].get(emp)`. */
  function Get(w: WeekRecord, d: int, e: string): Option<string>
    requires HasDays(w) && 0 <= d < 7
  {
    Lookup(DayRow(w, d), e)
  }

  // ---------------------------------------------------------------------
  // Rule 1: exactly one on-call entry per day

  /** The names with an on-call entry on day d, in dict order. */
  function OnCallNames(w: WeekRecord, d: int): (names: seq<string>)
    requires HasDays(w) && 0 <= d < 7
    ensures forall e :: e in names <==> (e, OnCallText) in DayRow(w, d)
  {
    KeysWith(DayRow(w, d), OnCallText)
  }

  predicate DayCovered(w: WeekRecord, d: int)
    requires HasDays(w) && 0 <= d < 7
  {
    |OnCallNames(w, d)| == 1
  }

  predicate WeekCovered(w: WeekRecord)
    requires HasDays(w)
  {
    forall d :: 0 <= d < 7 ==> DayCovered(w, d)
  }

  predicate DailyCoverage(weeks: seq<WeekRecord>)
    requires AllHaveDays(weeks)
  {
    forall i :: 0 <= i < |weeks| ==> WeekCovered(weeks[i])
  }

  datatype CoverageViolation =
    | NobodyOnCall(week: nat, day: nat)
    | SeveralOnCall(week: nat, day: nat, names: seq<string>)

  /** The on-call entries of one day, collected by a scan of its dict. */
  method CollectOnCall(w: WeekRecord, d: int) returns (names: seq<string>)
    requires HasDays(w) && 0 <= d < 7
    ensures names == OnCallNames(w, d)
    ensures forall e :: e in names <==> Get(w, d, e) == Some(OnCallText) || (e, OnCallText) in DayRow(w, d)
  {
    var row := w.assignments[DayKey(d)];
    names := [];
    for j := 0 to |row|
      invariant names == KeysWith(row[..j], OnCallText)
    {
      assert row[..j + 1] == row[..j] + [row[j]];
      KeysWithSnoc(row[..j], row[j], OnCallText);
      if row[j].1 == OnCallText {
        names := names + [row[j].0];
      }
    }
    assert row[..|row|] == row;
    forall e ensures Get(w, d, e) == Some(OnCallText) ==> (e, OnCallText) in row {
      LookupFound(row, e);
    }
  }

  /** The day loop of the check for one week. */
  method CheckWeekCoverage(weeks: seq<WeekRecord>, i: nat) returns (found: seq<CoverageViolation>)
    requires AllHaveDays(weeks) && i < |weeks|
    ensures found == [] <==> WeekCovered(weeks[i])
    ensures forall v :: v in found ==> CoverageViolationHolds(weeks, v)
  {
    var w := weeks[i];
    found := [];
    for day := 0 to 7
      invariant found == [] <==> forall d :: 0 <= d < day ==> DayCovered(w, d)
      invariant forall v :: v in found ==> CoverageViolationHolds(weeks, v)
    {
      var oncall := CollectOnCall(w, day);
      if |oncall| != 1 {
        assert !DayCovered(w, day);
      }
      if |oncall| == 0 {
        found := found + [NobodyOnCall(i, day)];
      } else if |oncall| > 1 {
        found := found + [SeveralOnCall(i, day, oncall)];
      }
    }
  }

  /** The violation is real: the day it names does not have exactly one on-call
      entry, and it reports that day's on-call names. */
  predicate CoverageViolationHolds(weeks: seq<WeekRecord>, v: CoverageViolation)
    requires AllHaveDays(weeks)
  {
    v.week < |weeks| && v.day < 7 &&
    match v
    case NobodyOnCall(i, d) => OnCallNames(weeks[i], d) == []
    case SeveralOnCall(i, d, names) => |names| > 1 && names == OnCallNames(weeks[i], d)
  }

  /** `check_rule_1_daily_coverage`. */
  method CheckDailyCoverage(weeks: seq<WeekRecord>) returns (ok: bool, violations: seq<CoverageViolation>)
    requires AllHaveDays(weeks)
    ensures ok <==> violations == []
    ensures ok <==> DailyCoverage(weeks)
    ensures forall v :: v in violations ==> CoverageViolationHolds(weeks, v) && !DayCovered(weeks[v.week], v.day)
  {
    violations := [];
    for i := 0 to |weeks|
      invariant violations == [] <==> forall i' :: 0 <= i' < i ==> WeekCovered(weeks[i'])
      invariant forall v :: v in violations ==> CoverageViolationHolds(weeks, v)
    {
      var found := CheckWeekCoverage(weeks, i);
      violations := violations + found;
    }
    ok := violations == [];
  }

  // ---------------------------------------------------------------------
  // Rule 2: everyone on the roster on call at least once a week

  /** Every on-call entry of the week names someone on the roster (otherwise
      the count dict raises KeyError). */
  predicate WeekKnown(w: WeekRecord, roster: seq<string>)
    requires HasDays(w)
  {
    forall d, e :: 0 <= d < 7 && e in OnCallNames(w, d) ==> e in roster
  }

  predicate OnCallInWeek(w: WeekRecord, e: string)
    requires HasDays(w)
  {
    exists d :: 0 <= d < 7 && e in OnCallNames(w, d)
  }

  predicate WeekHasEveryone(w: WeekRecord, roster: seq<string>)
    requires HasDays(w)
  {
    forall e :: e in roster ==> OnCallInWeek(w, e)
  }

  predicate KnownOnCall(weeks: seq<WeekRecord>, roster: seq<string>)
    requires AllHaveDays(weeks)
  {
    forall i :: 0 <= i < |weeks| ==> WeekKnown(weeks[i], roster)
  }

  predicate EveryoneOnCall(weeks: seq<WeekRecord>, roster: seq<string>)
    requires AllHaveDays(weeks)
  {
    forall i :: 0 <= i < |weeks| ==> WeekHasEveryone(weeks[i], roster)
  }

  /** The on-call names of days 0..day-1, in scan order. */
  function OnCallUpTo(w: WeekRecord, day: int): (names: seq<string>)
    requires HasDays(w) && 0 <= day <= 7
    decreases day
  {
    if day == 0 then [] else OnCallUpTo(w, day - 1) + OnCallNames(w, day - 1)
  }

  lemma {:induction false} OnCallUpToDays(w: WeekRecord, day: int, e: string)
    requires HasDays(w) && 0 <= day <= 7
    ensures e in OnCallUpTo(w, day) <==> exists d :: 0 <= d < day && e in OnCallNames(w, d)
    decreases day
  {
    if day > 0 {
      OnCallUpToDays(w, day - 1, e);
    }
  }

  datatype MissingOnCall = MissingOnCall(week: nat, name: string)

  datatype MinimumOutcome =
    | UnknownEmployee(name: string)          // KeyError on a name not in the roster
    | Checked(ok: bool, violations: seq<MissingOnCall>)

  /** The entry loop of one day: add one to the count of each on-call name. */
  method CountDay(w: WeekRecord, day: int, roster: seq<string>, counts: map<string, int>) returns (r: Result<map<string, int>, string>)
    requires HasDays(w) && 0 <= day < 7
    requires forall e :: e in counts <==> e in roster
    requires forall e :: e in counts ==> counts[e] >= 0
    ensures r.Failure? <==> exists e :: e in OnCallNames(w, day) && e !in roster
    ensures r.Failure? ==> r.error !in roster && r.error in OnCallNames(w, day)
    ensures r.Success? ==> forall e :: e in r.value <==> e in roster
    ensures r.Success? ==> forall e :: e in r.value ==>
                             r.value[e] >= 0 && (r.value[e] > 0 <==> counts[e] > 0 || e in OnCallNames(w, day))
  {
    var row := w.assignments[DayKey(day)];
    var current := counts;
    for j := 0 to |row|
      invariant forall e :: e in current <==> e in roster
      invariant forall e :: e in KeysWith(row[..j], OnCallText) ==> e in roster
      invariant forall e :: e in current ==>
                  current[e] >= 0 && (current[e] > 0 <==> counts[e] > 0 || e in KeysWith(row[..j], OnCallText))
    {
      assert row[..j + 1] == row[..j] + [row[j]];
      KeysWithSnoc(row[..j], row[j], OnCallText);
      if row[j].1 == OnCallText {
        var emp := row[j].0;
        if emp !in current {
          assert row[j] in row;
          return Failure(emp);
        }
        current := current[emp := current[emp] + 1];
      }
    }
    assert row[..|row|] == row;
    return Success(current);
  }

  /** The on-call counts of one week, starting from zero for every roster name. */
  method CountOnCall(w: WeekRecord, roster: seq<string>) returns (r: Result<map<string, int>, string>)
    requires HasDays(w)
    ensures r.Failure? <==> !WeekKnown(w, roster)
    ensures r.Failure? ==> r.error !in roster && OnCallInWeek(w, r.error)
    ensures r.Success? ==> forall e :: e in r.value <==> e in roster
    ensures r.Success? ==> forall e :: e in r.value ==> r.value[e] >= 0 && (r.value[e] > 0 <==> OnCallInWeek(w, e))
  {
    var counts: map<string, int> := map e | e in roster :: 0;
    for day := 0 to 7
      invariant forall e :: e in counts <==> e in roster
      invariant forall e :: e in OnCallUpTo(w, day) ==> e in roster
      invariant forall e :: e in counts ==> counts[e] >= 0 && (counts[e] > 0 <==> e in OnCallUpTo(w, day))
    {
      var next := CountDay(w, day, roster, counts);
      if next.Failure? {
        return next;
      }
      counts := next.value;
    }
    forall e ensures e in OnCallUpTo(w, 7) <==> OnCallInWeek(w, e) {
      OnCallUpToDays(w, 7, e);
    }
    forall d, e | 0 <= d < 7 && e in OnCallNames(w, d) ensures e in roster {
      OnCallUpToDays(w, 7, e);
    }
    return Success(counts);
  }

  /** The roster loop of the check for one week: the names counted zero times. */
  method MissingInWeek(weeks: seq<WeekRecord>, i: nat, roster: seq<string>, counts: map<string, int>) returns (found: seq<MissingOnCall>)
    requires AllHaveDays(weeks) && i < |weeks|
    requires forall e :: e in counts <==> e in roster
    requires forall e :: e in counts ==> counts[e] >= 0 && (counts[e] > 0 <==> OnCallInWeek(weeks[i], e))
    ensures found == [] <==> WeekHasEveryone(weeks[i], roster)
    ensures forall v :: v in found ==> v.week == i && v.name in roster && !OnCallInWeek(weeks[i], v.name)
  {
    var w := weeks[i];
    found := [];
    // the dict's keys, in insertion order: the roster without repeats
    for k := 0 to |roster|
      invariant found == [] <==> forall e :: e in roster[..k] ==> OnCallInWeek(w, e)
      invariant forall v :: v in found ==> v.week == i && v.name in roster && !OnCallInWeek(weeks[i], v.name)
    {
      var emp := roster[k];
      assert forall x :: x in roster[..k + 1] <==> x in roster[..k] || x == emp;
      assert OnCallInWeek(w, emp) <==> counts[emp] > 0;
      if emp !in roster[..k] && counts[emp] == 0 {
        found := found + [MissingOnCall(i, emp)];
      }
    }
    assert roster[..|roster|] == roster;
  }

  /** `check_rule_2_minimum_oncall_per_week`. */
  method CheckMinimumOnCall(weeks: seq<WeekRecord>, roster: seq<string>) returns (r: MinimumOutcome)
    requires AllHaveDays(weeks)
    ensures r.UnknownEmployee? <==> !KnownOnCall(weeks, roster)
    ensures r.UnknownEmployee? ==> r.name !in roster && exists i :: 0 <= i < |weeks| && OnCallInWeek(weeks[i], r.name)
    ensures r.Checked? ==> (r.ok <==> r.violations == [])
    ensures r.Checked? ==> (r.ok <==> EveryoneOnCall(weeks, roster))
    ensures r.Checked? ==> forall v :: v in r.violations ==>
                             v.week < |weeks| && v.name in roster && !OnCallInWeek(weeks[v.week], v.name)
  {
    var violations: seq<MissingOnCall> := [];
    for i := 0 to |weeks|
      invariant forall i' :: 0 <= i' < i ==> WeekKnown(weeks[i'], roster)
      invariant violations == [] <==> forall i' :: 0 <= i' < i ==> WeekHasEveryone(weeks[i'], roster)
      invariant forall v :: v in violations ==>
                  v.week < |weeks| && v.name in roster && !OnCallInWeek(weeks[v.week], v.name)
    {
      var counted := CountOnCall(weeks[i], roster);
      if counted.Failure? {
        return UnknownEmployee(counted.error);
      }
      var found := MissingInWeek(weeks, i, roster, counted.value);
      violations := violations + found;
    }
    return Checked(violations == [], violations);
  }

  // ---------------------------------------------------------------------
  // Rule 3: rest after on-call, within the week and into the next one

  /** Same-week rest: whoever is on call on day d rests on each day of d's rest
      window (the same table as RestAfterOnCallRule's). */
  predicate InWeekRestKept(w: WeekRecord, e: string)
    requires HasDays(w)
  {
    forall d, x :: 0 <= d < 7 && Get(w, d, e) == Some(OnCallText) && x in RestWindow(d) ==>
                   Get(w, x, e) == Some(RestText)
  }

  /** Carried-over rest: Friday on-call rests next Monday; Saturday or Sunday
      on-call rests next Monday and Tuesday. */
  predicate CrossWeekRestKept(w: WeekRecord, next: WeekRecord, e: string)
    requires HasDays(w) && HasDays(next)
  {
    forall d, x :: 4 <= d < 7 && Get(w, d, e) == Some(OnCallText) && x in NextWeekRest(d) ==>
                   Get(next, x, e) == Some(RestText)
  }

  predicate WeekRestKept(w: WeekRecord, roster: seq<string>)
    requires HasDays(w)
  {
    forall e :: e in roster ==> InWeekRestKept(w, e)
  }

  predicate PairRestKept(w: WeekRecord, next: WeekRecord, roster: seq<string>)
    requires HasDays(w) && HasDays(next)
  {
    forall e :: e in roster ==> CrossWeekRestKept(w, next, e)
  }

  predicate RestKept(weeks: seq<WeekRecord>, roster: seq<string>)
    requires AllHaveDays(weeks)
  {
    && (forall i :: 0 <= i < |weeks| ==> WeekRestKept(weeks[i], roster))
    && (forall i :: 0 <= i < |weeks| - 1 ==> PairRestKept(weeks[i], weeks[i + 1], roster))
  }

  datatype RestViolation =
    | RestMissing(week: nat, name: string, onCallDay: nat, restDay: nat, actual: Option<string>)
    | CarriedRestMissing(week: nat, name: string, onCallDay: nat, nextWeekDay: nat, actual: Option<string>)

  /** The violation is real: the cell it names should be REST and is not. */
  predicate RestViolationHolds(weeks: seq<WeekRecord>, roster: seq<string>, v: RestViolation)
    requires AllHaveDays(weeks)
  {
    match v
    case RestMissing(i, e, d, x, actual) =>
      i < |weeks| && e in roster && d < 7 && Get(weeks[i], d, e) == Some(OnCallText) &&
      x in RestWindow(d) && actual == Get(weeks[i], x, e) && actual != Some(RestText)
    case CarriedRestMissing(i, e, d, x, actual) =>
      i + 1 < |weeks| && e in roster && 4 <= d < 7 && Get(weeks[i], d, e) == Some(OnCallText) &&
      x in NextWeekRest(d) && actual == Get(weeks[i + 1], x, e) && actual != Some(RestText)
  }

  /** The same-week part for one employee and one week. */
  method CheckInWeekRest(weeks: seq<WeekRecord>, roster: seq<string>, i: nat, e: string) returns (found: seq<RestViolation>)
    requires AllHaveDays(weeks) && i < |weeks| && e in roster
    ensures found == [] <==> InWeekRestKept(weeks[i], e)
    ensures forall v :: v in found ==> RestViolationHolds(weeks, roster, v)
  {
    var w := weeks[i];
    found := [];
    for day := 0 to 7
      invariant found == [] <==>
                  forall d, x :: 0 <= d < day && Get(w, d, e) == Some(OnCallText) && x in RestWindow(d) ==>
                                 Get(w, x, e) == Some(RestText)
      invariant forall v :: v in found ==> RestViolationHolds(weeks, roster, v)
    {
      if Get(w, day, e) == Some(OnCallText) {
        var restDays := RestWindow(day);
        ghost var before := found;
        for k := 0 to |restDays|
          invariant found == [] <==> before == [] && forall x :: x in restDays[..k] ==> Get(w, x, e) == Some(RestText)
          invariant forall v :: v in found ==> RestViolationHolds(weeks, roster, v)
        {
          var x := restDays[k];
          assert forall y :: y in restDays[..k + 1] <==> y in restDays[..k] || y == x;
          var actual := Get(w, x, e);
          if actual != Some(RestText) {
            found := found + [RestMissing(i, e, day, x, actual)];
          }
        }
        assert restDays[..|restDays|] == restDays;
      }
    }
  }

  /** The carried-over part for one employee and one pair of adjacent weeks. */
  method CheckCrossWeekRest(weeks: seq<WeekRecord>, roster: seq<string>, i: nat, e: string) returns (found: seq<RestViolation>)
    requires AllHaveDays(weeks) && i + 1 < |weeks| && e in roster
    ensures found == [] <==> CrossWeekRestKept(weeks[i], weeks[i + 1], e)
    ensures forall v :: v in found ==> RestViolationHolds(weeks, roster, v)
  {
    var w, next := weeks[i], weeks[i + 1];
    found := [];
    for day := 4 to 7
      invariant found == [] <==>
                  forall d, x :: 4 <= d < day && Get(w, d, e) == Some(OnCallText) && x in NextWeekRest(d) ==>
                                 Get(next, x, e) == Some(RestText)
      invariant forall v :: v in found ==> RestViolationHolds(weeks, roster, v)
    {
      if Get(w, day, e) == Some(OnCallText) {
        var restDays := NextWeekRest(day);
        ghost var before := found;
        for k := 0 to |restDays|
          invariant found == [] <==> before == [] && forall x :: x in restDays[..k] ==> Get(next, x, e) == Some(RestText)
          invariant forall v :: v in found ==> RestViolationHolds(weeks, roster, v)
        {
          var x := restDays[k];
          assert forall y :: y in restDays[..k + 1] <==> y in restDays[..k] || y == x;
          var actual := Get(next, x, e);
          if actual != Some(RestText) {
            found := found + [CarriedRestMissing(i, e, day, x, actual)];
          }
        }
        assert restDays[..|restDays|] == restDays;
      }
    }
  }

  /** The roster loop of the same-week part, for one week. */
  method CheckWeekRest(weeks: seq<WeekRecord>, roster: seq<string>, i: nat) returns (found: seq<RestViolation>)
    requires AllHaveDays(weeks) && i < |weeks|
    ensures found == [] <==> WeekRestKept(weeks[i], roster)
    ensures forall v :: v in found ==> RestViolationHolds(weeks, roster, v)
  {
    found := [];
    for k := 0 to |roster|
      invariant found == [] <==> forall e :: e in roster[..k] ==> InWeekRestKept(weeks[i], e)
      invariant forall v :: v in found ==> RestViolationHolds(weeks, roster, v)
    {
      assert forall x :: x in roster[..k + 1] <==> x in roster[..k] || x == roster[k];
      var more := CheckInWeekRest(weeks, roster, i, roster[k]);
      found := found + more;
    }
    assert roster[..|roster|] == roster;
  }

  /** The roster loop of the carried-over part, for weeks i and i + 1. */
  method CheckPairRest(weeks: seq<WeekRecord>, roster: seq<string>, i: nat) returns (found: seq<RestViolation>)
    requires AllHaveDays(weeks) && i + 1 < |weeks|
    ensures found == [] <==> PairRestKept(weeks[i], weeks[i + 1], roster)
    ensures forall v :: v in found ==> RestViolationHolds(weeks, roster, v)
  {
    var w, next := weeks[i], weeks[i + 1];
    found := [];
    for k := 0 to |roster|
      invariant found == [] <==> forall e :: e in roster[..k] ==> CrossWeekRestKept(w, next, e)
      invariant forall v :: v in found ==> RestViolationHolds(weeks, roster, v)
    {
      assert forall x :: x in roster[..k + 1] <==> x in roster[..k] || x == roster[k];
      var more := CheckCrossWeekRest(weeks, roster, i, roster[k]);
      found := found + more;
    }
    assert roster[..|roster|] == roster;
  }

  /** The same-week half of `check_rule_3_rest_after_oncall`, week by week. */
  method CheckWeeksRest(weeks: seq<WeekRecord>, roster: seq<string>) returns (found: seq<RestViolation>)
    requires AllHaveDays(weeks)
    ensures found == [] <==> forall i :: 0 <= i < |weeks| ==> WeekRestKept(weeks[i], roster)
    ensures forall v :: v in found ==> RestViolationHolds(weeks, roster, v)
  {
    found := [];
    for i := 0 to |weeks|
      invariant found == [] <==> forall i' :: 0 <= i' < i ==> WeekRestKept(weeks[i'], roster)
      invariant forall v :: v in found ==> RestViolationHolds(weeks, roster, v)
    {
      var more := CheckWeekRest(weeks, roster, i);
      WeeksRestStep(weeks, roster, i);
      found := found + more;
    }
  }

  /** One more week kept extends the weeks kept so far. */
  lemma WeeksRestStep(weeks: seq<WeekRecord>, roster: seq<string>, i: nat)
    requires AllHaveDays(weeks) && i < |weeks|
    ensures (forall i' :: 0 <= i' < i + 1 ==> WeekRestKept(weeks[i'], roster)) <==>
            (forall i' :: 0 <= i' < i ==> WeekRestKept(weeks[i'], roster)) && WeekRestKept(weeks[i], roster)
  {
  }

  /** The carried-over half, for each pair of list-adjacent weeks. */
  method CheckPairsRest(weeks: seq<WeekRecord>, roster: seq<string>) returns (found: seq<RestViolation>)
    requires AllHaveDays(weeks)
    ensures found == [] <==> forall i :: 0 <= i < |weeks| - 1 ==> PairRestKept(weeks[i], weeks[i + 1], roster)
    ensures forall v :: v in found ==> RestViolationHolds(weeks, roster, v)
  {
    found := [];
    for i := 0 to if |weeks| == 0 then 0 else |weeks| - 1
      invariant found == [] <==> forall i' :: 0 <= i' < i ==> PairRestKept(weeks[i'], weeks[i' + 1], roster)
      invariant forall v :: v in found ==> RestViolationHolds(weeks, roster, v)
    {
      var more := CheckPairRest(weeks, roster, i);
      found := found + more;
    }
  }

  /** `check_rule_3_rest_after_oncall`. */
  method CheckRestAfterOnCall(weeks: seq<WeekRecord>, roster: seq<string>) returns (ok: bool, violations: seq<RestViolation>)
    requires AllHaveDays(weeks)
    ensures ok <==> violations == []
    ensures ok <==> RestKept(weeks, roster)
    ensures forall v :: v in violations ==> RestViolationHolds(weeks, roster, v)
  {
    var inWeek := CheckWeeksRest(weeks, roster);
    var crossWeek := CheckPairsRest(weeks, roster);
    violations := inWeek + crossWeek;
    ok := violations == [];
  }

  // ---------------------------------------------------------------------
  // Rule 4: no weekend on-call in two consecutive weeks

  predicate WeekendOnCall(w: WeekRecord, e: string)
    requires HasDays(w)
  {
    Get(w, 5, e) == Some(OnCallText) || Get(w, 6, e) == Some(OnCallText)
  }

  predicate PairWeekendsApart(w: WeekRecord, next: WeekRecord, roster: seq<string>)
    requires HasDays(w) && HasDays(next)
  {
    forall e :: e in roster ==> !(WeekendOnCall(w, e) && WeekendOnCall(next, e))
  }

  predicate NoConsecutiveWeekends(weeks: seq<WeekRecord>, roster: seq<string>)
    requires AllHaveDays(weeks)
  {
    forall i :: 0 <= i < |weeks| - 1 ==> PairWeekendsApart(weeks[i], weeks[i + 1], roster)
  }

  datatype WeekendViolation = ConsecutiveWeekends(week: nat, name: string, first: seq<nat>, second: seq<nat>)

  /** The weekend days (5, 6) on which e is on call. */
  function WeekendDays(w: WeekRecord, e: string): (days: seq<nat>)
    requires HasDays(w)
    ensures days != [] <==> WeekendOnCall(w, e)
    ensures forall d :: d in days <==> (d == 5 || d == 6) && Get(w, d, e) == Some(OnCallText)
  {
    (if Get(w, 5, e) == Some(OnCallText) then [5] else []) + (if Get(w, 6, e) == Some(OnCallText) then [6] else [])
  }

  /** The roster loop of the check, for weeks i and i + 1. */
  method CheckPairWeekends(weeks: seq<WeekRecord>, roster: seq<string>, i: nat) returns (found: seq<WeekendViolation>)
    requires AllHaveDays(weeks) && i + 1 < |weeks|
    ensures found == [] <==> PairWeekendsApart(weeks[i], weeks[i + 1], roster)
    ensures forall v :: v in found ==> WeekendViolationHolds(weeks, roster, v)
  {
    var w, next := weeks[i], weeks[i + 1];
    found := [];
    for k := 0 to |roster|
      invariant found == [] <==> forall e :: e in roster[..k] ==> !(WeekendOnCall(w, e) && WeekendOnCall(next, e))
      invariant forall v :: v in found ==> WeekendViolationHolds(weeks, roster, v)
    {
      var emp := roster[k];
      assert forall x :: x in roster[..k + 1] <==> x in roster[..k] || x == emp;
      var current := WeekendDays(w, emp);
      var following := WeekendDays(next, emp);
      if current != [] && following != [] {
        found := found + [ConsecutiveWeekends(i, emp, current, following)];
      }
    }
    assert roster[..|roster|] == roster;
  }

  /** The violation is real: the named employee is on call on a weekend day of
      both weeks, on the days it lists. */
  predicate WeekendViolationHolds(weeks: seq<WeekRecord>, roster: seq<string>, v: WeekendViolation)
    requires AllHaveDays(weeks)
  {
    v.week + 1 < |weeks| && v.name in roster &&
    WeekendOnCall(weeks[v.week], v.name) && WeekendOnCall(weeks[v.week + 1], v.name) &&
    v.first == WeekendDays(weeks[v.week], v.name) && v.second == WeekendDays(weeks[v.week + 1], v.name)
  }

  /** `check_rule_4_no_consecutive_weekend`. */
  method CheckConsecutiveWeekends(weeks: seq<WeekRecord>, roster: seq<string>) returns (ok: bool, violations: seq<WeekendViolation>)
    requires AllHaveDays(weeks)
    ensures ok <==> violations == []
    ensures ok <==> NoConsecutiveWeekends(weeks, roster)
    ensures forall v :: v in violations ==> WeekendViolationHolds(weeks, roster, v)
  {
    violations := [];
    for i := 0 to if |weeks| == 0 then 0 else |weeks| - 1
      invariant violations == [] <==> forall i' :: 0 <= i' < i ==> PairWeekendsApart(weeks[i'], weeks[i' + 1], roster)
      invariant forall v :: v in violations ==> WeekendViolationHolds(weeks, roster, v)
    {
      var found := CheckPairWeekends(weeks, roster, i);
      violations := violations + found;
    }
    ok := violations == [];
  }

  // ---------------------------------------------------------------------
  // Rule 5: not the same weekday in consecutive weeks (first on-call entry only)

  /** The first on-call name of the day, in dict order; there is one exactly
      when the day has an on-call entry. */
  function FirstOnCall(w: WeekRecord, d: int): Option<string>
    requires HasDays(w) && 0 <= d < 7
  {
    FirstKeyWith(DayRow(w, d), OnCallText)
  }

  lemma FirstOnCallListed(w: WeekRecord, d: int)
    requires HasDays(w) && 0 <= d < 7
    ensures FirstOnCall(w, d).None? <==> OnCallNames(w, d) == []
    ensures FirstOnCall(w, d).Some? ==> FirstOnCall(w, d).value in OnCallNames(w, d)
  {
    FirstKeyWithListed(DayRow(w, d), OnCallText);
  }

  /** Both weeks' first on-call of day d is the same truthy (non-empty) name. */
  predicate Repeats(w: WeekRecord, next: WeekRecord, d: int)
    requires HasDays(w) && HasDays(next) && 0 <= d < 7
  {
    FirstOnCall(w, d).Some? && FirstOnCall(w, d).value != "" && FirstOnCall(next, d) == FirstOnCall(w, d)
  }

  predicate PairNoRepeat(w: WeekRecord, next: WeekRecord)
    requires HasDays(w) && HasDays(next)
  {
    forall d :: 0 <= d < 7 ==> !Repeats(w, next, d)
  }

  predicate NoRepeatedWeekday(weeks: seq<WeekRecord>)
    requires AllHaveDays(weeks)
  {
    forall i :: 0 <= i < |weeks| - 1 ==> PairNoRepeat(weeks[i], weeks[i + 1])
  }

  datatype WeekdayViolation = SameWeekday(week: nat, day: nat, name: string)

  /** The violation is real: the named employee is the first on-call entry of
      that weekday in both weeks. */
  predicate WeekdayViolationHolds(weeks: seq<WeekRecord>, v: WeekdayViolation)
    requires AllHaveDays(weeks)
  {
    v.week + 1 < |weeks| && v.day < 7 &&
    Repeats(weeks[v.week], weeks[v.week + 1], v.day) && FirstOnCall(weeks[v.week], v.day) == Some(v.name)
  }

  /** The scan of one day's dict that stops at the first on-call entry. */
  method FindFirstOnCall(w: WeekRecord, d: int) returns (found: Option<string>)
    requires HasDays(w) && 0 <= d < 7
    ensures found == FirstOnCall(w, d)
  {
    var row := w.assignments[DayKey(d)];
    for j := 0 to |row|
      invariant forall k :: 0 <= k < j ==> row[k].1 != OnCallText
    {
      if row[j].1 == OnCallText {
        FirstKeyWithAt(row, OnCallText, j);
        return Some(row[j].0);
      }
    }
    FirstKeyWithFound(row, OnCallText);
    return None;
  }

  /** The day loop of the check, for weeks i and i + 1. */
  method CheckPairWeekdays(weeks: seq<WeekRecord>, i: nat) returns (found: seq<WeekdayViolation>)
    requires AllHaveDays(weeks) && i + 1 < |weeks|
    ensures found == [] <==> PairNoRepeat(weeks[i], weeks[i + 1])
    ensures forall v :: v in found ==> WeekdayViolationHolds(weeks, v)
  {
    var w, next := weeks[i], weeks[i + 1];
    found := [];
    for day := 0 to 7
      invariant found == [] <==> forall d :: 0 <= d < day ==> !Repeats(w, next, d)
      invariant forall v :: v in found ==> WeekdayViolationHolds(weeks, v)
    {
      var current := FindFirstOnCall(w, day);
      var following := FindFirstOnCall(next, day);
      if current.Some? && current.value != "" && following.Some? && following.value != "" && current.value == following.value {
        assert Repeats(w, next, day);
        found := found + [SameWeekday(i, day, current.value)];
      }
    }
  }

  /** `check_rule_5_no_consecutive_weekday`. */
  method CheckRepeatedWeekday(weeks: seq<WeekRecord>) returns (ok: bool, violations: seq<WeekdayViolation>)
    requires AllHaveDays(weeks)
    ensures ok <==> violations == []
    ensures ok <==> NoRepeatedWeekday(weeks)
    ensures forall v :: v in violations ==> WeekdayViolationHolds(weeks, v)
  {
    violations := [];
    for i := 0 to if |weeks| == 0 then 0 else |weeks| - 1
      invariant violations == [] <==> forall i' :: 0 <= i' < i ==> PairNoRepeat(weeks[i'], weeks[i' + 1])
      invariant forall v :: v in violations ==> WeekdayViolationHolds(weeks, v)
    {
      var found := CheckPairWeekdays(weeks, i);
      violations := violations + found;
    }
    ok := violations == [];
  }
}
