/**
 * The detailed rest-after-on-call audit: the same-week rest table of the
 * five-rule audit, plus a stricter cross-week part that also looks at the
 * next-week day after a late-week on-call (Thursday -> next Monday, Friday ->
 * next Tuesday, Saturday or Sunday -> next Wednesday): that day must not be
 * ON_CALL, and after a Thursday on-call it must not be REST either.  Any
 * other value, an unset cell included, passes.
 */
module RestAudit {
  import opened Wrappers
  import opened Rules
  import opened Models
  import opened Audit

  /** A reported problem: a missing rest (same week or carried over), or a
      next-week day whose value the check rejects (ON_CALL, or REST after a
      Thursday on-call). */
  datatype Finding =
    | RestMissed(v: RestViolation)
    | WorkExpected(week: nat, name: string, onCallDay: nat, nextWeekDay: nat, actual: Option<string>)

  /** The next-week day checked after an on-call on day d (3..6): the first day
      past the carried-over rest. */
  function WorkDayAfter(d: int): (x: int)
    requires 3 <= d < 7
    ensures 0 <= x <= 2
    ensures x !in NextWeekRest(d)
  {
    if d == 3 then 0 else if d == 4 then 1 else 2
  }

  /** What the check accepts on that day: after Thursday anything but
      on-call or rest (an empty cell passes); after Friday to Sunday anything
      but on-call. */
  predicate WorkKept(d: int, actual: Option<string>) {
    if d == 3 then actual != Some(OnCallText) && actual != Some(RestText)
    else actual != Some(OnCallText)
  }

  predicate WorkAfterKept(w: WeekRecord, next: WeekRecord, e: string)
    requires HasDays(w) && HasDays(next)
  {
    forall d :: 3 <= d < 7 && Get(w, d, e) == Some(OnCallText) ==> WorkKept(d, Get(next, WorkDayAfter(d), e))
  }

  /** Everything the cross-week part demands of one employee for one pair of weeks. */
  predicate CarryOverKept(w: WeekRecord, next: WeekRecord, e: string)
    requires HasDays(w) && HasDays(next)
  {
    CrossWeekRestKept(w, next, e) && WorkAfterKept(w, next, e)
  }

  predicate PairCarryOverKept(w: WeekRecord, next: WeekRecord, roster: seq<string>)
    requires HasDays(w) && HasDays(next)
  {
    forall e :: e in roster ==> CarryOverKept(w, next, e)
  }

  predicate DetailedRestKept(weeks: seq<WeekRecord>, roster: seq<string>)
    requires AllHaveDays(weeks)
  {
    && (forall i :: 0 <= i < |weeks| ==> WeekRestKept(weeks[i], roster))
    && (forall i :: 0 <= i < |weeks| - 1 ==> PairCarryOverKept(weeks[i], weeks[i + 1], roster))
  }

  /** The finding is real: it names a cell that breaks the rule it reports. */
  predicate FindingHolds(weeks: seq<WeekRecord>, roster: seq<string>, f: Finding)
    requires AllHaveDays(weeks)
  {
    match f
    case RestMissed(v) => RestViolationHolds(weeks, roster, v)
    case WorkExpected(i, e, d, x, actual) =>
      i + 1 < |weeks| && e in roster && 3 <= d < 7 && Get(weeks[i], d, e) == Some(OnCallText) &&
      x == WorkDayAfter(d) && actual == Get(weeks[i + 1], x, e) && !WorkKept(d, actual)
  }

  /** The same-week findings, as findings of this check. */
  function AsFindings(vs: seq<RestViolation>): (fs: seq<Finding>)
    ensures |fs| == |vs|
    ensures forall k :: 0 <= k < |vs| ==> fs[k] == RestMissed(vs[k])
  {
    seq(|vs|, k requires 0 <= k < |vs| => RestMissed(vs[k]))
  }

  /** Wrapping keeps every finding real. */
  lemma AsFindingsHold(weeks: seq<WeekRecord>, roster: seq<string>, vs: seq<RestViolation>)
    requires AllHaveDays(weeks) && forall v :: v in vs ==> RestViolationHolds(weeks, roster, v)
    ensures forall f :: f in AsFindings(vs) ==> FindingHolds(weeks, roster, f)
  {
    forall f | f in AsFindings(vs) ensures FindingHolds(weeks, roster, f) {
      var k :| 0 <= k < |vs| && AsFindings(vs)[k] == f;
      assert vs[k] in vs;
    }
  }

  /** What the cross-week part demands of one employee after an on-call on day
      d (Thursday to Sunday): the carried-over rest days, then the day after them (WorkKept). */
  predicate DayCarryOverKept(w: WeekRecord, next: WeekRecord, e: string, d: int)
    requires HasDays(w) && HasDays(next) && 3 <= d < 7
  {
    Get(w, d, e) == Some(OnCallText) ==>
      (forall x :: x in NextWeekRest(d) ==> Get(next, x, e) == Some(RestText)) &&
      WorkKept(d, Get(next, WorkDayAfter(d), e))
  }

  /** The cross-week demands, taken day by day. */
  lemma CarryOverByDay(w: WeekRecord, next: WeekRecord, e: string)
    requires HasDays(w) && HasDays(next)
    ensures CarryOverKept(w, next, e) <==>
              DayCarryOverKept(w, next, e, 3) && DayCarryOverKept(w, next, e, 4) &&
              DayCarryOverKept(w, next, e, 5) && DayCarryOverKept(w, next, e, 6)
  {
    assert NextWeekRest(3) == [];
  }

  /** The Thursday block: next Monday is neither ON_CALL nor REST. */
  method CheckThursdayCarryOver(weeks: seq<WeekRecord>, roster: seq<string>, i: nat, e: string)
    returns (found: seq<Finding>)
    requires AllHaveDays(weeks) && i + 1 < |weeks| && e in roster
    ensures found == [] <==> DayCarryOverKept(weeks[i], weeks[i + 1], e, 3)
    ensures forall f :: f in found ==> FindingHolds(weeks, roster, f)
  {
    var w, next := weeks[i], weeks[i + 1];
    found := [];
    assert NextWeekRest(3) == [];
    if Get(w, 3, e) == Some(OnCallText) {
      var monday := Get(next, 0, e);
      if monday == Some(OnCallText) || monday == Some(RestText) {
        found := [WorkExpected(i, e, 3, 0, monday)];
      }
    }
  }

  /** The Friday block: next Monday rests, next Tuesday is not on call. */
  method CheckFridayCarryOver(weeks: seq<WeekRecord>, roster: seq<string>, i: nat, e: string)
    returns (found: seq<Finding>)
    requires AllHaveDays(weeks) && i + 1 < |weeks| && e in roster
    ensures found == [] <==> DayCarryOverKept(weeks[i], weeks[i + 1], e, 4)
    ensures forall f :: f in found ==> FindingHolds(weeks, roster, f)
  {
    var w, next := weeks[i], weeks[i + 1];
    found := [];
    assert NextWeekRest(4) == [0];
    if Get(w, 4, e) == Some(OnCallText) {
      var monday, tuesday := Get(next, 0, e), Get(next, 1, e);
      if monday != Some(RestText) {
        found := found + [RestMissed(CarriedRestMissing(i, e, 4, 0, monday))];
      }
      if tuesday == Some(OnCallText) {
        found := found + [WorkExpected(i, e, 4, 1, tuesday)];
      }
    }
  }

  /** The Saturday and Sunday blocks (identical apart from the day): next Monday
      and Tuesday rest, next Wednesday is not on call. */
  method CheckWeekendCarryOver(weeks: seq<WeekRecord>, roster: seq<string>, i: nat, e: string, d: nat)
    returns (found: seq<Finding>)
    requires AllHaveDays(weeks) && i + 1 < |weeks| && e in roster && (d == 5 || d == 6)
    ensures found == [] <==> DayCarryOverKept(weeks[i], weeks[i + 1], e, d)
    ensures forall f :: f in found ==> FindingHolds(weeks, roster, f)
  {
    var w, next := weeks[i], weeks[i + 1];
    found := [];
    assert NextWeekRest(d) == [0, 1];
    if Get(w, d, e) == Some(OnCallText) {
      var monday, tuesday, wednesday := Get(next, 0, e), Get(next, 1, e), Get(next, 2, e);
      if monday != Some(RestText) {
        found := found + [RestMissed(CarriedRestMissing(i, e, d, 0, monday))];
      }
      if tuesday != Some(RestText) {
        found := found + [RestMissed(CarriedRestMissing(i, e, d, 1, tuesday))];
      }
      if wednesday == Some(OnCallText) {
        found := found + [WorkExpected(i, e, d, 2, wednesday)];
      }
    }
  }

  /** The cross-week checks of one employee for weeks i and i + 1, in the order
      the script makes them. */
  method CheckCarryOver(weeks: seq<WeekRecord>, roster: seq<string>, i: nat, e: string) returns (found: seq<Finding>)
    requires AllHaveDays(weeks) && i + 1 < |weeks| && e in roster
    ensures found == [] <==> CarryOverKept(weeks[i], weeks[i + 1], e)
    ensures forall f :: f in found ==> FindingHolds(weeks, roster, f)
  {
    var thursday := CheckThursdayCarryOver(weeks, roster, i, e);
    var friday := CheckFridayCarryOver(weeks, roster, i, e);
    var saturday := CheckWeekendCarryOver(weeks, roster, i, e, 5);
    var sunday := CheckWeekendCarryOver(weeks, roster, i, e, 6);
    found := thursday + friday + saturday + sunday;
    CarryOverByDay(weeks[i], weeks[i + 1], e);
  }

  /** The roster loop of the cross-week part, for weeks i and i + 1. */
  method CheckPairCarryOver(weeks: seq<WeekRecord>, roster: seq<string>, i: nat) returns (found: seq<Finding>)
    requires AllHaveDays(weeks) && i + 1 < |weeks|
    ensures found == [] <==> PairCarryOverKept(weeks[i], weeks[i + 1], roster)
    ensures forall f :: f in found ==> FindingHolds(weeks, roster, f)
  {
    var w, next := weeks[i], weeks[i + 1];
    found := [];
    for k := 0 to |roster|
      invariant found == [] <==> forall e :: e in roster[..k] ==> CarryOverKept(w, next, e)
      invariant forall f :: f in found ==> FindingHolds(weeks, roster, f)
    {
      assert forall x :: x in roster[..k + 1] <==> x in roster[..k] || x == roster[k];
      var more := CheckCarryOver(weeks, roster, i, roster[k]);
      found := found + more;
    }
    assert roster[..|roster|] == roster;
  }

  /** The first half of the script: the same-week rest table, week by week. */
  method CheckInWeekPart(weeks: seq<WeekRecord>, roster: seq<string>) returns (found: seq<Finding>)
    requires AllHaveDays(weeks)
    ensures found == [] <==> forall i :: 0 <= i < |weeks| ==> WeekRestKept(weeks[i], roster)
    ensures forall f :: f in found ==> FindingHolds(weeks, roster, f)
  {
    var missing := CheckWeeksRest(weeks, roster);
    AsFindingsHold(weeks, roster, missing);
    found := AsFindings(missing);
  }

  /** The second half: the carry-over checks for each pair of list-adjacent weeks. */
  method CheckCrossWeekPart(weeks: seq<WeekRecord>, roster: seq<string>) returns (found: seq<Finding>)
    requires AllHaveDays(weeks)
    ensures found == [] <==> forall i :: 0 <= i < |weeks| - 1 ==> PairCarryOverKept(weeks[i], weeks[i + 1], roster)
    ensures forall f :: f in found ==> FindingHolds(weeks, roster, f)
  {
    found := [];
    for i := 0 to if |weeks| == 0 then 0 else |weeks| - 1
      invariant found == [] <==> forall i' :: 0 <= i' < i ==> PairCarryOverKept(weeks[i'], weeks[i' + 1], roster)
      invariant forall f :: f in found ==> FindingHolds(weeks, roster, f)
    {
      var more := CheckPairCarryOver(weeks, roster, i);
      found := found + more;
    }
  }

  /** `analyze_rule3_violations`, on the list of stored weeks. */
  method AnalyzeRule3(weeks: seq<WeekRecord>, roster: seq<string>) returns (violations: seq<Finding>)
    requires AllHaveDays(weeks)
    ensures violations == [] <==> DetailedRestKept(weeks, roster)
    ensures forall f :: f in violations ==> FindingHolds(weeks, roster, f)
  {
    var inWeek := CheckInWeekPart(weeks, roster);
    var crossWeek := CheckCrossWeekPart(weeks, roster);
    violations := inWeek + crossWeek;
  }

  /** The detailed audit is the stricter one: whatever it passes, rule 3 of the
      five-rule audit passes too. */
  lemma DetailedImpliesRestKept(weeks: seq<WeekRecord>, roster: seq<string>)
    requires AllHaveDays(weeks) && DetailedRestKept(weeks, roster)
    ensures RestKept(weeks, roster)
  {
    forall i | 0 <= i < |weeks| - 1 ensures PairRestKept(weeks[i], weeks[i + 1], roster) {
      assert PairCarryOverKept(weeks[i], weeks[i + 1], roster);
    }
  }
}
