/**
 * The week plan: a grid from day of week (0 = Monday .. 6 = Sunday) to a dict
 * from employee name to duty type, its accessors, and its dict form
 * (`to_dict` / `from_dict`).  A plan whose cells the scheduler fills in place
 * is the class WeekPlan; a finished plan, as history and storage hand it
 * around, is the value Week.
 */
module Models {
  import opened Wrappers
  import opened Rows
  import opened Decimal

  /** WORK '白', ON_CALL '听', REST '休'. */
  datatype DayType = Work | OnCall | Rest

  /** The enum's value, the text a duty has in the dict form. */
  function ValueOf(t: DayType): string {
    match t
    case Work => "白"
    case OnCall => "听"
    case Rest => "休"
  }

  /** `DayType(value)`: None where Python raises ValueError. */
  function DayTypeOf(s: string): (t: Option<DayType>)
    ensures t.Some? ==> ValueOf(t.value) == s
    ensures t.None? <==> s != "白" && s != "听" && s != "休"
  {
    if s == "白" then Some(Work)
    else if s == "听" then Some(OnCall)
    else if s == "休" then Some(Rest)
    else None
  }

  /** The three values are pairwise distinct, so every duty reads back as itself. */
  lemma ValueOfDistinct(t: DayType, u: DayType)
    ensures ValueOf(t) == ValueOf(u) <==> t == u
    ensures DayTypeOf(ValueOf(t)) == Some(t)
  {
    assert ValueOf(Work) != ValueOf(OnCall) by { assert ValueOf(Work)[0] != ValueOf(OnCall)[0]; }
    assert ValueOf(Work) != ValueOf(Rest) by { assert ValueOf(Work)[0] != ValueOf(Rest)[0]; }
    assert ValueOf(OnCall) != ValueOf(Rest) by { assert ValueOf(OnCall)[0] != ValueOf(Rest)[0]; }
  }

  /** `assignments`: day -> (employee -> duty). */
  type Days = map<int, Row<DayType>>

  datatype Week = Week(weekStart: int, days: Days)

  /** Every day's dict holds each employee at most once, as a Python dict does. */
  predicate WellFormed(days: Days) {
    forall d :: d in days ==> UniqueKeys(days[d])
  }

  /** `get_assignment(day, employee)`. */
  function Assignment(days: Days, d: int, e: string): (r: Option<DayType>)
    ensures d !in days ==> r.None?
  {
    if d in days then Lookup(days[d], e) else None
  }

  /** The grid after `set_assignment(day, employee, duty)`. */
  function WithAssignment(days: Days, d: int, e: string, t: DayType): (r: Days)
    ensures r.Keys == days.Keys + {d}
    ensures forall d', e' {:trigger Assignment(r, d', e')} ::
              Assignment(r, d', e') == if d' == d && e' == e then Some(t) else Assignment(days, d', e')
    ensures WellFormed(days) ==> WellFormed(r)
  {
    var row := if d in days then days[d] else [];
    var r := days[d := Put(row, e, t)];
    assert WellFormed(days) ==> WellFormed(r) by {
      if WellFormed(days) {
        PutKeepsUniqueKeys(row, e, t);
      }
    }
    r
  }

  /** `get_on_call_employees(day)`: the employees whose entry on that day is ON_CALL,
      in dict order. */
  function OnCallEmployees(w: Week, d: int): (es: seq<string>)
    ensures forall e :: e in es <==> d in w.days && (e, OnCall) in w.days[d]
    ensures forall e :: Assignment(w.days, d, e) == Some(OnCall) ==> e in es
  {
    if d in w.days then
      var es := KeysWith(w.days[d], OnCall);
      assert forall e :: Assignment(w.days, d, e) == Some(OnCall) ==> e in es by {
        forall e ensures Lookup(w.days[d], e) == Some(OnCall) ==> e in es {
          LookupFound(w.days[d], e);
        }
      }
      es
    else []
  }

  /** In a well-formed grid, being listed as on call is exactly holding ON_CALL. */
  lemma OnCallEmployeesExact(w: Week, d: int, e: string)
    requires WellFormed(w.days)
    ensures e in OnCallEmployees(w, d) <==> Assignment(w.days, d, e) == Some(OnCall)
  {
    if d in w.days {
      KeysWithLookup(w.days[d], OnCall, e);
    }
  }

  const WeekDays: set<int> := set d | 0 <= d < 7

  /** Seven empty day dicts, for days 0..6. */
  function EmptyDays(): (days: Days)
    ensures days.Keys == WeekDays
    ensures forall d :: d in days ==> days[d] == []
  {
    map d | d in WeekDays :: []
  }

  /** `__post_init__`: a plan built with no assignments gets seven empty days. */
  function PostInit(weekStart: int, days: Days): (w: Week)
    ensures w.weekStart == weekStart
    ensures days != map[] ==> w.days == days
    ensures days == map[] ==> w.days.Keys == WeekDays &&
                              forall d, e :: Assignment(w.days, d, e).None?
    ensures WellFormed(days) ==> WellFormed(w.days)
  {
    Week(weekStart, if days == map[] then EmptyDays() else days)
  }

  class WeekPlan {
    var weekStart: int
    var days: Days

    /** The plan as a value, for the rules and for storage. */
    function Contents(): Week
      reads this
    {
      Week(weekStart, days)
    }

    constructor (weekStart: int, days: Days)
      ensures Contents() == PostInit(weekStart, days)
    {
      var w := PostInit(weekStart, days);
      this.weekStart := w.weekStart;
      this.days := w.days;
    }

    /** `set_assignment`: one cell changes, every other cell keeps its value. */
    method SetAssignment(d: int, e: string, t: DayType)
      modifies this
      ensures weekStart == old(weekStart)
      ensures days == WithAssignment(old(days), d, e, t)
    {
      days := WithAssignment(days, d, e, t);
    }

    /** `get_employee_schedule`: the employee's seven days, WORK where a cell is unset. */
    method EmployeeSchedule(e: string) returns (schedule: seq<DayType>)
      ensures |schedule| == 7
      ensures forall d :: 0 <= d < 7 ==> schedule[d] == Assignment(days, d, e).GetOr(Work)
    {
      schedule := [];
      var d := 0;
      while d < 7
        invariant 0 <= d <= 7 && |schedule| == d
        invariant forall x :: 0 <= x < d ==> schedule[x] == Assignment(days, x, e).GetOr(Work)
      {
        var row := if d in days then days[d] else [];
        schedule := schedule + [Lookup(row, e).GetOr(Work)];
        d := d + 1;
      }
    }
  }

  /** The dict form of a week (`to_dict`), with day keys and duty values as text.
      Metadata is not part of the model. */
  datatype WeekRecord = WeekRecord(weekStart: int, assignments: map<string, Row<string>>)

  function ToDict(w: Week): (r: WeekRecord)
    ensures r.weekStart == w.weekStart
    ensures forall d :: d in w.days ==> DayKey(d) in r.assignments &&
                                        r.assignments[DayKey(d)] == MapValues(w.days[d], ValueOf)
  {
    assert forall d1, d2 :: d1 in w.days && d2 in w.days && DayKey(d1) == DayKey(d2) ==> d1 == d2 by {
      forall d1, d2 | d1 in w.days && d2 in w.days && DayKey(d1) == DayKey(d2) ensures d1 == d2 {
        DayKeyInjective(d1, d2);
      }
    }
    WeekRecord(w.weekStart, map d | d in w.days :: DayKey(d) := MapValues(w.days[d], ValueOf))
  }

  /** Every key of the dict form is the text of one of the week's days. */
  lemma ToDictKeys(w: Week)
    ensures forall s :: s in ToDict(w).assignments ==> ParseDayKey(s).Some? && ParseDayKey(s).value in w.days
  {
    forall s | s in ToDict(w).assignments ensures ParseDayKey(s).Some? && ParseDayKey(s).value in w.days {
      var d :| d in w.days && DayKey(d) == s;
      DayKeyRoundTrip(d);
    }
  }

  /** The duties of one day's dict, or None if some value is not a duty's text. */
  function DecodeRow(row: Row<string>): (r: Option<Row<DayType>>)
    ensures r.Some? ==> |r.value| == |row| && forall i :: 0 <= i < |row| ==>
                          r.value[i].0 == row[i].0 && ValueOf(r.value[i].1) == row[i].1
    ensures r.None? <==> exists i :: 0 <= i < |row| && DayTypeOf(row[i].1).None?
  {
    if row == [] then Some([])
    else
      match (DayTypeOf(row[0].1), DecodeRow(row[1..]))
      case (Some(t), Some(rest)) => Some([(row[0].0, t)] + rest)
      case (None, _) => None
      case (_, None) =>
        assert exists i :: 0 <= i < |row[1..]| && DayTypeOf(row[1..][i].1).None?;
        var i :| 0 <= i < |row[1..]| && DayTypeOf(row[1..][i].1).None?;
        assert DayTypeOf(row[i + 1].1).None?;
        None
  }

  /** Every day key is `str` of an int and every value is a duty's text. */
  predicate Decodable(a: map<string, Row<string>>) {
    forall s :: s in a ==> ParseDayKey(s).Some? && DecodeRow(a[s]).Some?
  }

  /** The grid a decodable dict form stands for. */
  function DecodeDays(a: map<string, Row<string>>): (days: Days)
    requires Decodable(a)
    ensures forall s :: s in a ==> ParseDayKey(s).value in days &&
                                   days[ParseDayKey(s).value] == DecodeRow(a[s]).value
    ensures forall d :: d in days ==> DayKey(d) in a
  {
    map s | s in a :: ParseDayKey(s).value := DecodeRow(a[s]).value
  }

  /** `from_dict`: None where Python raises ValueError (a day key that is not
      `str` of an int, or a value that is not a duty's text). */
  function FromDict(r: WeekRecord): (w: Option<Week>)
    ensures w.Some? <==> Decodable(r.assignments)
    ensures w.Some? ==> w.value == PostInit(r.weekStart, DecodeDays(r.assignments))
  {
    if Decodable(r.assignments) then Some(PostInit(r.weekStart, DecodeDays(r.assignments)))
    else None
  }

  lemma {:induction false} DecodeEncodedRow(row: Row<DayType>)
    ensures DecodeRow(MapValues(row, ValueOf)) == Some(row)
  {
    if row != [] {
      var enc := MapValues(row, ValueOf);
      assert enc[1..] == MapValues(row[1..], ValueOf);
      DecodeEncodedRow(row[1..]);
      ValueOfDistinct(row[0].1, row[0].1);
      assert enc[0] == (row[0].0, ValueOf(row[0].1));
      assert DayTypeOf(enc[0].1) == Some(row[0].1);
      assert DecodeRow(enc) == Some([(row[0].0, row[0].1)] + row[1..]);
      assert [(row[0].0, row[0].1)] + row[1..] == row;
    }
  }

  /** A dict whose keys are exactly the texts of a grid's days, each holding
      the text form of that day, decodes to the grid. */
  lemma DecodesTo(a: map<string, Row<string>>, days: Days)
    requires forall d :: d in days ==> DayKey(d) in a && a[DayKey(d)] == MapValues(days[d], ValueOf)
    requires forall s :: s in a ==> ParseDayKey(s).Some? && ParseDayKey(s).value in days
    ensures Decodable(a)
    ensures DecodeDays(a) == days
  {
    forall s | s in a ensures DecodeRow(a[s]).Some? {
      var d := ParseDayKey(s).value;
      assert DayKey(d) == s;
      DecodeEncodedRow(days[d]);
    }
    var decoded := DecodeDays(a);
    forall d | d in days ensures d in decoded && decoded[d] == days[d] {
      DayKeyRoundTrip(d);
      DecodeEncodedRow(days[d]);
    }
    forall d | d in decoded ensures d in days {
      DayKeyRoundTrip(d);
    }
    SameMaps(decoded, days);
  }

  /** Two maps with the same keys and the same value at each key are equal. */
  lemma SameMaps<K, V>(m: map<K, V>, m': map<K, V>)
    requires m.Keys == m'.Keys && forall k :: k in m ==> m[k] == m'[k]
    ensures m == m'
  {
  }

  /** `from_dict(to_dict(p))` has p's week start and p's assignments (up to the
      seven empty days `__post_init__` puts in a plan that has none). */
  lemma FromDictToDict(w: Week)
    ensures FromDict(ToDict(w)) == Some(PostInit(w.weekStart, w.days))
  {
    ToDictKeys(w);
    DecodesTo(ToDict(w).assignments, w.days);
  }
}
