/**
 * The generator against the audit: a week the scheduler produces, once put in
 * its stored dict form, passes the audit's same-week rest check, has at most
 * one on-call entry a day, and has exactly one on every day it could staff.
 */
module Conformance {
  import opened Wrappers
  import opened Rows
  import opened Decimal
  import opened Models
  import opened Rules
  import opened Scheduler
  import opened Audit

  /** A stored cell is the text of the plan's cell. */
  lemma StoredCell(w: Week, d: int, e: string)
    requires d in w.days
    ensures DayKey(d) in ToDict(w).assignments
    ensures Lookup(ToDict(w).assignments[DayKey(d)], e) ==
              if Assignment(w.days, d, e).Some? then Some(ValueOf(Assignment(w.days, d, e).value)) else None
  {
    LookupMapValues(w.days[d], ValueOf, e);
  }

  /** The stored day lists an employee as on call exactly when the plan has them on call. */
  lemma StoredOnCall(w: Week, d: int, e: string)
    requires d in w.days && WellFormed(w.days)
    ensures DayKey(d) in ToDict(w).assignments
    ensures e in KeysWith(ToDict(w).assignments[DayKey(d)], OnCallText) <==> Assignment(w.days, d, e) == Some(OnCall)
  {
    var row := ToDict(w).assignments[DayKey(d)];
    assert row == MapValues(w.days[d], ValueOf);
    assert UniqueKeys(row) by {
      assert forall i :: 0 <= i < |row| ==> row[i].0 == w.days[d][i].0;
    }
    KeysWithLookup(row, OnCallText, e);
    StoredCell(w, d, e);
    if Assignment(w.days, d, e).Some? {
      ValueOfDistinct(Assignment(w.days, d, e).value, OnCall);
    }
  }

  /** A plan with the seven days stores the seven day keys the audit reads. */
  lemma StoredHasDays(w: Week)
    requires w.days.Keys == WeekDays
    ensures HasDays(ToDict(w))
  {
    forall d | 0 <= d < 7 ensures DayKey(d) in ToDict(w).assignments {
      assert d in WeekDays;
      StoredCell(w, d, "");
    }
  }

  /** A plan whose rest windows hold passes the same-week part of the audit's
      rest check once stored, for any roster. */
  lemma StoredRestKept(w: Week, roster: seq<string>)
    requires w.days.Keys == WeekDays && RestWindowsHeld(w.days)
    ensures HasDays(ToDict(w))
    ensures WeekRestKept(ToDict(w), roster)
  {
    var rec := ToDict(w);
    StoredHasDays(w);
    forall e | e in roster ensures InWeekRestKept(rec, e) {
      forall d, x | 0 <= d < 7 && Get(rec, d, e) == Some(OnCallText) && x in RestWindow(d)
        ensures Get(rec, x, e) == Some(RestText)
      {
        assert d in WeekDays;
        StoredCell(w, d, e);
        ValueOfDistinct(Assignment(w.days, d, e).value, OnCall);
        assert x in WeekDays;
        StoredCell(w, x, e);
      }
    }
  }

  /** A plan with at most one on-call a day lists at most one on-call entry a
      day once stored. */
  lemma StoredAtMostOne(w: Week, d: int)
    requires w.days.Keys == WeekDays && WellFormed(w.days) && AtMostOneOnCall(w.days) && 0 <= d < 7
    ensures HasDays(ToDict(w))
    ensures |OnCallNames(ToDict(w), d)| <= 1
  {
    StoredHasDays(w);
    assert d in WeekDays;
    var row := ToDict(w).assignments[DayKey(d)];
    var names := KeysWith(row, OnCallText);
    if |names| > 1 {
      var a, b := names[0], names[1];
      StoredOnCall(w, d, a);
      StoredOnCall(w, d, b);
      assert a == b;
      KeysWithDistinct(row, OnCallText, d, w);
      assert false;
    }
  }

  /** A day on which someone is on call has exactly one on-call entry once stored. */
  lemma StoredCovered(w: Week, d: int, e: string)
    requires w.days.Keys == WeekDays && WellFormed(w.days) && AtMostOneOnCall(w.days) && 0 <= d < 7
    requires Assignment(w.days, d, e) == Some(OnCall)
    ensures HasDays(ToDict(w))
    ensures DayCovered(ToDict(w), d)
  {
    StoredAtMostOne(w, d);
    assert d in WeekDays;
    StoredOnCall(w, d, e);
    assert e in OnCallNames(ToDict(w), d);
  }

  /** What the generator guarantees, read through the audit: the stored week
      passes the same-week rest check, never lists two on-call entries a day,
      and lists exactly one on every day that is not blocked for the whole
      roster (so it passes rule 1 whenever no day is blocked). */
  lemma GeneratedPassesAudit(g: Days, employees: seq<string>, history: seq<Week>, lastStored: Option<Week>,
                             weekStart: int, roster: seq<string>)
    requires GeneratedWeek(g, employees, history, lastStored)
    ensures HasDays(ToDict(Week(weekStart, g)))
    ensures WeekRestKept(ToDict(Week(weekStart, g)), roster)
    ensures forall d :: 0 <= d < 7 ==> |OnCallNames(ToDict(Week(weekStart, g)), d)| <= 1
    ensures forall d :: 0 <= d < 7 && !(forall e :: e in employees ==> Assignment(g, d, e) == Some(Rest)) ==>
                        DayCovered(ToDict(Week(weekStart, g)), d)
  {
    var w := Week(weekStart, g);
    StoredRestKept(w, roster);
    forall d | 0 <= d < 7 ensures |OnCallNames(ToDict(w), d)| <= 1 {
      StoredAtMostOne(w, d);
    }
    forall d | 0 <= d < 7 && !(forall e :: e in employees ==> Assignment(g, d, e) == Some(Rest))
      ensures DayCovered(ToDict(w), d)
    {
      assert CoveredOrBlocked(g, employees, d);
      var e :| e in employees && Assignment(g, d, e) == Some(OnCall);
      StoredCovered(w, d, e);
    }
  }

  /** In the stored form of a well-formed plan, KeysWith lists no name twice. */
  lemma KeysWithDistinct(row: Row<string>, v: string, d: int, w: Week)
    requires d in w.days && WellFormed(w.days) && row == MapValues(w.days[d], ValueOf)
    ensures |KeysWith(row, v)| > 1 ==> KeysWith(row, v)[0] != KeysWith(row, v)[1]
  {
    assert UniqueKeys(row) by {
      assert forall i :: 0 <= i < |row| ==> row[i].0 == w.days[d][i].0;
    }
    KeysWithNoRepeats(row, v);
  }
}
