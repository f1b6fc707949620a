/**
 * The week scheduler: an ordered roster, a rule list kept sorted by priority,
 * and the three-phase greedy generator.
 *
 *   1. mandatory REST carried over from last week's Fri/Sat/Sun on-call;
 *   2. one ON_CALL per day, chosen greedily in roster order among the
 *      employees every rule accepts, each followed at once by its same-week
 *      rest window; when nobody is acceptable, the first still-unassigned
 *      employee is put on call regardless of the rules;
 *   3. every remaining cell of a roster employee filled with WORK or REST.
 *
 * There is no backtracking and no repair: what the generator guarantees is
 * at most one ON_CALL per day, the rest windows and carried-over rest, and a
 * full grid (GeneratedWeek).
 */
module Scheduler {
  import opened Wrappers
  import opened Rows
  import opened Models
  import opened Rules
  import opened Sorting

  /** The constructor's sort leaves the default rules as they are: they are
      declared in priority order. */
  lemma DefaultRulesSorted()
    ensures SortBy(DefaultRules(), NegPriority) == DefaultRules()
  {
    var rs := DefaultRules();
    assert SortedBy(rs, NegPriority);
    SortBySorted(rs, NegPriority);
  }

  /** Removing one rule from a sorted list leaves it sorted. */
  lemma RemovalKeepsSorted(rs: seq<Rule>, i: int)
    requires SortedBy(rs, NegPriority) && 0 <= i < |rs|
    ensures SortedBy(rs[..i] + rs[i + 1..], NegPriority)
  {
    var r := rs[..i] + rs[i + 1..];
    forall a, b | 0 <= a < b < |r| ensures NegPriority(r[a]) <= NegPriority(r[b]) {
      var a' := if a < i then a else a + 1;
      var b' := if b < i then b else b + 1;
      assert r[a] == rs[a'] && r[b] == rs[b'];
    }
  }

  /** `[emp for emp in available if emp in needing]`. */
  function StillNeeding(available: seq<string>, needing: seq<string>): (r: seq<string>)
    ensures forall x :: x in r <==> x in available && x in needing
  {
    if available == [] then []
    else if available[0] in needing then [available[0]] + StillNeeding(available[1..], needing)
    else StillNeeding(available[1..], needing)
  }

  /** `_choose_employee_for_oncall`: always one of the available employees; among
      several, one who still needs an on-call this week whenever there is one,
      by rotation on the day number. */
  function ChooseEmployeeForOnCall(available: seq<string>, day: nat, needing: seq<string>): (chosen: string)
    requires available != []
    ensures chosen in available
    ensures |available| == 1 ==> chosen == available[0]
    ensures |available| > 1 && (exists x :: x in available && x in needing) ==> chosen in needing
    // the rotation: position `day` modulo the length, among the still-needing
    // available employees when there are any, otherwise among all available ones
    ensures |available| > 1 && StillNeeding(available, needing) != [] ==>
              chosen == StillNeeding(available, needing)[day % |StillNeeding(available, needing)|]
    ensures |available| > 1 && StillNeeding(available, needing) == [] ==> chosen == available[day % |available|]
  {
    if |available| == 1 then available[0]
    else
      var both := StillNeeding(available, needing);
      assert both != [] ==> both[0] in needing;
      if needing != [] && both != [] then both[day % |both|]
      else available[day % |available|]
  }

  /** The employees of `es` that are unassigned on `day` and that every rule accepts
      for ON_CALL there, in roster order. */
  function Candidates(es: seq<string>, days: Days, day: int, rules: seq<Rule>, week: Week, history: seq<Week>)
    : (r: seq<string>)
    ensures forall x :: x in r <==>
              x in es && Assignment(days, day, x).None? && ValidateAll(rules, x, day, OnCall, week, history)
  {
    if es == [] then []
    else
      var e := es[|es| - 1];
      var r := Candidates(es[..|es| - 1], days, day, rules, week, history);
      assert forall x :: x in es <==> x in es[..|es| - 1] || x == e;
      if Assignment(days, day, e).None? && ValidateAll(rules, e, day, OnCall, week, history) then r + [e] else r
  }

  /** The position of the first occurrence of x in s. */
  function IndexOf(s: seq<string>, x: string): (i: nat)
    requires x in s
    ensures i < |s| && s[i] == x && x !in s[..i]
  {
    if s[0] == x then 0
    else
      var j := IndexOf(s[1..], x);
      assert s[..j + 1] == [s[0]] + s[1..][..j];
      j + 1
  }

  /** `list.remove(x)`: drop the first occurrence. */
  function RemoveFirst(s: seq<string>, x: string): (r: seq<string>)
    requires x in s
    ensures multiset(r) == multiset(s) - multiset{x}
  {
    var i := IndexOf(s, x);
    assert s == s[..i] + [x] + s[i + 1..];
    s[..i] + s[i + 1..]
  }

  /** The grid after REST has been set for `e` on each day of `ds`, in order. */
  function WithRest(days: Days, e: string, ds: seq<int>): (r: Days)
    ensures r.Keys == days.Keys + (set x | x in ds)
    ensures forall x, y {:trigger Assignment(r, x, y)} ::
              Assignment(r, x, y) == if y == e && x in ds then Some(Rest) else Assignment(days, x, y)
    ensures WellFormed(days) ==> WellFormed(r)
  {
    if ds == [] then days
    else
      var init := ds[..|ds| - 1];
      assert forall x :: x in ds <==> x in init || x == ds[|ds| - 1];
      WithAssignment(WithRest(days, e, init), ds[|ds| - 1], e, Rest)
  }

  /** REST for `e` on Monday and Tuesday. */
  function RestMondayTuesday(g: Days, e: string): (r: Days)
    ensures r.Keys == g.Keys + {0, 1}
    ensures WellFormed(g) ==> WellFormed(r)
    ensures forall x, y {:trigger Assignment(r, x, y)} ::
              Assignment(r, x, y) == if y == e && 0 <= x <= 1 then Some(Rest) else Assignment(g, x, y)
  {
    WithAssignment(WithAssignment(g, 0, e, Rest), 1, e, Rest)
  }

  /** The grid after one employee's pass of phase 1: REST on Monday after last
      week's Friday on-call, on Monday and Tuesday after its Saturday or Sunday
      on-call. */
  function CarryRestFor(g: Days, e: string, last: Week): (r: Days)
    ensures g.Keys <= r.Keys <= g.Keys + {0, 1}
    ensures WellFormed(g) ==> WellFormed(r)
    ensures forall x, y {:trigger Assignment(r, x, y)} ::
              Assignment(r, x, y) == if y == e && CarriedRest(last, e, x) then Some(Rest) else Assignment(g, x, y)
  {
    var fri := e in OnCallEmployees(last, 4);
    var sat := e in OnCallEmployees(last, 5);
    var sun := e in OnCallEmployees(last, 6);
    var g1 := if fri then WithAssignment(g, 0, e, Rest) else g;
    var g2 := if sat then RestMondayTuesday(g1, e) else g1;
    var g3 := if sun then RestMondayTuesday(g2, e) else g2;
    assert forall x, y {:trigger Assignment(g1, x, y)} ::
      Assignment(g1, x, y) == if y == e && fri && x == 0 then Some(Rest) else Assignment(g, x, y);
    assert forall x, y {:trigger Assignment(g2, x, y)} ::
      Assignment(g2, x, y) == if y == e && ((fri && x == 0) || (sat && 0 <= x <= 1)) then Some(Rest) else Assignment(g, x, y);
    assert forall x, y {:trigger Assignment(g3, x, y)} ::
      Assignment(g3, x, y) == if y == e && ((fri && x == 0) || ((sat || sun) && 0 <= x <= 1)) then Some(Rest) else Assignment(g, x, y);
    CarriedRestDays(last, e);
    g3
  }

  /** The carried-over rest days spelled out: Monday after a Friday on-call,
      Monday and Tuesday after a Saturday or Sunday one. */
  lemma CarriedRestDays(last: Week, e: string)
    ensures forall x :: CarriedRest(last, e, x) <==>
              (e in OnCallEmployees(last, 4) && x == 0) ||
              ((e in OnCallEmployees(last, 5) || e in OnCallEmployees(last, 6)) && 0 <= x <= 1)
  {
    assert NextWeekRest(4) == [0] && NextWeekRest(5) == [0, 1] && NextWeekRest(6) == [0, 1];
  }

  /** The grid after phase 1 has passed over the employees `es`. */
  function CarryRest(g: Days, es: seq<string>, last: Week): (r: Days)
    ensures g.Keys <= r.Keys <= g.Keys + {0, 1}
    ensures WellFormed(g) ==> WellFormed(r)
    ensures forall x, y {:trigger Assignment(r, x, y)} ::
              Assignment(r, x, y) == if y in es && CarriedRest(last, y, x) then Some(Rest) else Assignment(g, x, y)
  {
    if es == [] then g
    else
      var init := es[..|es| - 1];
      assert forall y :: y in es <==> y in init || y == es[|es| - 1];
      CarryRestFor(CarryRest(g, init, last), es[|es| - 1], last)
  }

  /** Every cell on days 0..6 that is set holds REST. */
  ghost predicate OnlyRest(days: Days) {
    forall d, e :: 0 <= d < 7 && Assignment(days, d, e).Some? ==> Assignment(days, d, e) == Some(Rest)
  }

  /** No day of the week has two employees on call. */
  ghost predicate AtMostOneOnCall(days: Days) {
    forall d, e1, e2 ::
      0 <= d < 7 && Assignment(days, d, e1) == Some(OnCall) && Assignment(days, d, e2) == Some(OnCall) ==> e1 == e2
  }

  /** Whoever is on call on day d rests on every day of d's rest window. */
  ghost predicate RestWindowsHeld(days: Days) {
    forall d, e, x :: 0 <= d < 7 && Assignment(days, d, e) == Some(OnCall) && x in RestWindow(d) ==>
                      Assignment(days, x, e) == Some(Rest)
  }

  /** Day d has a roster employee on call, or every roster employee rests that day. */
  ghost predicate CoveredOrBlocked(days: Days, employees: seq<string>, d: int) {
    || (exists e :: e in employees && Assignment(days, d, e) == Some(OnCall))
    || (forall e :: e in employees ==> Assignment(days, d, e) == Some(Rest))
  }

  /** Employee e rests on day x because x lies in the rest window of an earlier
      on-call of e. */
  ghost predicate InOwnRestWindow(days: Days, e: string, x: int) {
    exists d0 :: 0 <= d0 < x && Assignment(days, d0, e) == Some(OnCall) && x in RestWindow(d0)
  }

  /** What phase 2 has established once days 0..day-1 are processed, starting from
      the grid `start` that phase 1 left. */
  ghost predicate Phase2Inv(g: Days, start: Days, employees: seq<string>, day: int) {
    && 0 <= day <= 7
    && WellFormed(g)
    && start.Keys <= g.Keys <= start.Keys + WeekDays
    && (forall d, e :: (e !in employees || d < 0 || d > 6) ==> Assignment(g, d, e) == Assignment(start, d, e))
    && (forall d, e :: Assignment(start, d, e) == Some(Rest) ==> Assignment(g, d, e) == Some(Rest))
    && (forall d, e :: day <= d < 7 && Assignment(g, d, e).Some? ==> Assignment(g, d, e) == Some(Rest))
    && (forall d, e :: 0 <= d < 7 && Assignment(g, d, e).Some? ==>
                       Assignment(g, d, e) == Some(Rest) || Assignment(g, d, e) == Some(OnCall))
    && AtMostOneOnCall(g)
    && (forall d :: 0 <= d < day ==> CoveredOrBlocked(g, employees, d))
    && RestWindowsHeld(g)
    // phase 2 writes REST only inside the rest window of an on-call it placed
    && (forall x, e :: Assignment(g, x, e) == Some(Rest) ==>
                       Assignment(start, x, e) == Some(Rest) || InOwnRestWindow(g, e, x))
  }

  lemma Phase2Start(start: Days, employees: seq<string>)
    requires OnlyRest(start) && WellFormed(start)
    ensures Phase2Inv(start, start, employees, 0)
  {
  }

  /** g2 is g with `c` on call on `day` and resting on that day's rest window. */
  ghost predicate Placed(g: Days, g2: Days, day: int, c: string) {
    && (forall x :: x in g2 <==> x in g || x == day || x in RestWindow(day))
    && (WellFormed(g) ==> WellFormed(g2))
    && forall x, y {:trigger Assignment(g2, x, y)} ::
         Assignment(g2, x, y) ==
           if y == c && x == day then Some(OnCall)
           else if y == c && x in RestWindow(day) then Some(Rest)
           else Assignment(g, x, y)
  }

  lemma PlacedBySteps(g: Days, day: int, c: string)
    ensures Placed(g, WithRest(WithAssignment(g, day, c, OnCall), c, RestWindow(day)), day, c)
  {
  }

  /** Putting an unassigned roster employee on call on `day`, with the rest window,
      keeps the invariant and covers the day. */
  lemma PlaceOnCall(g: Days, g2: Days, start: Days, employees: seq<string>, day: int, c: string)
    requires Phase2Inv(g, start, employees, day) && day < 7
    requires c in employees && Assignment(g, day, c).None?
    requires Placed(g, g2, day, c)
    ensures Phase2Inv(g2, start, employees, day + 1)
  {
    assert forall x :: x in RestWindow(day) ==> day < x <= 6;
    assert day !in RestWindow(day);
    forall x | x in start ensures x in g2 {
      assert x in g;
    }
    forall x | x in g2 ensures x in start || x in WeekDays {
      if x !in g {
        assert x == day || x in RestWindow(day);
      }
    }
    // the only new ON_CALL cell is (day, c)
    forall d, e | Assignment(g2, d, e) == Some(OnCall) && !(d == day && e == c)
      ensures Assignment(g, d, e) == Some(OnCall)
    {
    }
    forall d, e, x | 0 <= d < 7 && Assignment(g2, d, e) == Some(OnCall) && x in RestWindow(d)
      ensures Assignment(g2, x, e) == Some(Rest)
    {
      if !(d == day && e == c) {
        assert Assignment(g, x, e) == Some(Rest);
      }
    }
    PlacedRestExplained(g, g2, start, employees, day, c);
    forall d | 0 <= d < day + 1 ensures CoveredOrBlocked(g2, employees, d) {
      if d == day {
        assert Assignment(g2, day, c) == Some(OnCall);
      } else {
        assert CoveredOrBlocked(g, employees, d);
        if exists e :: e in employees && Assignment(g, d, e) == Some(OnCall) {
          var e :| e in employees && Assignment(g, d, e) == Some(OnCall);
          assert Assignment(g2, d, e) == Some(OnCall);
        } else {
          forall e | e in employees ensures Assignment(g2, d, e) == Some(Rest) {
            assert Assignment(g, d, e) == Some(Rest);
          }
        }
      }
    }
  }

  /** After a placement every REST not inherited from `start` still lies in the
      rest window of an earlier on-call of the same employee. */
  lemma PlacedRestExplained(g: Days, g2: Days, start: Days, employees: seq<string>, day: int, c: string)
    requires Phase2Inv(g, start, employees, day) && day < 7
    requires Placed(g, g2, day, c)
    ensures forall x, e :: Assignment(g2, x, e) == Some(Rest) ==>
                           Assignment(start, x, e) == Some(Rest) || InOwnRestWindow(g2, e, x)
  {
    forall x, e | Assignment(g2, x, e) == Some(Rest) && Assignment(start, x, e) != Some(Rest)
      ensures InOwnRestWindow(g2, e, x)
    {
      if e == c && x in RestWindow(day) {
        assert Assignment(g2, day, c) == Some(OnCall);
      } else {
        assert Assignment(g, x, e) == Some(Rest);
        var d0 :| 0 <= d0 < x && Assignment(g, d0, e) == Some(OnCall) && x in RestWindow(d0);
        assert Assignment(g2, d0, e) == Some(OnCall);
      }
    }
  }

  /** A day on which every roster employee is already assigned is blocked: they all rest. */
  lemma DayBlocked(g: Days, start: Days, employees: seq<string>, day: int)
    requires Phase2Inv(g, start, employees, day) && day < 7
    requires forall e :: e in employees ==> Assignment(g, day, e).Some?
    ensures Phase2Inv(g, start, employees, day + 1)
  {
    assert CoveredOrBlocked(g, employees, day);
  }

  /** The value phase 3 gives an unassigned cell. */
  function FillValue(e: string, d: int, lastStored: Option<Week>): DayType {
    if d >= 5 then Rest
    else if ShouldRestInsteadOfWork(e, d, lastStored) then Rest
    else Work
  }

  /** `_should_assign_rest_instead_of_work`, with the most recent stored week before
      this one passed in: Monday after that week's Friday on-call. */
  function ShouldRestInsteadOfWork(e: string, d: int, lastStored: Option<Week>): (rest: bool)
    ensures rest ==> d == 0
  {
    if lastStored.None? then false
    else if d == 0 && e in OnCallEmployees(lastStored.value, 4) then true
    else false
  }

  /** The grid after phase 3 has filled day `day` for the employees `es`. */
  function FillDay(g: Days, es: seq<string>, day: int, lastStored: Option<Week>): Days {
    if es == [] then g
    else
      var h := FillDay(g, es[..|es| - 1], day, lastStored);
      var e := es[|es| - 1];
      if Assignment(h, day, e).None? then WithAssignment(h, day, e, FillValue(e, day, lastStored)) else h
  }

  /** Filling for one more employee: their cell is set if it was unset. */
  lemma FillDayStep(g: Days, es: seq<string>, i: nat, day: int, lastStored: Option<Week>)
    requires i < |es|
    ensures var h := FillDay(g, es[..i], day, lastStored);
            FillDay(g, es[..i + 1], day, lastStored) ==
              if Assignment(h, day, es[i]).None? then WithAssignment(h, day, es[i], FillValue(es[i], day, lastStored)) else h
  {
    assert es[..i + 1][..i] == es[..i];
  }

  /** The grid after phase 3 has filled days 0..n-1. */
  function FillDays(g: Days, es: seq<string>, n: nat, lastStored: Option<Week>): Days {
    if n == 0 then g else FillDay(FillDays(g, es, n - 1, lastStored), es, n - 1, lastStored)
  }

  /** Filling a day sets exactly the unassigned cells of the listed employees on it. */
  lemma {:induction false} FillDayCells(g: Days, es: seq<string>, day: int, lastStored: Option<Week>)
    ensures var r := FillDay(g, es, day, lastStored);
            && (forall x :: x in r <==> x in g || (es != [] && x == day))
            && (WellFormed(g) ==> WellFormed(r))
            && forall x, y {:trigger Assignment(r, x, y)} ::
                 Assignment(r, x, y) ==
                   if x == day && y in es && Assignment(g, x, y).None? then Some(FillValue(y, x, lastStored))
                   else Assignment(g, x, y)
  {
    if es != [] {
      var init := es[..|es| - 1];
      var e := es[|es| - 1];
      assert forall y :: y in es <==> y in init || y == e;
      FillDayCells(g, init, day, lastStored);
    }
  }

  /** Filling days 0..n-1 sets exactly the unassigned cells of the listed employees on them. */
  lemma {:induction false} FillDaysCells(g: Days, es: seq<string>, n: nat, lastStored: Option<Week>)
    ensures var r := FillDays(g, es, n, lastStored);
            && (forall x :: x in r <==> x in g || (es != [] && 0 <= x < n))
            && (WellFormed(g) ==> WellFormed(r))
            && forall x, y {:trigger Assignment(r, x, y)} ::
                 Assignment(r, x, y) ==
                   if 0 <= x < n && y in es && Assignment(g, x, y).None? then Some(FillValue(y, x, lastStored))
                   else Assignment(g, x, y)
  {
    if n > 0 {
      var h := FillDays(g, es, n - 1, lastStored);
      FillDaysCells(g, es, n - 1, lastStored);
      FillDayCells(h, es, n - 1, lastStored);
      var r := FillDay(h, es, n - 1, lastStored);
      forall x, y ensures Assignment(r, x, y) ==
          if 0 <= x < n && y in es && Assignment(g, x, y).None? then Some(FillValue(y, x, lastStored))
          else Assignment(g, x, y) {
        if x == n - 1 {
          assert Assignment(h, x, y) == Assignment(g, x, y);
        }
      }
    }
  }

  /** What a generated week guarantees (the grid `g` of the returned plan). */
  ghost predicate GeneratedWeek(g: Days, employees: seq<string>, history: seq<Week>, lastStored: Option<Week>) {
    && g.Keys == WeekDays
    && WellFormed(g)
    // every roster cell is filled, and nobody else appears
    && (forall d, e :: 0 <= d < 7 && e in employees ==> Assignment(g, d, e).Some?)
    && (forall d, e :: e !in employees ==> Assignment(g, d, e).None?)
    // coverage: at most one on call a day, exactly one unless everyone rests
    && AtMostOneOnCall(g)
    && (forall d :: 0 <= d < 7 ==> CoveredOrBlocked(g, employees, d))
    // rest after on-call, same week and carried over from last week
    && RestWindowsHeld(g)
    && (forall d, e :: history != [] && e in employees && CarriedRest(history[0], e, d) ==>
                       Assignment(g, d, e) == Some(Rest))
    // WORK only on weekdays, and not on the Monday after a stored Friday on-call
    && (forall d, e :: Assignment(g, d, e) == Some(Work) ==> d < 5 && !ShouldRestInsteadOfWork(e, d, lastStored))
    // a weekday REST has one of three reasons; a weekday without one is ON_CALL or WORK
    && (forall d, e :: 0 <= d < 5 && Assignment(g, d, e) == Some(Rest) ==> WeekdayRest(g, e, d, history, lastStored))
    && (forall d, e ::
          0 <= d < 5 && e in employees && Assignment(g, d, e) != Some(OnCall) && !WeekdayRest(g, e, d, history, lastStored)
          ==> Assignment(g, d, e) == Some(Work))
    // the weekend cells that are not ON_CALL are REST
    && (forall d, e :: 5 <= d < 7 && e in employees && Assignment(g, d, e) != Some(OnCall) ==>
                       Assignment(g, d, e) == Some(Rest))
  }

  /** The reasons a weekday cell of employee e may be REST: rest carried over from
      the previous week, the rest window of an earlier on-call this week, or the
      Monday after a stored Friday on-call. */
  ghost predicate WeekdayRest(g: Days, e: string, d: int, history: seq<Week>, lastStored: Option<Week>) {
    || (history != [] && CarriedRest(history[0], e, d))
    || InOwnRestWindow(g, e, d)
    || ShouldRestInsteadOfWork(e, d, lastStored)
  }

  /** Phase 3 turns what phases 1 and 2 leave into a generated week. */
  lemma ComposePhases(g1: Days, g2: Days, employees: seq<string>, history: seq<Week>, lastStored: Option<Week>)
    requires g1.Keys == WeekDays && WellFormed(g1)
    requires forall d, e {:trigger Assignment(g1, d, e)} ::
               Assignment(g1, d, e) ==
                 if history != [] && e in employees && CarriedRest(history[0], e, d) then Some(Rest) else None
    requires Phase2Inv(g2, g1, employees, 7)
    ensures GeneratedWeek(FillDays(g2, employees, 7, lastStored), employees, history, lastStored)
  {
    var g3 := FillDays(g2, employees, 7, lastStored);
    FillDaysCells(g2, employees, 7, lastStored);
    forall x ensures x in g3 <==> x in WeekDays {
      assert x in g2 ==> x in WeekDays;
      assert x in WeekDays ==> x in g1;
    }
    // phases 1 and 2 never write WORK
    forall d, e ensures Assignment(g2, d, e) != Some(Work) {
      if !(0 <= d < 7) {
        assert Assignment(g2, d, e) == Assignment(g1, d, e);
      }
    }
    forall d | 0 <= d < 7 ensures CoveredOrBlocked(g3, employees, d) {
      assert CoveredOrBlocked(g2, employees, d);
      if exists e :: e in employees && Assignment(g2, d, e) == Some(OnCall) {
        var e :| e in employees && Assignment(g2, d, e) == Some(OnCall);
        assert Assignment(g3, d, e) == Some(OnCall);
      } else {
        forall e | e in employees ensures Assignment(g3, d, e) == Some(Rest) {
          assert Assignment(g2, d, e) == Some(Rest);
        }
      }
    }
    forall d, e, x | 0 <= d < 7 && Assignment(g3, d, e) == Some(OnCall) && x in RestWindow(d)
      ensures Assignment(g3, x, e) == Some(Rest)
    {
      assert Assignment(g2, d, e) == Some(OnCall);
      assert Assignment(g2, x, e) == Some(Rest);
    }
    forall d, e1, e2 | 0 <= d < 7 && Assignment(g3, d, e1) == Some(OnCall) && Assignment(g3, d, e2) == Some(OnCall)
      ensures e1 == e2
    {
      assert Assignment(g2, d, e1) == Some(OnCall) && Assignment(g2, d, e2) == Some(OnCall);
    }
    forall d, e | history != [] && e in employees && CarriedRest(history[0], e, d)
      ensures Assignment(g3, d, e) == Some(Rest)
    {
      assert Assignment(g1, d, e) == Some(Rest);
    }
    forall d, e | e !in employees ensures Assignment(g3, d, e).None? {
      assert Assignment(g2, d, e) == Assignment(g1, d, e);
    }
    FilledRestExplained(g1, g2, employees, history, lastStored);
  }

  /** Every weekday REST after phase 3 has one of the reasons WeekdayRest names. */
  lemma FilledRestExplained(g1: Days, g2: Days, employees: seq<string>, history: seq<Week>, lastStored: Option<Week>)
    requires forall d, e {:trigger Assignment(g1, d, e)} ::
               Assignment(g1, d, e) ==
                 if history != [] && e in employees && CarriedRest(history[0], e, d) then Some(Rest) else None
    requires Phase2Inv(g2, g1, employees, 7)
    ensures forall d, e :: 0 <= d < 5 && Assignment(FillDays(g2, employees, 7, lastStored), d, e) == Some(Rest) ==>
                           WeekdayRest(FillDays(g2, employees, 7, lastStored), e, d, history, lastStored)
  {
    var g3 := FillDays(g2, employees, 7, lastStored);
    FillDaysCells(g2, employees, 7, lastStored);
    forall d, e | 0 <= d < 5 && Assignment(g3, d, e) == Some(Rest)
      ensures WeekdayRest(g3, e, d, history, lastStored)
    {
      if Assignment(g2, d, e).Some? {
        assert Assignment(g2, d, e) == Some(Rest);
        if Assignment(g1, d, e) != Some(Rest) {
          var d0 :| 0 <= d0 < d && Assignment(g2, d0, e) == Some(OnCall) && d in RestWindow(d0);
          assert Assignment(g3, d0, e) == Some(OnCall);
        }
      }
    }
  }

  /** Phase 1 on grid g: the carried-over rest of every roster employee; nothing
      without history. */
  function MandatoryRest(g: Days, employees: seq<string>, history: seq<Week>): Days {
    if history == [] then g else CarryRest(g, employees, history[0])
  }

  /** Employee c on call on `day`, resting on that day's rest window. */
  function WithOnCall(g: Days, day: int, c: string): (r: Days)
    ensures forall y :: Assignment(r, day, y) == if y == c then Some(OnCall) else Assignment(g, day, y)
  {
    assert day !in RestWindow(day);
    WithRest(WithAssignment(g, day, c, OnCall), c, RestWindow(day))
  }

  /** The roster position of the first employee unassigned on `day` in g, or the
      roster's length when there is none. */
  function FirstUnassignedIn(es: seq<string>, g: Days, day: int): (j: nat)
    ensures j <= |es|
    ensures j < |es| ==> Assignment(g, day, es[j]).None?
    ensures forall k :: 0 <= k < j ==> Assignment(g, day, es[k]).Some?
  {
    if es == [] then 0
    else if Assignment(g, day, es[0]).None? then 0
    else 1 + FirstUnassignedIn(es[1..], g, day)
  }

  /** Whom one day of phase 2 puts on call: the rotation's pick among the
      employees every rule accepts; when there are none, the first unassigned
      roster employee regardless of the rules; nobody when everyone is assigned. */
  function Phase2Pick(g: Days, weekStart: int, employees: seq<string>, rules: seq<Rule>, history: seq<Week>,
                      day: nat, needing: seq<string>): (p: Option<string>)
    ensures p.Some? ==> p.value in employees && Assignment(g, day, p.value).None?
  {
    var available := Candidates(employees, g, day, rules, Week(weekStart, g), history);
    if available != [] then Some(ChooseEmployeeForOnCall(available, day, needing))
    else
      var j := FirstUnassignedIn(employees, g, day);
      if j < |employees| then Some(employees[j]) else None
  }

  /** One day of phase 2 on the grid g of the week starting at weekStart: the grid
      and the still-needing list afterwards.  An emergency pick stays in the
      needing list. */
  function Phase2Day(g: Days, weekStart: int, employees: seq<string>, rules: seq<Rule>, history: seq<Week>,
                     day: nat, needing: seq<string>): (Days, seq<string>)
  {
    var p := Phase2Pick(g, weekStart, employees, rules, history, day, needing);
    if p.None? then (g, needing)
    else
      var ruled := Candidates(employees, g, day, rules, Week(weekStart, g), history) != [];
      (WithOnCall(g, day, p.value), if ruled && p.value in needing then RemoveFirst(needing, p.value) else needing)
  }

  /** Phase 2 over days 0..n-1, starting from grid g with every roster employee
      still needing an on-call. */
  function Phase2(g: Days, weekStart: int, employees: seq<string>, rules: seq<Rule>, history: seq<Week>, n: nat)
    : (Days, seq<string>)
  {
    if n == 0 then (g, employees)
    else
      var prev := Phase2(g, weekStart, employees, rules, history, n - 1);
      Phase2Day(prev.0, weekStart, employees, rules, history, n - 1, prev.1)
  }

  /** The grid of a generated week: phase 3 over phase 2 over phase 1, from an
      empty week. */
  function Generated(weekStart: int, employees: seq<string>, rules: seq<Rule>, history: seq<Week>,
                     lastStored: Option<Week>): Days
  {
    var g1 := MandatoryRest(EmptyDays(), employees, history);
    FillDays(Phase2(g1, weekStart, employees, rules, history, 7).0, employees, 7, lastStored)
  }

  /** The pick of one day of phase 2: somebody exactly when some roster employee
      is unassigned; one every rule accepts whenever there is such an employee,
      and then one still needing an on-call whenever such an employee is among
      them; otherwise the first unassigned roster employee. */
  lemma Phase2PickSpec(g: Days, weekStart: int, employees: seq<string>, rules: seq<Rule>, history: seq<Week>,
                       day: nat, needing: seq<string>)
    ensures var p := Phase2Pick(g, weekStart, employees, rules, history, day, needing);
            var available := Candidates(employees, g, day, rules, Week(weekStart, g), history);
            && (p.None? <==> forall e :: e in employees ==> Assignment(g, day, e).Some?)
            && (available != [] ==> p.Some? && ValidateAll(rules, p.value, day, OnCall, Week(weekStart, g), history))
            && (available != [] && (exists x :: x in available && x in needing) ==> p.Some? && p.value in needing)
            && (available == [] && p.Some? ==>
                  forall k :: 0 <= k < |employees| && Assignment(g, day, employees[k]).None? ==>
                                p.value in employees[..k + 1])
  {
    var p := Phase2Pick(g, weekStart, employees, rules, history, day, needing);
    var available := Candidates(employees, g, day, rules, Week(weekStart, g), history);
    if available == [] {
      var j := FirstUnassignedIn(employees, g, day);
      if j < |employees| {
        forall k | 0 <= k < |employees| && Assignment(g, day, employees[k]).None?
          ensures p.value in employees[..k + 1]
        {
          assert employees[..k + 1][j] == employees[j];
        }
      } else {
        forall e | e in employees ensures Assignment(g, day, e).Some? {
          var k :| 0 <= k < |employees| && employees[k] == e;
        }
      }
    }
  }

  /** On a day phase 2 has not reached, the ON_CALL cells after that day's step
      are exactly the pick's. */
  lemma Phase2DayPlaces(g: Days, weekStart: int, employees: seq<string>, rules: seq<Rule>, history: seq<Week>,
                        day: nat, needing: seq<string>)
    requires OnlyRestFrom(g, day) && day < 7
    ensures forall e :: Assignment(Phase2Day(g, weekStart, employees, rules, history, day, needing).0, day, e) == Some(OnCall)
                        <==> Phase2Pick(g, weekStart, employees, rules, history, day, needing) == Some(e)
  {
  }

  /** No roster cell from `day` on holds ON_CALL: phase 2 has not reached it yet. */
  ghost predicate OnlyRestFrom(g: Days, day: int) {
    forall d, e :: day <= d < 7 && Assignment(g, d, e).Some? ==> Assignment(g, d, e) == Some(Rest)
  }

  /** One day of phase 2 keeps the phase-2 invariant. */
  lemma Phase2DayKeeps(g: Days, start: Days, weekStart: int, employees: seq<string>, rules: seq<Rule>,
                       history: seq<Week>, day: nat, needing: seq<string>)
    requires day < 7 && Phase2Inv(g, start, employees, day)
    ensures Phase2Inv(Phase2Day(g, weekStart, employees, rules, history, day, needing).0, start, employees, day + 1)
  {
    var p := Phase2Pick(g, weekStart, employees, rules, history, day, needing);
    if p.Some? {
      PlacedBySteps(g, day, p.value);
      PlaceOnCall(g, WithOnCall(g, day, p.value), start, employees, day, p.value);
    } else {
      Phase2PickSpec(g, weekStart, employees, rules, history, day, needing);
      DayBlocked(g, start, employees, day);
    }
  }

  /** Phase 2 over days 0..n-1 establishes the phase-2 invariant for those days. */
  lemma {:induction false} Phase2Keeps(start: Days, weekStart: int, employees: seq<string>, rules: seq<Rule>,
                                       history: seq<Week>, n: nat)
    requires n <= 7 && OnlyRest(start) && WellFormed(start)
    ensures Phase2Inv(Phase2(start, weekStart, employees, rules, history, n).0, start, employees, n)
  {
    if n == 0 {
      Phase2Start(start, employees);
    } else {
      Phase2Keeps(start, weekStart, employees, rules, history, n - 1);
      var prev := Phase2(start, weekStart, employees, rules, history, n - 1);
      Phase2DayKeeps(prev.0, start, weekStart, employees, rules, history, n - 1, prev.1);
    }
  }

  /** The pick phase 2 makes when it reaches day d. */
  function DayPick(start: Days, weekStart: int, employees: seq<string>, rules: seq<Rule>, history: seq<Week>,
                   d: nat): Option<string>
  {
    var prev := Phase2(start, weekStart, employees, rules, history, d);
    Phase2Pick(prev.0, weekStart, employees, rules, history, d, prev.1)
  }

  /** On day d of grid g the ON_CALL cells are exactly the pick p. */
  ghost predicate PickedOnCall(g: Days, d: int, p: Option<string>) {
    forall e :: Assignment(g, d, e) == Some(OnCall) <==> p == Some(e)
  }

  /** After all of phase 2, the ON_CALL cells of each day are the pick of that
      day: later days leave them alone. */
  lemma Phase2OnCalls(start: Days, weekStart: int, employees: seq<string>, rules: seq<Rule>,
                      history: seq<Week>, d: nat)
    requires d < 7 && OnlyRest(start) && WellFormed(start)
    ensures PickedOnCall(Phase2(start, weekStart, employees, rules, history, 7).0, d,
                         DayPick(start, weekStart, employees, rules, history, d))
  {
    Phase2OnCallsLast(start, weekStart, employees, rules, history, d);
    var k := d + 1;
    while k < 7
      invariant d < k <= 7
      invariant PickedOnCall(Phase2(start, weekStart, employees, rules, history, k).0, d,
                             DayPick(start, weekStart, employees, rules, history, d))
    {
      Phase2Earlier(start, weekStart, employees, rules, history, k + 1, d);
      k := k + 1;
    }
  }

  /** The ON_CALL cells of day d right after phase 2 has placed that day. */
  lemma Phase2OnCallsLast(start: Days, weekStart: int, employees: seq<string>, rules: seq<Rule>,
                          history: seq<Week>, d: nat)
    requires d < 7 && OnlyRest(start) && WellFormed(start)
    ensures PickedOnCall(Phase2(start, weekStart, employees, rules, history, d + 1).0, d,
                         DayPick(start, weekStart, employees, rules, history, d))
  {
    var prev := Phase2(start, weekStart, employees, rules, history, d);
    Phase2RestFrom(start, weekStart, employees, rules, history, d);
    Phase2DayPlaces(prev.0, weekStart, employees, rules, history, d, prev.1);
  }

  /** Phase 2 over days 0..n-1 has put no ON_CALL on day n or later. */
  lemma Phase2RestFrom(start: Days, weekStart: int, employees: seq<string>, rules: seq<Rule>,
                       history: seq<Week>, n: nat)
    requires n <= 7 && OnlyRest(start) && WellFormed(start)
    ensures OnlyRestFrom(Phase2(start, weekStart, employees, rules, history, n).0, n)
  {
    Phase2Keeps(start, weekStart, employees, rules, history, n);
  }

  /** Day k-1 of phase 2 leaves the days before it alone. */
  lemma Phase2Earlier(start: Days, weekStart: int, employees: seq<string>, rules: seq<Rule>,
                      history: seq<Week>, k: nat, d: nat)
    requires d < k - 1
    ensures forall e :: Assignment(Phase2(start, weekStart, employees, rules, history, k).0, d, e) ==
                        Assignment(Phase2(start, weekStart, employees, rules, history, k - 1).0, d, e)
  {
    var prev := Phase2(start, weekStart, employees, rules, history, k - 1);
    var p := Phase2Pick(prev.0, weekStart, employees, rules, history, k - 1, prev.1);
    if p.Some? {
      PlacedBySteps(prev.0, k - 1, p.value);
      assert d !in RestWindow(k - 1);
    }
  }

  /** The three phases from an empty week meet every generator guarantee. */
  lemma GeneratedMeetsGuarantees(weekStart: int, employees: seq<string>, rules: seq<Rule>, history: seq<Week>,
                                 lastStored: Option<Week>)
    ensures GeneratedWeek(Generated(weekStart, employees, rules, history, lastStored), employees, history, lastStored)
  {
    Phase1Grid(employees, history);
    var g1 := MandatoryRest(EmptyDays(), employees, history);
    Phase2Keeps(g1, weekStart, employees, rules, history, 7);
    ComposePhases(g1, Phase2(g1, weekStart, employees, rules, history, 7).0, employees, history, lastStored);
  }

  /** Every ON_CALL of a generated week is the pick phase 2 made on that day,
      against the grid built so far: an employee every rule accepts whenever
      anyone is accepted, and otherwise the first unassigned roster employee. */
  lemma GeneratedOnCalls(weekStart: int, employees: seq<string>, rules: seq<Rule>, history: seq<Week>,
                         lastStored: Option<Week>, d: nat, e: string)
    requires d < 7
    ensures var prev := Phase2(MandatoryRest(EmptyDays(), employees, history), weekStart, employees, rules, history, d);
            var available := Candidates(employees, prev.0, d, rules, Week(weekStart, prev.0), history);
            var onCall := Assignment(Generated(weekStart, employees, rules, history, lastStored), d, e) == Some(OnCall);
            && (onCall <==> Phase2Pick(prev.0, weekStart, employees, rules, history, d, prev.1) == Some(e))
            && (onCall && available != [] ==> ValidateAll(rules, e, d, OnCall, Week(weekStart, prev.0), history))
            && (onCall && available == [] ==>
                  forall k :: 0 <= k < |employees| && Assignment(prev.0, d, employees[k]).None? ==> e in employees[..k + 1])
  {
    Phase1Grid(employees, history);
    var g1 := MandatoryRest(EmptyDays(), employees, history);
    Phase2OnCalls(g1, weekStart, employees, rules, history, d);
    var g2 := Phase2(g1, weekStart, employees, rules, history, 7).0;
    FillKeepsOnCalls(g2, employees, lastStored, d);
    var prev := Phase2(g1, weekStart, employees, rules, history, d);
    Phase2PickSpec(prev.0, weekStart, employees, rules, history, d, prev.1);
  }

  /** Phase 1 from an empty week: REST exactly where last week's late on-calls
      carry it, nothing else. */
  lemma Phase1Grid(employees: seq<string>, history: seq<Week>)
    ensures var g1 := MandatoryRest(EmptyDays(), employees, history);
            && g1.Keys == WeekDays && WellFormed(g1) && OnlyRest(g1)
            && forall d, e {:trigger Assignment(g1, d, e)} ::
                 Assignment(g1, d, e) ==
                   if history != [] && e in employees && CarriedRest(history[0], e, d) then Some(Rest) else None
  {
    var g0 := EmptyDays();
    assert forall d, e :: Assignment(g0, d, e).None?;
  }

  /** Phase 3 writes no ON_CALL: the ON_CALL cells of a day are those phase 2 left. */
  lemma FillKeepsOnCalls(g: Days, es: seq<string>, lastStored: Option<Week>, d: int)
    ensures forall e :: Assignment(FillDays(g, es, 7, lastStored), d, e) == Some(OnCall) <==>
                        Assignment(g, d, e) == Some(OnCall)
  {
    FillDaysCells(g, es, 7, lastStored);
  }

  function NamesOf(rs: seq<Rule>): (names: seq<string>)
    ensures |names| == |rs| && forall i :: 0 <= i < |rs| ==> names[i] == Name(rs[i])
  {
    if rs == [] then [] else [Name(rs[0])] + NamesOf(rs[1..])
  }

  class WeekScheduler {
    var employees: seq<string>
    var rules: seq<Rule>

    /** `rules or DEFAULT_RULES.copy()`, sorted by priority, highest first (stable). */
    constructor (employees: seq<string>, rules: Option<seq<Rule>>)
      ensures this.employees == employees
      ensures this.rules == SortBy(if rules.None? || rules.value == [] then DefaultRules() else rules.value, NegPriority)
      ensures SortedBy(this.rules, NegPriority)
      ensures forall p :: WithKey(this.rules, NegPriority, p) ==
                          WithKey(if rules.None? || rules.value == [] then DefaultRules() else rules.value, NegPriority, p)
    {
      this.employees := employees;
      var given := if rules.None? || rules.value == [] then DefaultRules() else rules.value;
      this.rules := SortBy(given, NegPriority);
      forall p ensures WithKey(SortBy(given, NegPriority), NegPriority, p) == WithKey(given, NegPriority, p) {
        SortByStable(given, NegPriority, p);
      }
    }

    /** `get_rule_names`: the rule names in the current (priority) order. */
    function RuleNames(): (names: seq<string>)
      reads this
      ensures |names| == |rules| && forall i :: 0 <= i < |rules| ==> names[i] == Name(rules[i])
    {
      NamesOf(rules)
    }

    /** `add_rule`: append, then re-sort; for every priority the rules of that
        priority keep their order and the new one comes last among them. */
    method AddRule(rule: Rule)
      modifies this
      ensures employees == old(employees)
      ensures rules == SortBy(old(rules) + [rule], NegPriority)
      ensures SortedBy(rules, NegPriority) && |rules| == |old(rules)| + 1
      ensures forall p :: WithKey(rules, NegPriority, p) == WithKey(old(rules) + [rule], NegPriority, p)
    {
      var added := rules + [rule];
      rules := SortBy(added, NegPriority);
      forall p ensures WithKey(rules, NegPriority, p) == WithKey(added, NegPriority, p) {
        SortByStable(added, NegPriority, p);
      }
    }

    /** `remove_rule`: delete the first rule with that name; true iff there was one. */
    method RemoveRule(name: string) returns (removed: bool)
      modifies this
      ensures employees == old(employees)
      ensures removed <==> exists i :: 0 <= i < |old(rules)| && Name(old(rules)[i]) == name
      ensures !removed ==> rules == old(rules)
      ensures removed ==> exists i :: 0 <= i < |old(rules)| && Name(old(rules)[i]) == name &&
                                      (forall j :: 0 <= j < i ==> Name(old(rules)[j]) != name) &&
                                      rules == old(rules)[..i] + old(rules)[i + 1..]
      ensures SortedBy(old(rules), NegPriority) ==> SortedBy(rules, NegPriority)
    {
      var i := 0;
      while i < |rules|
        invariant 0 <= i <= |rules| && rules == old(rules)
        invariant forall j :: 0 <= j < i ==> Name(rules[j]) != name
      {
        if Name(rules[i]) == name {
          if SortedBy(rules, NegPriority) {
            RemovalKeepsSorted(rules, i);
          }
          rules := rules[..i] + rules[i + 1..];
          return true;
        }
        i := i + 1;
      }
      return false;
    }

    /** Phase 1, `_assign_mandatory_rest`: REST on Monday for last week's Fri/Sat/Sun
        on-call, and on Tuesday for last week's Sat/Sun on-call; nothing else changes,
        and nothing at all without history. */
    method AssignMandatoryRest(plan: WeekPlan, history: seq<Week>)
      modifies plan
      ensures plan.weekStart == old(plan.weekStart)
      ensures plan.days == MandatoryRest(old(plan.days), employees, history)
      ensures old(plan.days).Keys <= plan.days.Keys <= old(plan.days).Keys + {0, 1}
      ensures WellFormed(old(plan.days)) ==> WellFormed(plan.days)
      ensures forall d, e {:trigger Assignment(plan.days, d, e)} ::
                Assignment(plan.days, d, e) ==
                  if history != [] && e in employees && CarriedRest(history[0], e, d) then Some(Rest)
                  else Assignment(old(plan.days), d, e)
    {
      if history == [] {
        return;
      }
      var last := history[0];
      for i := 0 to |employees|
        invariant plan.weekStart == old(plan.weekStart)
        invariant plan.days == CarryRest(old(plan.days), employees[..i], last)
      {
        assert employees[..i + 1][..i] == employees[..i];
        CarryRestOf(plan, employees[i], last);
      }
      assert employees[..|employees|] == employees;
    }

    /** The body of phase 1's employee loop: REST carried over for `e`. */
    method CarryRestOf(plan: WeekPlan, e: string, last: Week)
      modifies plan
      ensures plan.weekStart == old(plan.weekStart)
      ensures plan.days == CarryRestFor(old(plan.days), e, last)
    {
      ghost var g := plan.days;
      if e in OnCallEmployees(last, 4) {
        plan.SetAssignment(0, e, Rest);
      }
      ghost var g1 := plan.days;
      assert g1 == if e in OnCallEmployees(last, 4) then WithAssignment(g, 0, e, Rest) else g;
      if e in OnCallEmployees(last, 5) {
        plan.SetAssignment(0, e, Rest);
        plan.SetAssignment(1, e, Rest);
      }
      ghost var g2 := plan.days;
      assert g2 == if e in OnCallEmployees(last, 5) then RestMondayTuesday(g1, e) else g1;
      if e in OnCallEmployees(last, 6) {
        plan.SetAssignment(0, e, Rest);
        plan.SetAssignment(1, e, Rest);
      }
      assert plan.days == if e in OnCallEmployees(last, 6) then RestMondayTuesday(g2, e) else g2;
    }

    /** `_assign_rest_after_oncall`: REST for `e` on the days of the rest window of
        `day`, all later in the same week; nothing else changes. */
    method AssignRestAfterOnCall(plan: WeekPlan, e: string, day: int)
      modifies plan
      ensures plan.weekStart == old(plan.weekStart)
      ensures plan.days == WithRest(old(plan.days), e, RestWindow(day))
    {
      if day == 0 {
        plan.SetAssignment(1, e, Rest);
      } else if day == 1 {
        plan.SetAssignment(2, e, Rest);
      } else if day == 2 {
        plan.SetAssignment(3, e, Rest);
      } else if day == 3 {
        AssignRestOn(plan, e, [4, 5, 6]);
      } else if day == 4 {
        AssignRestOn(plan, e, [5, 6]);
      } else if day == 5 {
        plan.SetAssignment(6, e, Rest);
      }
    }

    /** The `for rest_day in ...` loops of `_assign_rest_after_oncall`: REST for
        `e` on each listed day in turn. */
    method AssignRestOn(plan: WeekPlan, e: string, restDays: seq<int>)
      modifies plan
      ensures plan.weekStart == old(plan.weekStart)
      ensures plan.days == WithRest(old(plan.days), e, restDays)
    {
      for k := 0 to |restDays|
        invariant plan.weekStart == old(plan.weekStart)
        invariant plan.days == WithRest(old(plan.days), e, restDays[..k])
      {
        assert restDays[..k + 1][..k] == restDays[..k];
        plan.SetAssignment(restDays[k], e, Rest);
      }
      assert restDays[..|restDays|] == restDays;
    }

    /** `_validate_assignment`: every rule, in order, accepts the assignment. */
    method ValidateAssignment(e: string, day: int, t: DayType, week: Week, history: seq<Week>) returns (ok: bool)
      ensures ok <==> forall i :: 0 <= i < |rules| ==> Validate(rules[i], e, day, t, week, history)
    {
      for i := 0 to |rules|
        invariant forall j :: 0 <= j < i ==> Validate(rules[j], e, day, t, week, history)
      {
        if !Validate(rules[i], e, day, t, week, history) {
          return false;
        }
      }
      return true;
    }

    /** The candidates of one day of phase 2, in roster order: unassigned that day
        and accepted by every rule for ON_CALL. */
    method AvailableFor(plan: WeekPlan, day: int, history: seq<Week>) returns (available: seq<string>)
      ensures forall x :: x in available <==>
                x in employees && Assignment(plan.days, day, x).None? &&
                forall i :: 0 <= i < |rules| ==> Validate(rules[i], x, day, OnCall, plan.Contents(), history)
      ensures available == Candidates(employees, plan.days, day, rules, plan.Contents(), history)
    {
      available := [];
      for i := 0 to |employees|
        invariant available == Candidates(employees[..i], plan.days, day, rules, plan.Contents(), history)
      {
        var e := employees[i];
        assert employees[..i + 1][..i] == employees[..i];
        if Assignment(plan.days, day, e).None? {
          var ok := ValidateAssignment(e, day, OnCall, plan.Contents(), history);
          assert ok == ValidateAll(rules, e, day, OnCall, plan.Contents(), history);
          if ok {
            available := available + [e];
          }
        }
      }
      assert employees[..|employees|] == employees;
    }

    /** Phase 2, `_assign_on_call_duties`: the grid becomes Phase2 of the old one,
        which keeps at most one on-call a day and the rest windows, and covers
        every day unless all the roster rests. */
    method AssignOnCallDuties(plan: WeekPlan, history: seq<Week>)
      requires OnlyRest(plan.days) && WellFormed(plan.days)
      modifies plan
      ensures plan.weekStart == old(plan.weekStart)
      ensures plan.days == Phase2(old(plan.days), old(plan.weekStart), employees, rules, history, 7).0
      ensures AtMostOneOnCall(plan.days) && RestWindowsHeld(plan.days)
      ensures forall d :: 0 <= d < 7 ==> CoveredOrBlocked(plan.days, employees, d)
      ensures Phase2Inv(plan.days, old(plan.days), employees, 7)
    {
      ghost var start := plan.days;
      var needing := employees;
      var day := 0;
      while day < 7
        invariant day <= 7
        invariant plan.weekStart == old(plan.weekStart)
        invariant (plan.days, needing) == Phase2(start, plan.weekStart, employees, rules, history, day)
      {
        needing := AssignOnCallOn(plan, day, history, needing);
        day := day + 1;
      }
      Phase2Keeps(start, plan.weekStart, employees, rules, history, 7);
    }

    /** One day of phase 2: the rotation's pick among the available employees, or
        else the first unassigned roster employee; `needing` loses a rotation
        pick that was in it. */
    method AssignOnCallOn(plan: WeekPlan, day: nat, history: seq<Week>, needing: seq<string>)
      returns (needing': seq<string>)
      modifies plan
      ensures plan.weekStart == old(plan.weekStart)
      ensures (plan.days, needing') == Phase2Day(old(plan.days), old(plan.weekStart), employees, rules, history, day, needing)
    {
      needing' := needing;
      var available := AvailableFor(plan, day, history);
      if available != [] {
        var chosen := ChooseEmployeeForOnCall(available, day, needing);
        plan.SetAssignment(day, chosen, OnCall);
        if chosen in needing {
          needing' := RemoveFirst(needing, chosen);
        }
        AssignRestAfterOnCall(plan, chosen, day);
      } else {
        // emergency: the first unassigned employee, bypassing the rules
        var j := FirstUnassigned(plan, day);
        if j < |employees| {
          var e := employees[j];
          plan.SetAssignment(day, e, OnCall);
          AssignRestAfterOnCall(plan, e, day);
        }
      }
    }

    /** The roster position of the first employee unassigned on `day`, or the
        roster's length when everyone is assigned. */
    method FirstUnassigned(plan: WeekPlan, day: int) returns (j: int)
      ensures 0 <= j <= |employees|
      ensures j < |employees| ==> Assignment(plan.days, day, employees[j]).None?
      ensures forall k :: 0 <= k < j ==> Assignment(plan.days, day, employees[k]).Some?
      ensures j == FirstUnassignedIn(employees, plan.days, day)
    {
      j := 0;
      while j < |employees| && Assignment(plan.days, day, employees[j]).Some?
        invariant 0 <= j <= |employees|
        invariant forall k :: 0 <= k < j ==> Assignment(plan.days, day, employees[k]).Some?
      {
        j := j + 1;
      }
    }

    /** Phase 3, `_fill_remaining_days`: each unassigned roster cell of days 0..6
        becomes REST at the weekend, otherwise WORK, or REST on the Monday after a
        stored Friday on-call.  Assigned cells are left alone. */
    method FillRemainingDays(plan: WeekPlan, lastStored: Option<Week>)
      modifies plan
      ensures plan.weekStart == old(plan.weekStart)
      ensures plan.days == FillDays(old(plan.days), employees, 7, lastStored)
    {
      for day := 0 to 7
        invariant plan.weekStart == old(plan.weekStart)
        invariant plan.days == FillDays(old(plan.days), employees, day, lastStored)
      {
        FillDayOf(plan, day, lastStored);
      }
    }

    /** The employee loop of phase 3 for one day. */
    method FillDayOf(plan: WeekPlan, day: int, lastStored: Option<Week>)
      modifies plan
      ensures plan.weekStart == old(plan.weekStart)
      ensures plan.days == FillDay(old(plan.days), employees, day, lastStored)
    {
      for i := 0 to |employees|
        invariant plan.weekStart == old(plan.weekStart)
        invariant plan.days == FillDay(old(plan.days), employees[..i], day, lastStored)
      {
        var e := employees[i];
        FillDayStep(old(plan.days), employees, i, day, lastStored);
        if Assignment(plan.days, day, e).None? {
          var t;
          if day >= 5 {
            t := Rest;
          } else if ShouldRestInsteadOfWork(e, day, lastStored) {
            t := Rest;
          } else {
            t := Work;
          }
          plan.SetAssignment(day, e, t);
        }
      }
      assert employees[..|employees|] == employees;
    }

    /** `generate_week`: a fresh plan with seven empty days, then the three phases.
        The storage read of phase 3 is the parameter `lastStored`. */
    method GenerateWeek(weekStart: int, history: seq<Week>, lastStored: Option<Week>) returns (plan: WeekPlan)
      ensures fresh(plan)
      ensures plan.weekStart == weekStart
      ensures plan.days == Generated(weekStart, employees, rules, history, lastStored)
      ensures GeneratedWeek(plan.days, employees, history, lastStored)
    {
      plan := new WeekPlan(weekStart, EmptyDays());
      assert 0 in EmptyDays();
      assert plan.days == EmptyDays();
      assert forall d, e :: Assignment(plan.days, d, e).None?;
      AssignMandatoryRest(plan, history);
      AssignOnCallDuties(plan, history);
      FillRemainingDays(plan, lastStored);
      GeneratedMeetsGuarantees(weekStart, employees, rules, history, lastStored);
    }
  }
}
