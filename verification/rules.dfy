/**
 * The scheduling rules.  Each rule has a name, a priority (higher is enforced
 * first) and a `validate` predicate over (employee, day, duty, the week being
 * planned, previous weeks most recent first).  The five built-in rules are
 * variants of Rule; a rule added at run time is a Custom rule carrying its own
 * predicate.
 */
module Rules {
  import opened Wrappers
  import opened Models

  datatype Rule =
    | DailyOnCallCoverage
    | MinimumOnCallPerWeek
    | NoConsecutiveWeekend
    | NoConsecutiveWeekday
    | RestAfterOnCall
    | Custom(name: string, priority: int, check: (string, int, DayType, Week, seq<Week>) -> bool)

  function Priority(rule: Rule): int {
    match rule
    case DailyOnCallCoverage => 110
    case MinimumOnCallPerWeek => 100
    case RestAfterOnCall => 90
    case NoConsecutiveWeekend => 88
    case NoConsecutiveWeekday => 80
    case Custom(_, p, _) => p
  }

  /** The sort key that puts higher priorities first. */
  function NegPriority(rule: Rule): int {
    -Priority(rule)
  }

  function Name(rule: Rule): string {
    match rule
    case DailyOnCallCoverage => "Daily On-Call Coverage Required"
    case MinimumOnCallPerWeek => "Minimum One On-Call Per Week"
    case NoConsecutiveWeekend => "No Consecutive Weekend On-Call"
    case NoConsecutiveWeekday => "No Consecutive Same Weekday On-Call"
    case RestAfterOnCall => "Rest After On-Call"
    case Custom(n, _, _) => n
  }

  /** Same-week rest after an on-call on day d: Mon->Tue, Tue->Wed, Wed->Thu,
      Thu->Fri,Sat,Sun, Fri->Sat,Sun, Sat->Sun, Sun->none. */
  function RestWindow(d: int): (days: seq<int>)
    ensures forall x :: x in days ==> d < x <= 6
    ensures 0 <= d <= 5 ==> d + 1 in days
  {
    if d == 0 then [1]
    else if d == 1 then [2]
    else if d == 2 then [3]
    else if d == 3 then [4, 5, 6]
    else if d == 4 then [5, 6]
    else if d == 5 then [6]
    else []
  }

  /** Rest in the FOLLOWING week after an on-call on day d of this week:
      Fri->Mon, Sat->Mon,Tue, Sun->Mon,Tue. */
  function NextWeekRest(d: int): (days: seq<int>)
    ensures forall x :: x in days ==> 0 <= x <= 1
    ensures days != [] <==> 4 <= d <= 6
  {
    if d == 4 then [0]
    else if d == 5 || d == 6 then [0, 1]
    else []
  }

  /** Employee e must rest on day d of the week after `last`. */
  predicate CarriedRest(last: Week, e: string, d: int) {
    || (e in OnCallEmployees(last, 4) && d in NextWeekRest(4))
    || (e in OnCallEmployees(last, 5) && d in NextWeekRest(5))
    || (e in OnCallEmployees(last, 6) && d in NextWeekRest(6))
  }

  /** The cross-week half of RestAfterOnCallRule. */
  function CrossWeekAllows(e: string, d: int, history: seq<Week>): bool {
    if history == [] then true
    else
      var last := history[0];
      if d == 0 then
        !(e in OnCallEmployees(last, 4)) && !(e in OnCallEmployees(last, 5)) && !(e in OnCallEmployees(last, 6))
      else if d == 1 then
        !(e in OnCallEmployees(last, 5)) && !(e in OnCallEmployees(last, 6))
      else true
  }

  /** `validate` of each rule. */
  function Validate(rule: Rule, e: string, d: int, t: DayType, week: Week, history: seq<Week>): (ok: bool)
    ensures !rule.Custom? && t != OnCall ==> ok
    ensures rule.DailyOnCallCoverage? || rule.MinimumOnCallPerWeek? ==> ok
  {
    match rule
    case DailyOnCallCoverage => true
    case MinimumOnCallPerWeek => true
    case NoConsecutiveWeekend =>
      if t != OnCall then true
      else if d != 5 && d != 6 then true
      else if history == [] then true
      else
        var last := history[0];
        if e in OnCallEmployees(last, 5) || e in OnCallEmployees(last, 6) then false
        else if |history| >= 2 && (e in OnCallEmployees(history[1], 5) || e in OnCallEmployees(history[1], 6)) then
          // three weekends in a row; unreachable once last weekend was checked above
          !(e in OnCallEmployees(last, 5) || e in OnCallEmployees(last, 6))
        else true
    case NoConsecutiveWeekday =>
      if t != OnCall then true
      else if history == [] then true
      else !(e in OnCallEmployees(history[0], d))
    case RestAfterOnCall =>
      if t != OnCall then true
      else if d > 0 && Assignment(week.days, d - 1, e) == Some(OnCall) && 0 <= d - 1 <= 5 then
        var yesterday := d - 1;
        if yesterday == 0 then d != 1
        else if yesterday == 1 then d != 2
        else if yesterday == 2 then d != 3
        else if yesterday == 3 then !(d in [4, 5, 6])
        else if yesterday == 4 then !(d in [5, 6])
        else d != 6
      else CrossWeekAllows(e, d, history)
    case Custom(_, _, check) => check(e, d, t, week, history)
  }

  /** NoConsecutiveWeekdayRule: with no history it accepts; otherwise it rejects
      ON_CALL on day d exactly when the employee was on call on day d last week. */
  lemma WeekdayRuleExact(e: string, d: int, week: Week, history: seq<Week>)
    ensures history == [] ==> Validate(NoConsecutiveWeekday, e, d, OnCall, week, history)
    ensures history != [] ==>
              (Validate(NoConsecutiveWeekday, e, d, OnCall, week, history) <==> e !in OnCallEmployees(history[0], d))
  {
  }

  /** NoConsecutiveWeekendRule rejects exactly a weekend ON_CALL for someone who was
      on call last Saturday or Sunday; the two-weeks-ago branch never decides. */
  lemma WeekendRuleExact(e: string, d: int, week: Week, history: seq<Week>)
    ensures Validate(NoConsecutiveWeekend, e, d, OnCall, week, history) <==>
              !((d == 5 || d == 6) && history != [] &&
                (e in OnCallEmployees(history[0], 5) || e in OnCallEmployees(history[0], 6)))
  {
  }

  /** RestAfterOnCallRule rejects ON_CALL on day d exactly when the employee holds
      ON_CALL on d-1 of this week (1 <= d <= 6), or the previous week's on-call
      carries a rest onto d (Mon after Fri/Sat/Sun, Tue after Sat/Sun). */
  lemma RestRuleExact(e: string, d: int, week: Week, history: seq<Week>)
    ensures Validate(RestAfterOnCall, e, d, OnCall, week, history) <==>
              !((1 <= d <= 6 && Assignment(week.days, d - 1, e) == Some(OnCall)) ||
                (history != [] && CarriedRest(history[0], e, d)))
  {
    if history != [] {
      var last := history[0];
      assert 0 in NextWeekRest(4) && 0 in NextWeekRest(5) && 1 in NextWeekRest(5);
      assert 0 in NextWeekRest(6) && 1 in NextWeekRest(6) && 1 !in NextWeekRest(4);
    }
  }

  /** The rule set a scheduler gets when none is given, in declaration order. */
  function DefaultRules(): (rules: seq<Rule>)
    ensures |rules| == 5
    ensures forall i :: 0 <= i < |rules| ==> !rules[i].Custom?
    ensures Priority(rules[0]) == 110 && Priority(rules[1]) == 100 && Priority(rules[2]) == 90
    ensures Priority(rules[3]) == 88 && Priority(rules[4]) == 80
  {
    [DailyOnCallCoverage, MinimumOnCallPerWeek, RestAfterOnCall, NoConsecutiveWeekend, NoConsecutiveWeekday]
  }

  /** `_validate_assignment`: true exactly when every rule accepts. */
  function ValidateAll(rules: seq<Rule>, e: string, d: int, t: DayType, week: Week, history: seq<Week>): (ok: bool)
    ensures ok <==> forall i :: 0 <= i < |rules| ==> Validate(rules[i], e, d, t, week, history)
  {
    if rules == [] then true
    else if !Validate(rules[0], e, d, t, week, history) then false
    else
      var rest := ValidateAll(rules[1..], e, d, t, week, history);
      assert forall i :: 1 <= i < |rules| ==> rules[i] == rules[1..][i - 1];
      rest
  }

  /** The default rule set lets any non-on-call duty through, and lets an on-call
      through exactly when the rest, weekend and weekday rules all do. */
  lemma {:induction false} DefaultRulesAllow(e: string, d: int, t: DayType, week: Week, history: seq<Week>)
    ensures t != OnCall ==> ValidateAll(DefaultRules(), e, d, t, week, history)
    ensures ValidateAll(DefaultRules(), e, d, OnCall, week, history) <==>
              && !((1 <= d <= 6 && Assignment(week.days, d - 1, e) == Some(OnCall)) ||
                   (history != [] && CarriedRest(history[0], e, d)))
              && !((d == 5 || d == 6) && history != [] &&
                   (e in OnCallEmployees(history[0], 5) || e in OnCallEmployees(history[0], 6)))
              && (history == [] || e !in OnCallEmployees(history[0], d))
  {
    var rules := DefaultRules();
    RestRuleExact(e, d, week, history);
    WeekendRuleExact(e, d, week, history);
    WeekdayRuleExact(e, d, week, history);
    assert ValidateAll(rules, e, d, OnCall, week, history) <==>
             Validate(rules[2], e, d, OnCall, week, history) &&
             Validate(rules[3], e, d, OnCall, week, history) &&
             Validate(rules[4], e, d, OnCall, week, history);
  }
}
