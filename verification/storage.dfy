/**
 * The plan table: the `weeks` list of the JSON store, held in memory as a
 * sequence of week records (the dict form of a plan), keyed by week start.
 * Reading and writing the file is not part of the model; `from_dict` raising
 * ValueError on a corrupt record is the Failure outcome.
 */
module Storage {
  import opened Wrappers
  import opened Models
  import opened Sorting

  /** `from_dict` raised on the record stored for this week. */
  datatype StorageError = CorruptWeek(weekStart: int)

  function StartOf(r: WeekRecord): int { r.weekStart }

  function WeekStartOf(w: Week): int { w.weekStart }

  /** Sort key for most-recent-first (`reverse=True`). */
  function NegWeekStart(w: Week): int { -w.weekStart }

  /** Which stored weeks a query reads. */
  datatype Window =
    | Before(from: int)                          // load_previous_weeks
    | Overlapping(monthStart: int, monthEnd: int) // get_month_weeks

  predicate Keeps(win: Window, r: WeekRecord) {
    match win
    case Before(from) => r.weekStart < from
    case Overlapping(monthStart, monthEnd) => r.weekStart <= monthEnd && r.weekStart + 6 >= monthStart
  }

  /** The records of `recs` other than those of week k (the list comprehension of
      `save_week` and `delete_week`). */
  function Others(recs: seq<WeekRecord>, k: int): (r: seq<WeekRecord>)
    ensures WithKey(r, StartOf, k) == []
    ensures forall k' :: k' != k ==> WithKey(r, StartOf, k') == WithKey(recs, StartOf, k')
    ensures |r| < |recs| <==> exists i :: 0 <= i < |recs| && recs[i].weekStart == k
    ensures |r| <= |recs|
  {
    if recs == [] then []
    else
      var t := Others(recs[1..], k);
      assert forall i :: 1 <= i < |recs| ==> recs[i] == recs[1..][i - 1];
      if recs[0].weekStart == k then t else [recs[0]] + t
  }

  lemma {:induction false} OthersNoneDropped(recs: seq<WeekRecord>, k: int)
    requires |Others(recs, k)| == |recs|
    ensures Others(recs, k) == recs
  {
    if recs != [] {
      OthersNoneDropped(recs[1..], k);
    }
  }

  /** The store after `save_week` of week w: any old record of that week dropped,
      w's dict form appended, the whole list sorted by week start. */
  function Saved(recs: seq<WeekRecord>, w: Week): (r: seq<WeekRecord>)
    ensures SortedBy(r, StartOf)
    ensures WithKey(r, StartOf, w.weekStart) == [ToDict(w)]
    ensures forall k :: k != w.weekStart ==> WithKey(r, StartOf, k) == WithKey(recs, StartOf, k)
  {
    var kept := Others(recs, w.weekStart);
    var r := SortBy(kept + [ToDict(w)], StartOf);
    assert forall k :: WithKey(r, StartOf, k) == WithKey(kept, StartOf, k) + WithKey([ToDict(w)], StartOf, k) by {
      forall k ensures WithKey(r, StartOf, k) == WithKey(kept, StartOf, k) + WithKey([ToDict(w)], StartOf, k) {
        SortByStable(kept + [ToDict(w)], StartOf, k);
        WithKeyAppend(kept, [ToDict(w)], StartOf, k);
      }
    }
    r
  }

  lemma {:induction false} WithKeyMembers<T>(s: seq<T>, key: T -> int, k: int)
    ensures forall x :: x in WithKey(s, key, k) <==> x in s && key(x) == k
  {
    if s != [] {
      WithKeyMembers(s[1..], key, k);
      assert forall x :: x in s <==> x == s[0] || x in s[1..];
    }
  }

  /** What `load_week` finds: the first record of the week, decoded, or None. */
  function LoadFrom(recs: seq<WeekRecord>, ws: int): (r: Result<Option<Week>, StorageError>)
    ensures r == Success(None) <==> forall i :: 0 <= i < |recs| ==> recs[i].weekStart != ws
    ensures r.Success? && r.value.Some? ==> r.value.value.weekStart == ws
  {
    var hits := WithKey(recs, StartOf, ws);
    WithKeyMembers(recs, StartOf, ws);
    assert forall i :: 0 <= i < |recs| ==> recs[i] in recs && StartOf(recs[i]) == recs[i].weekStart;
    if hits == [] then Success(None)
    else
      assert hits[0] in hits;
      match FromDict(hits[0])
      case None => Failure(CorruptWeek(ws))
      case Some(w) => Success(Some(w))
  }

  /** `save_week(p)` then `load_week(p.week_start)` gives back p's content. */
  lemma LoadAfterSave(recs: seq<WeekRecord>, w: Week)
    ensures LoadFrom(Saved(recs, w), w.weekStart) == Success(Some(PostInit(w.weekStart, w.days)))
  {
    FromDictToDict(w);
  }

  /** Saving week w leaves every other week's load result as it was. */
  lemma LoadOtherAfterSave(recs: seq<WeekRecord>, w: Week, ws: int)
    requires ws != w.weekStart
    ensures LoadFrom(Saved(recs, w), ws) == LoadFrom(recs, ws)
  {
  }

  /** The records `win` keeps, each passed through `decode`, in stored order; the
      first one `decode` rejects makes the result a Failure. */
  function DecodeWhere<W>(recs: seq<WeekRecord>, win: Window, decode: WeekRecord -> Option<W>): Result<seq<W>, StorageError> {
    if recs == [] then Success([])
    else
      var init := recs[..|recs| - 1];
      var x := recs[|recs| - 1];
      match DecodeWhere(init, win, decode)
      case Failure(e) => Failure(e)
      case Success(ws) =>
        if !Keeps(win, x) then Success(ws)
        else
          match decode(x)
          case None => Failure(CorruptWeek(x.weekStart))
          case Some(w) => Success(ws + [w])
  }

  /** A query fails exactly when a record it reads does not decode; otherwise it
      returns exactly the decoded records in its window, no more of them than
      there are records. */
  lemma {:induction false} DecodeWhereSpec<W(!new)>(recs: seq<WeekRecord>, win: Window, decode: WeekRecord -> Option<W>)
    ensures var r := DecodeWhere(recs, win, decode);
            && (r.Failure? <==> exists i :: 0 <= i < |recs| && Keeps(win, recs[i]) && decode(recs[i]).None?)
            && (r.Success? ==> |r.value| <= |recs|)
            && (r.Success? ==> forall w :: w in r.value <==>
                  exists i :: 0 <= i < |recs| && Keeps(win, recs[i]) && decode(recs[i]) == Some(w))
  {
    if recs != [] {
      var init := recs[..|recs| - 1];
      DecodeWhereSpec(init, win, decode);
      assert forall i :: 0 <= i < |init| ==> recs[i] == init[i];
    }
  }

  /** A decoded week has its record's week start. */
  lemma DecodedWeekStart(rec: WeekRecord)
    ensures FromDict(rec).Some? ==> FromDict(rec).value.weekStart == rec.weekStart
  {
  }

  /** Every week a query returns lies in its window. */
  lemma DecodedInWindow(recs: seq<WeekRecord>, win: Window, w: Week)
    requires DecodeWhere(recs, win, FromDict).Success? && w in DecodeWhere(recs, win, FromDict).value
    ensures Keeps(win, ToDict(w))
  {
    DecodeWhereSpec(recs, win, FromDict);
    var i :| 0 <= i < |recs| && Keeps(win, recs[i]) && FromDict(recs[i]) == Some(w);
    DecodedWeekStart(recs[i]);
  }

  /** Python's `s[:count]`: a negative count drops that many from the end. */
  function SliceTo<T>(s: seq<T>, count: int): (r: seq<T>)
    ensures 0 <= count ==> |r| == if count < |s| then count else |s|
    ensures count < 0 ==> |r| == if |s| + count < 0 then 0 else |s| + count
    ensures r == s[..|r|]
  {
    if count >= 0 then (if count < |s| then s[..count] else s)
    else if |s| + count < 0 then [] else s[..|s| + count]
  }

  /** What `load_previous_weeks(from, count)` returns. */
  function Previous(recs: seq<WeekRecord>, from: int, count: int): Result<seq<Week>, StorageError> {
    match DecodeWhere(recs, Before(from), FromDict)
    case Failure(e) => Failure(e)
    case Success(ws) => Success(SliceTo(SortBy(ws, NegWeekStart), count))
  }

  /** The first `count` weeks of `all` sorted most recent first: drawn from `all`,
      in that order, at most `count` of them, all of `all` when `count` allows,
      and never skipping a more recent week for an older one. */
  lemma MostRecentFirst(all: seq<Week>, count: int)
    ensures var r := SliceTo(SortBy(all, NegWeekStart), count);
            && (forall w :: w in r ==> w in all)
            && (forall i, j :: 0 <= i < j < |r| ==> r[i].weekStart >= r[j].weekStart)
            && (0 <= count ==> |r| <= count)
            && (count >= |all| ==> multiset(r) == multiset(all))
            && (forall i, y :: 0 <= i < |r| && y in all && y.weekStart > r[i].weekStart ==> y in r)
  {
    NoneSkipped(all, count);
    var sorted := SortBy(all, NegWeekStart);
    var r := SliceTo(sorted, count);
    assert r == sorted[..|r|];
    forall w | w in r ensures w in all {
      assert w in multiset(sorted);
    }
    forall i, j | 0 <= i < j < |r| ensures r[i].weekStart >= r[j].weekStart {
      assert NegWeekStart(sorted[i]) <= NegWeekStart(sorted[j]);
    }
    if count >= |all| {
      assert r == sorted;
    }
  }

  lemma NoneSkipped(all: seq<Week>, count: int)
    ensures var r := SliceTo(SortBy(all, NegWeekStart), count);
            forall i, y :: 0 <= i < |r| && y in all && y.weekStart > r[i].weekStart ==> y in r
  {
    var sorted := SortBy(all, NegWeekStart);
    var r := SliceTo(sorted, count);
    assert r == sorted[..|r|];
    forall i, y | 0 <= i < |r| && y in all && y.weekStart > r[i].weekStart ensures y in r {
      assert y in multiset(all);
      assert y in sorted;
      var j :| 0 <= j < |sorted| && sorted[j] == y;
      assert NegWeekStart(sorted[j]) < NegWeekStart(sorted[i]);
      assert j < i;
      assert r[j] == y;
    }
  }

  /** `load_previous_weeks`: only weeks before `from`, most recent first, at most
      `count` of them, and no more recent earlier week is skipped. */
  lemma PreviousWeeksSpec(recs: seq<WeekRecord>, from: int, count: int)
    requires DecodeWhere(recs, Before(from), FromDict).Success?
    ensures var all := DecodeWhere(recs, Before(from), FromDict).value;
            var r := Previous(recs, from, count);
            && r.Success?
            && (forall w :: w in r.value ==> w in all && w.weekStart < from)
            && (forall i, j :: 0 <= i < j < |r.value| ==> r.value[i].weekStart >= r.value[j].weekStart)
            && (0 <= count ==> |r.value| <= count)
            && (count >= |all| ==> multiset(r.value) == multiset(all))
            && (forall i, y :: 0 <= i < |r.value| && y in all && y.weekStart > r.value[i].weekStart ==> y in r.value)
  {
    var all := DecodeWhere(recs, Before(from), FromDict).value;
    var r := SliceTo(SortBy(all, NegWeekStart), count);
    assert Previous(recs, from, count) == Success(r);
    MostRecentFirst(all, count);
    forall w | w in r ensures w.weekStart < from {
      DecodedInWindow(recs, Before(from), w);
    }
  }

  /** What `get_month_weeks` returns for the month [monthStart, monthEnd]. */
  function MonthWeeks(recs: seq<WeekRecord>, monthStart: int, monthEnd: int): Result<seq<Week>, StorageError> {
    match DecodeWhere(recs, Overlapping(monthStart, monthEnd), FromDict)
    case Failure(e) => Failure(e)
    case Success(ws) => Success(SortBy(ws, WeekStartOf))
  }

  /** `get_month_weeks`: the weeks overlapping the month, ascending by week start,
      each decoded week exactly once per record. */
  lemma MonthWeeksSpec(recs: seq<WeekRecord>, monthStart: int, monthEnd: int)
    requires DecodeWhere(recs, Overlapping(monthStart, monthEnd), FromDict).Success?
    ensures var r := MonthWeeks(recs, monthStart, monthEnd);
            && r.Success?
            && (forall i, j :: 0 <= i < j < |r.value| ==> r.value[i].weekStart <= r.value[j].weekStart)
            && multiset(r.value) == multiset(DecodeWhere(recs, Overlapping(monthStart, monthEnd), FromDict).value)
            && (forall w :: w in r.value ==> w.weekStart <= monthEnd && w.weekStart + 6 >= monthStart)
  {
    var win := Overlapping(monthStart, monthEnd);
    var all := DecodeWhere(recs, win, FromDict).value;
    var r := SortBy(all, WeekStartOf);
    forall i, j | 0 <= i < j < |r| ensures r[i].weekStart <= r[j].weekStart {
      assert WeekStartOf(r[i]) <= WeekStartOf(r[j]);
    }
    forall w | w in r ensures w.weekStart <= monthEnd && w.weekStart + 6 >= monthStart {
      assert w in multiset(r);
      DecodedInWindow(recs, win, w);
    }
  }

  /** `get_month_weeks` returns exactly the decoded records whose week overlaps the month. */
  lemma MonthWeeksMembers(recs: seq<WeekRecord>, monthStart: int, monthEnd: int, w: Week)
    requires DecodeWhere(recs, Overlapping(monthStart, monthEnd), FromDict).Success?
    ensures w in MonthWeeks(recs, monthStart, monthEnd).value <==>
              exists i :: 0 <= i < |recs| && recs[i].weekStart <= monthEnd && recs[i].weekStart + 6 >= monthStart &&
                          FromDict(recs[i]) == Some(w)
  {
    var win := Overlapping(monthStart, monthEnd);
    var all := DecodeWhere(recs, win, FromDict).value;
    var r := SortBy(all, WeekStartOf);
    assert MonthWeeks(recs, monthStart, monthEnd) == Success(r);
    SameMembers(r, all);
    DecodeWhereSpec(recs, win, FromDict);
    if w in r {
      var i :| 0 <= i < |recs| && Keeps(win, recs[i]) && FromDict(recs[i]) == Some(w);
      assert recs[i].weekStart <= monthEnd && recs[i].weekStart + 6 >= monthStart;
    } else {
      forall i | 0 <= i < |recs| && recs[i].weekStart <= monthEnd && recs[i].weekStart + 6 >= monthStart
        ensures FromDict(recs[i]) != Some(w)
      {
        assert Keeps(win, recs[i]);
      }
    }
  }

  /** Two sequences with the same multiset have the same members. */
  lemma SameMembers<T>(a: seq<T>, b: seq<T>)
    requires multiset(a) == multiset(b)
    ensures forall x :: x in a <==> x in b
  {
    forall x ensures x in a <==> x in b {
      assert x in a <==> x in multiset(a);
      assert x in b <==> x in multiset(b);
    }
  }

  /** A corrupt record among those a query reads makes the whole query fail. */
  lemma {:induction false} DecodeWhereFailurePersists<W(!new)>(s: seq<WeekRecord>, t: seq<WeekRecord>, win: Window,
                                                        decode: WeekRecord -> Option<W>)
    requires DecodeWhere(s, win, decode).Failure?
    ensures DecodeWhere(s + t, win, decode) == DecodeWhere(s, win, decode)
  {
    if t == [] {
      assert s + t == s;
    } else {
      var t' := t[..|t| - 1];
      DecodeWhereFailurePersists(s, t', win, decode);
      assert (s + t)[..|s + t| - 1] == s + t';
    }
  }

  /** One more record read by a query: skipped outside the window, appended
      when it decodes, and a failure of the whole query when it does not. */
  lemma DecodeWhereStep<W(!new)>(recs: seq<WeekRecord>, i: nat, win: Window, decode: WeekRecord -> Option<W>,
                                 found: seq<W>)
    requires i < |recs| && DecodeWhere(recs[..i], win, decode) == Success(found)
    ensures !Keeps(win, recs[i]) ==> DecodeWhere(recs[..i + 1], win, decode) == Success(found)
    ensures Keeps(win, recs[i]) && decode(recs[i]).Some? ==>
              DecodeWhere(recs[..i + 1], win, decode) == Success(found + [decode(recs[i]).value])
    ensures Keeps(win, recs[i]) && decode(recs[i]).None? ==>
              DecodeWhere(recs, win, decode) == Failure(CorruptWeek(recs[i].weekStart))
  {
    assert recs[..i + 1][..i] == recs[..i];
    if Keeps(win, recs[i]) && decode(recs[i]).None? {
      assert recs == recs[..i + 1] + recs[i + 1..];
      DecodeWhereFailurePersists(recs[..i + 1], recs[i + 1..], win, decode);
    }
  }

  class PlanStorage {
    var weeks: seq<WeekRecord>

    /** A store over the records already in the file. */
    constructor (stored: seq<WeekRecord>)
      ensures weeks == stored
    {
      weeks := stored;
    }

    /** `save_week`. */
    method SaveWeek(plan: WeekPlan)
      modifies this
      ensures weeks == Saved(old(weeks), plan.Contents())
    {
      var kept := Others(weeks, plan.weekStart);
      weeks := SortBy(kept + [ToDict(plan.Contents())], StartOf);
    }

    /** `load_week`: the first record of that week, decoded; None if there is none. */
    method LoadWeek(ws: int) returns (r: Result<Option<Week>, StorageError>)
      ensures r == LoadFrom(weeks, ws)
    {
      for i := 0 to |weeks|
        invariant WithKey(weeks[..i], StartOf, ws) == []
      {
        WithKeyAppend(weeks[..i], [weeks[i]], StartOf, ws);
        assert weeks[..i + 1] == weeks[..i] + [weeks[i]];
        if weeks[i].weekStart == ws {
          assert weeks == weeks[..i] + ([weeks[i]] + weeks[i + 1..]);
          WithKeyAppend(weeks[..i], [weeks[i]] + weeks[i + 1..], StartOf, ws);
          match FromDict(weeks[i])
          case None => return Failure(CorruptWeek(ws));
          case Some(w) => return Success(Some(w));
        }
      }
      assert weeks[..|weeks|] == weeks;
      return Success(None);
    }

    /** `load_previous_weeks(from, count)`. */
    method LoadPreviousWeeks(from: int, count: int) returns (r: Result<seq<Week>, StorageError>)
      ensures r == Previous(weeks, from, count)
    {
      var previous := [];
      for i := 0 to |weeks|
        invariant DecodeWhere(weeks[..i], Before(from), FromDict) == Success(previous)
      {
        DecodeWhereStep(weeks, i, Before(from), FromDict, previous);
        if weeks[i].weekStart < from {
          match FromDict(weeks[i])
          case None =>
            assert Previous(weeks, from, count) == Failure(CorruptWeek(weeks[i].weekStart));
            return Failure(CorruptWeek(weeks[i].weekStart));
          case Some(w) =>
            previous := previous + [w];
        }
      }
      assert weeks[..|weeks|] == weeks;
      var sorted := SortBy(previous, NegWeekStart);
      assert Previous(weeks, from, count) == Success(SliceTo(sorted, count));
      return Success(SliceTo(sorted, count));
    }

    /** `get_month_weeks`, with the month's first and last day given as day numbers. */
    method GetMonthWeeks(monthStart: int, monthEnd: int) returns (r: Result<seq<Week>, StorageError>)
      ensures r == MonthWeeks(weeks, monthStart, monthEnd)
    {
      var monthWeeks := [];
      for i := 0 to |weeks|
        invariant DecodeWhere(weeks[..i], Overlapping(monthStart, monthEnd), FromDict) == Success(monthWeeks)
      {
        DecodeWhereStep(weeks, i, Overlapping(monthStart, monthEnd), FromDict, monthWeeks);
        var weekStart := weeks[i].weekStart;
        var weekEnd := weekStart + 6;
        assert Keeps(Overlapping(monthStart, monthEnd), weeks[i]) <==> weekStart <= monthEnd && weekEnd >= monthStart;
        if weekStart <= monthEnd && weekEnd >= monthStart {
          match FromDict(weeks[i])
          case None =>
            assert MonthWeeks(weeks, monthStart, monthEnd) == Failure(CorruptWeek(weekStart));
            return Failure(CorruptWeek(weekStart));
          case Some(w) =>
            monthWeeks := monthWeeks + [w];
        }
      }
      assert weeks[..|weeks|] == weeks;
      var sorted := SortBy(monthWeeks, WeekStartOf);
      assert MonthWeeks(weeks, monthStart, monthEnd) == Success(sorted);
      return Success(sorted);
    }

    /** `delete_week`: true iff a record of that week was stored; afterwards none is,
        and every other week's records are as they were. */
    method DeleteWeek(ws: int) returns (deleted: bool)
      modifies this
      ensures deleted <==> exists i :: 0 <= i < |old(weeks)| && old(weeks)[i].weekStart == ws
      ensures weeks == Others(old(weeks), ws)
    {
      var originalCount := |weeks|;
      var kept := Others(weeks, ws);
      if |kept| < originalCount {
        weeks := kept;
        return true;
      }
      // nothing was dropped, so the list is unchanged
      OthersNoneDropped(weeks, ws);
      return false;
    }

    /** `clear_all`. */
    method ClearAll()
      modifies this
      ensures weeks == []
    {
      weeks := [];
    }
  }
}
