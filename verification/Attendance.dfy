/** Clocking in and out, and the summary of what was worked. Times are instants. */
module Attendance {
  import opened Wrappers
  import Days

  type Id = string

  /** An entry without a clock-out time is an open punch. */
  datatype Entry = Entry(user: Id, clockIn: int, clockOut: Option<int>)

  datatype Punch = ClockIn(user: Id, at: int) | ClockOut(user: Id, at: int)

  predicate IsOpen(e: Entry, user: Id) {
    e.user == user && e.clockOut.None?
  }

  /** The user's open punch; the latest if there were several. */
  function OpenOf(es: seq<Entry>, user: Id): (found: Option<nat>)
    ensures found.Some? ==> found.value < |es| && IsOpen(es[found.value], user)
    ensures found.None? ==> forall i :: 0 <= i < |es| ==> !IsOpen(es[i], user)
  {
    if |es| == 0 then None
    else if IsOpen(es[|es| - 1], user) then Some(|es| - 1)
    else OpenOf(es[..|es| - 1], user)
  }

  /** A second clock-in and a clock-out without a punch are refused and change nothing. */
  function Punched(es: seq<Entry>, p: Punch): seq<Entry> {
    var open := OpenOf(es, p.user);
    match p
    case ClockIn(user, at) => if open.Some? then es else es + [Entry(user, at, None)]
    case ClockOut(_, at) => if open.None? then es else es[open.value := es[open.value].(clockOut := Some(at))]
  }

  class TimeClock {
    var entries: seq<Entry>

    constructor ()
      ensures entries == []
    {
      entries := [];
    }

    method In(user: Id, now: int) returns (ok: bool)
      modifies this
      ensures entries == Punched(old(entries), ClockIn(user, now))
      ensures ok <==> OpenOf(old(entries), user).None?
    {
      var open := OpenOf(entries, user);
      if open.Some? {
        return false;
      }
      entries := entries + [Entry(user, now, None)];
      return true;
    }

    method Out(user: Id, now: int) returns (ok: bool)
      modifies this
      ensures entries == Punched(old(entries), ClockOut(user, now))
      ensures ok <==> OpenOf(old(entries), user).Some?
    {
      var open := OpenOf(entries, user);
      if open.None? {
        return false;
      }
      entries := entries[open.value := entries[open.value].(clockOut := Some(now))];
      return true;
    }
  }

  /** A clock-in opens a punch at its time unless the user has one open; a clock-out closes that
      one at its time, leaving when it began, and neither touches another entry. */
  lemma PunchRecords(es: seq<Entry>, p: Punch)
    ensures (exists e :: e in es && e.user == p.user && e.clockOut == None) <==> OpenOf(es, p.user).Some?
    ensures var (open, after) := (OpenOf(es, p.user), Punched(es, p));
            if p.ClockIn? then after == if open.None? then es + [Entry(p.user, p.at, None)] else es
            else if open.None? then after == es
            else
              && |after| == |es| && (forall i :: 0 <= i < |es| && i != open.value ==> after[i] == es[i])
              && es[open.value].clockOut == None && after[open.value] == Entry(p.user, es[open.value].clockIn, Some(p.at))
  {
    var open := OpenOf(es, p.user);
    if open.Some? {
      assert es[open.value] in es;
    }
  }

  function Run(punches: seq<Punch>): seq<Entry> {
    if |punches| == 0 then [] else Punched(Run(punches[..|punches| - 1]), punches[|punches| - 1])
  }

  lemma RunStep(punches: seq<Punch>, p: Punch)
    ensures Run([]) == [] && Run(punches + [p]) == Punched(Run(punches), p)
  {
    assert (punches + [p])[..|punches|] == punches;
  }

  /** The server clock never goes back. */
  ghost predicate ClockRuns(punches: seq<Punch>) {
    forall i, j :: 0 <= i < j < |punches| ==> punches[i].at <= punches[j].at
  }

  // ---------------------------------------------------------------- one punch at a time

  /** Two entries of one user, the earlier one closed before the later one begins. */
  ghost predicate Follows(a: Entry, b: Entry) {
    a.user == b.user ==> a.clockOut.Some? && a.clockOut.value <= b.clockIn
  }

  ghost predicate Proper(e: Entry, now: int) {
    e.clockIn <= now && (e.clockOut.Some? ==> e.clockIn <= e.clockOut.value <= now)
  }

  /** No session ends before it starts, and each user's entries follow one another; so only the
      last one can be open. */
  ghost predicate Orderly(es: seq<Entry>, now: int) {
    && (forall i :: 0 <= i < |es| ==> Proper(es[i], now))
    && (forall i, j :: 0 <= i < j < |es| ==> Follows(es[i], es[j]))
  }

  lemma PunchKeepsOrder(es: seq<Entry>, p: Punch, now: int)
    requires Orderly(es, now) && now <= p.at
    ensures Orderly(Punched(es, p), p.at)
  {
  }

  lemma {:induction false} RunIsOrderly(punches: seq<Punch>)
    requires ClockRuns(punches)
    ensures |punches| > 0 ==> Orderly(Run(punches), punches[|punches| - 1].at)
    ensures |punches| == 0 ==> Run(punches) == []
  {
    if |punches| > 0 {
      var n := |punches| - 1;
      RunIsOrderly(punches[..n]);
      PunchKeepsOrder(Run(punches[..n]), punches[n], if n > 0 then punches[n - 1].at else punches[n].at);
    }
  }

  /** After any punches, a user has at most one open punch, and no two of the user's sessions
      share an instant in their interiors. */
  lemma SessionsNeverOverlap(punches: seq<Punch>, i: nat, j: nat)
    requires ClockRuns(punches) && i < j < |Run(punches)| && Run(punches)[i].user == Run(punches)[j].user
    ensures var es := Run(punches);
            && es[i].clockOut.Some?
            && es[i].clockIn <= es[i].clockOut.value <= es[j].clockIn
  {
    RunIsOrderly(punches);
    assert Follows(Run(punches)[i], Run(punches)[j]);
  }

  // ---------------------------------------------------------------- the summary

  const PAGE := 200

  /** The user's entries of the window, newest first. */
  function Newest(es: seq<Entry>, user: Id, from: int, to: int): seq<Entry> {
    if |es| == 0 then []
    else
      var e := es[|es| - 1];
      (if e.user == user && from <= e.clockIn <= to then [e] else []) + Newest(es[..|es| - 1], user, from, to)
  }

  function History(es: seq<Entry>, user: Id, from: int, to: int): seq<Entry> {
    var rows := Newest(es, user, from, to);
    if |rows| <= PAGE then rows else rows[..PAGE]
  }

  /** A newer entry of the user, begun in the window, comes before the older ones; any other entry
      is passed over. */
  lemma NewestFirst(es: seq<Entry>, e: Entry, user: Id, from: int, to: int)
    ensures Newest([], user, from, to) == []
    ensures Newest(es + [e], user, from, to) ==
            if e.user == user && from <= e.clockIn && e.clockIn <= to then [e] + Newest(es, user, from, to)
            else Newest(es, user, from, to)
  {
    assert (es + [e])[..|es|] == es;
  }

  /** The history is the newest two hundred of them, or all if there are fewer. */
  lemma HistoryIsPage(es: seq<Entry>, user: Id, from: int, to: int)
    ensures History(es, user, from, to) <= Newest(es, user, from, to)
    ensures |History(es, user, from, to)| == if |Newest(es, user, from, to)| < 200 then |Newest(es, user, from, to)| else 200
  {
  }

  function Closed(rows: seq<Entry>): (closed: seq<Entry>)
    ensures forall k :: 0 <= k < |closed| ==> closed[k].clockOut.Some?
  {
    if |rows| == 0 then []
    else Closed(rows[..|rows| - 1]) + if rows[|rows| - 1].clockOut.Some? then [rows[|rows| - 1]] else []
  }

  function TotalMs(closed: seq<Entry>): int
    requires forall k :: 0 <= k < |closed| ==> closed[k].clockOut.Some?
  {
    if |closed| == 0 then 0
    else TotalMs(closed[..|closed| - 1]) + (closed[|closed| - 1].clockOut.value - closed[|closed| - 1].clockIn)
  }

  function DaysWorked(closed: seq<Entry>): set<int> {
    set e | e in closed :: Days.DayOf(e.clockIn)
  }

  /** The sum of the lengths of the sessions. */
  lemma {:induction false} TotalAdds(closed: seq<Entry>, more: seq<Entry>)
    requires forall k :: 0 <= k < |closed| ==> closed[k].clockOut.Some?
    requires forall k :: 0 <= k < |more| ==> more[k].clockOut.Some?
    ensures TotalMs(closed + more) == TotalMs(closed) + TotalMs(more)
    ensures |more| == 1 ==> TotalMs(more) == more[0].clockOut.value - more[0].clockIn
  {
    if |more| > 0 {
      TotalAdds(closed, more[..|more| - 1]);
      assert (closed + more)[..|closed + more| - 1] == closed + more[..|more| - 1];
    } else {
      assert closed + more == closed;
    }
  }

  datatype Summary = Summary(days: nat, totalMs: int, averageMs: int, sessions: nat)

  function Summarise(es: seq<Entry>, user: Id, from: int, to: int): Summary {
    var closed := Closed(History(es, user, from, to));
    var days := |DaysWorked(closed)|;
    var totalMs := TotalMs(closed);
    Summary(days, totalMs, if days > 0 then Days.RoundDiv(totalMs, days) else 0, |closed|)
  }

  /** Newest first: each entry begins no earlier than any later-listed one ends. */
  ghost predicate Descending(rows: seq<Entry>) {
    && (forall k :: 0 <= k < |rows| && rows[k].clockOut.Some? ==> rows[k].clockIn <= rows[k].clockOut.value)
    && (forall j, k :: 0 <= j < k < |rows| ==> EndedBy(rows[k], rows[j]))
  }

  ghost predicate EndedBy(older: Entry, newer: Entry) {
    older.clockOut.Some? && older.clockOut.value <= newer.clockIn
  }

  lemma {:induction false} NewestDescends(es: seq<Entry>, user: Id, from: int, to: int, now: int)
    requires Orderly(es, now)
    ensures Descending(Newest(es, user, from, to))
    ensures forall e :: e in Newest(es, user, from, to) ==> e in es && e.user == user && from <= e.clockIn <= to
  {
    if |es| > 0 {
      var front, last := es[..|es| - 1], es[|es| - 1];
      NewestDescends(front, user, from, to, now);
      assert es == front + [last];
      var older := Newest(front, user, from, to);
      forall k | 0 <= k < |older| && last.user == user
        ensures EndedBy(older[k], last)
      {
        assert older[k] in front;
        var i :| 0 <= i < |front| && front[i] == older[k];
        assert Follows(es[i], es[|es| - 1]);
      }
    }
  }

  lemma {:induction false} ClosedDescends(rows: seq<Entry>)
    requires Descending(rows)
    ensures Descending(Closed(rows))
    ensures forall e :: e in Closed(rows) <==> e in rows && e.clockOut.Some?
  {
    if |rows| > 0 {
      var front, last := rows[..|rows| - 1], rows[|rows| - 1];
      PrefixDescends(rows, |rows| - 1);
      ClosedDescends(front);
      assert rows == front + [last];
      var closed := Closed(front);
      forall j | 0 <= j < |closed| && last.clockOut.Some?
        ensures EndedBy(last, closed[j])
      {
        assert closed[j] in front;
      }
    }
  }

  /** Sessions that do not overlap fit between the first clock-in and the last clock-out. */
  lemma {:induction false} TotalFitsSpan(closed: seq<Entry>)
    requires Descending(closed) && |closed| > 0
    requires forall k :: 0 <= k < |closed| ==> closed[k].clockOut.Some?
    ensures 0 <= TotalMs(closed) <= closed[0].clockOut.value - closed[|closed| - 1].clockIn
  {
    if |closed| > 1 {
      PrefixDescends(closed, |closed| - 1);
      TotalFitsSpan(closed[..|closed| - 1]);
    } else {
      assert closed[..0] == [];
    }
  }

  lemma {:induction false} FewerDaysThanSessions(closed: seq<Entry>)
    ensures |DaysWorked(closed)| <= |closed|
    ensures |closed| > 0 ==> |DaysWorked(closed)| > 0
  {
    if |closed| > 0 {
      var front, last := closed[..|closed| - 1], closed[|closed| - 1];
      FewerDaysThanSessions(front);
      assert closed == front + [last];
      assert DaysWorked(closed) == DaysWorked(front) + {Days.DayOf(last.clockIn)};
    }
  }

  lemma CountedDescends(punches: seq<Punch>, user: Id, from: int, to: int)
    requires ClockRuns(punches)
    ensures var counted := Closed(History(Run(punches), user, from, to));
            && Descending(counted)
            && forall e :: e in counted ==> e.user == user && from <= e.clockIn <= to
  {
    var es := Run(punches);
    RunIsOrderly(punches);
    NewestDescends(es, user, from, to, if |punches| > 0 then punches[|punches| - 1].at else 0);
    var all := Newest(es, user, from, to);
    var rows := History(es, user, from, to);
    PrefixDescends(all, |rows|);
    ClosedDescends(rows);
  }

  lemma PrefixDescends(rows: seq<Entry>, n: nat)
    requires Descending(rows) && n <= |rows|
    ensures Descending(rows[..n])
  {
  }

  /** After any punches, for any user and window: the time worked is no more than the span from
      the first clock-in to the last clock-out of the sessions counted, they fall on no more days
      than there are sessions, and the average is the nearest to the time per day. */
  lemma SummaryIsHonest(punches: seq<Punch>, user: Id, from: int, to: int)
    requires ClockRuns(punches)
    ensures var s := Summarise(Run(punches), user, from, to);
            var counted := Closed(History(Run(punches), user, from, to));
            && s.sessions == |counted| && s.days <= s.sessions
            && (s.days == 0 <==> s.sessions == 0)
            && (counted == [] ==> s.totalMs == 0 && s.averageMs == 0)
            && -(s.days as int) <= 2 * (s.totalMs - s.days * s.averageMs) <= s.days
            && (counted != [] ==> 0 <= s.totalMs <= counted[0].clockOut.value - counted[|counted| - 1].clockIn)
            && (forall e :: e in counted ==> e.user == user && from <= e.clockIn <= to)
  {
    CountedDescends(punches, user, from, to);
    var counted := Closed(History(Run(punches), user, from, to));
    SummaryOf(counted);
    if counted != [] {
      Days.RoundDivIsNearest(TotalMs(counted), |DaysWorked(counted)|);
    }
  }

  lemma SummaryOf(counted: seq<Entry>)
    requires Descending(counted)
    requires forall k :: 0 <= k < |counted| ==> counted[k].clockOut.Some?
    ensures |DaysWorked(counted)| <= |counted| && (|DaysWorked(counted)| == 0 <==> |counted| == 0)
    ensures if counted == [] then TotalMs(counted) == 0
            else 0 <= TotalMs(counted) <= counted[0].clockOut.value - counted[|counted| - 1].clockIn
  {
    FewerDaysThanSessions(counted);
    if counted != [] {
      TotalFitsSpan(counted);
    }
  }
}
