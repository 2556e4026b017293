/** tryReserve under concurrency: each call reads and checks, and commits its increments later. */
module Concurrency {
  import opened Wrappers
  import opened HotelModel
  import opened Ledger

  /** A call between its check and its commit, with the rows it read. */
  datatype Call = Call(property: Id, roomType: Id, checkIn: int, checkOut: int, units: nat, read: seq<Row>)

  datatype World = World(rows: seq<Row>, inFlight: seq<Call>)

  datatype Event =
    | Begin(property: Id, roomType: Id, checkIn: int, checkOut: int, units: nat)
    | Finish(index: nat)
    | GiveBack(property: Id, roomType: Id, checkIn: int, checkOut: int, units: nat)

  function Next(w: World, e: Event): World {
    match e
    case Begin(p, t, ci, co, units) =>
      if FirstFull(w.rows, GuestSelector(p, t), ci, co, units).Some? then w
      else w.(inFlight := w.inFlight + [Call(p, t, ci, co, units, w.rows)])
    case Finish(i) =>
      if i >= |w.inFlight| then w
      else
        var c := w.inFlight[i];
        World(Commit(w.rows, c.read, GuestSelector(c.property, c.roomType), c.checkIn, c.checkOut, c.units),
              w.inFlight[..i] + w.inFlight[i + 1..])
    case GiveBack(p, t, ci, co, units) =>
      w.(rows := Release(w.rows, GuestSelector(p, t), ci, co, units))
  }

  function Run(w: World, events: seq<Event>): World {
    if |events| == 0 then w else Next(Run(w, events[..|events| - 1]), events[|events| - 1])
  }

  /** One room type on one day. */
  datatype Night = Night(property: Id, roomType: Id, day: int)

  predicate Wants(c: Call, n: Night) {
    c.property == n.property && c.roomType == n.roomType && c.checkIn <= n.day < c.checkOut
  }

  /** How many calls in flight want the night, and how many units they will add to it. */
  function Contenders(calls: seq<Call>, n: Night): nat {
    if |calls| == 0 then 0
    else Contenders(calls[..|calls| - 1], n) + if Wants(calls[|calls| - 1], n) then 1 else 0
  }

  function Pending(calls: seq<Call>, n: Night): nat {
    if |calls| == 0 then 0
    else Pending(calls[..|calls| - 1], n) + if Wants(calls[|calls| - 1], n) then calls[|calls| - 1].units else 0
  }

  ghost predicate IsNight(r: Row, n: Night) {
    r.property == n.property && r.roomType == Some(n.roomType) && r.day == n.day
  }

  /** The night has exactly one row, at position i. */
  ghost predicate OnlyRow(rows: seq<Row>, i: nat, n: Night) {
    i < |rows| && forall j :: 0 <= j < |rows| ==> (IsNight(rows[j], n) <==> j == i)
  }

  // ---------------------------------------------------------------- counting calls

  lemma {:induction false} RemoveOne(calls: seq<Call>, i: nat, n: Night)
    requires i < |calls|
    ensures var rest := calls[..i] + calls[i + 1..];
            && Contenders(calls, n) == Contenders(rest, n) + (if Wants(calls[i], n) then 1 else 0)
            && Pending(calls, n) == Pending(rest, n) + (if Wants(calls[i], n) then calls[i].units else 0)
  {
    var rest := calls[..i] + calls[i + 1..];
    var front, last := calls[..|calls| - 1], calls[|calls| - 1];
    if i == |calls| - 1 {
      assert rest == front;
    } else {
      RemoveOne(front, i, n);
      assert rest[..|rest| - 1] == front[..i] + front[i + 1..];
      assert rest[|rest| - 1] == last;
    }
  }

  lemma {:induction false} PendingBound(calls: seq<Call>, n: Night, u: nat)
    requires forall c :: c in calls ==> c.units <= u
    ensures Pending(calls, n) <= Contenders(calls, n) * u
  {
    if |calls| > 0 {
      PendingBound(calls[..|calls| - 1], n, u);
    }
  }

  // ---------------------------------------------------------------- the invariant

  /** The night keeps its row, and every call in flight read that row and no other. */
  ghost predicate RowKept(w: World, i: nat, n: Night) {
    OnlyRow(w.rows, i, n) && forall c :: c in w.inFlight ==> |c.read| <= |w.rows| && OnlyRow(c.read, i, n)
  }

  /** Besides, what is reserved plus what is about to be stays within inventory plus k - 1
      calls' worth. */
  ghost predicate Bounded(w: World, i: nat, n: Night, inventory: int, k: nat, u: nat) {
    && RowKept(w, i, n)
    && w.rows[i].inventory == inventory
    && (forall c :: c in w.inFlight ==> c.units <= u)
    && w.rows[i].reserved + Pending(w.inFlight, n) <= inventory + (k - 1) * u
  }

  lemma CommitWatched(rows: seq<Row>, c: Call, i: nat, n: Night)
    requires OnlyRow(rows, i, n) && OnlyRow(c.read, i, n) && |c.read| <= |rows|
    ensures var out := Commit(rows, c.read, GuestSelector(c.property, c.roomType), c.checkIn, c.checkOut, c.units);
            && OnlyRow(out, i, n) && |rows| <= |out|
            && rows[i].inventory == out[i].inventory
            && rows[i].day == n.day
            && out[i].reserved == rows[i].reserved + if Wants(c, n) then c.units else 0
  {
    var q := GuestSelector(c.property, c.roomType);
    var created := NewRows(c.read, q, c.checkIn, c.checkOut, c.units);
    NewRowsFillGaps(c.read, q, c.checkIn, c.checkOut, c.units);
    forall k | 0 <= k < |created|
      ensures !IsNight(created[k], n)
    {
      assert IsNewRow(created[k], c.read, q, c.checkIn, c.checkOut, c.units);
      assert !Hit(q, c.read[i], created[k].day);
    }
    if Selects(q, c.read[i]) {
      OnlyRowFound(c.read, i, n, q);
    }
  }

  lemma OnlyRowFound(rows: seq<Row>, i: nat, n: Night, q: Selector)
    requires OnlyRow(rows, i, n) && q == GuestSelector(n.property, n.roomType)
    ensures FirstOn(rows, q, n.day) == Some(i)
  {
    assert Hit(q, rows[i], n.day);
    var f := FirstOn(rows, q, n.day);
    if f.Some? {
      assert IsNight(rows[f.value], n);
    }
  }

  /** No step takes the night's row away or gives it a second one. */
  lemma StepKeepsRow(w: World, e: Event, i: nat, n: Night)
    requires RowKept(w, i, n)
    ensures RowKept(Next(w, e), i, n)
  {
    if e.Finish? && e.index < |w.inFlight| {
      assert w.inFlight[e.index] in w.inFlight;
      CommitWatched(w.rows, w.inFlight[e.index], i, n);
    }
  }

  lemma BeginKeepsBound(w: World, e: Event, i: nat, n: Night, inventory: int, k: nat, u: nat)
    requires Bounded(w, i, n, inventory, k, u) && e.Begin? && e.units <= u
    requires Contenders(Next(w, e).inFlight, n) <= k
    ensures Bounded(Next(w, e), i, n, inventory, k, u)
  {
    var after := Next(w, e);
    StepKeepsRow(w, e, i, n);
    if after != w {
      var c := Call(e.property, e.roomType, e.checkIn, e.checkOut, e.units, w.rows);
      assert after == World(w.rows, w.inFlight + [c]);
      assert after.inFlight[..|w.inFlight|] == w.inFlight;
      if Wants(c, n) {
        var q := GuestSelector(e.property, e.roomType);
        OnlyRowFound(w.rows, i, n, q);
        assert FirstFull(w.rows, q, e.checkIn, e.checkOut, e.units).None?;
        assert Ledger.Free(w.rows, q, n.day) >= e.units;
        PendingBound(w.inFlight, n, u);
        RoomForOneMore(inventory - w.rows[i].reserved, e.units, Pending(w.inFlight, n), Contenders(w.inFlight, n), k, u);
      }
    }
  }

  /** A call that passes its check while at most k - 1 others contend fits under the bound. */
  lemma RoomForOneMore(free: int, units: int, pending: int, contenders: nat, k: nat, u: nat)
    requires free >= units && pending <= contenders * u && contenders + 1 <= k
    ensures pending + units <= free + (k - 1) * u
  {
    var spare := k - 1 - contenders;
    assert (contenders + spare) * u == contenders * u + spare * u;
    assert spare * u >= 0;
  }

  lemma FinishKeepsBound(w: World, e: Event, i: nat, n: Night, inventory: int, k: nat, u: nat)
    requires Bounded(w, i, n, inventory, k, u) && e.Finish?
    ensures Bounded(Next(w, e), i, n, inventory, k, u)
  {
    StepKeepsRow(w, e, i, n);
    if e.index < |w.inFlight| {
      var c := w.inFlight[e.index];
      assert c in w.inFlight;
      CommitWatched(w.rows, c, i, n);
      RemoveOne(w.inFlight, e.index, n);
    }
  }

  /** Every state of a run from `start` has at most k calls in flight that want the night, and
      no call asks for more than u units. */
  ghost predicate AtMost(start: World, events: seq<Event>, n: Night, k: nat, u: nat) {
    && (forall m :: 0 <= m <= |events| ==> Contenders(Run(start, events[..m]).inFlight, n) <= k)
    && (forall m :: 0 <= m < |events| && events[m].Begin? ==> events[m].units <= u)
  }

  /** However the reads, commits and releases of any number of calls interleave, a night whose
      row exists and whose inventory stays fixed is oversold by at most k - 1 calls' worth when
      at most k calls contend for it. With k = 1 it is never oversold. */
  lemma {:induction false} OversellBound(start: World, events: seq<Event>, i: nat, n: Night, k: nat, u: nat)
    requires start.inFlight == [] && OnlyRow(start.rows, i, n)
    requires start.rows[i].reserved <= start.rows[i].inventory
    requires k >= 1 && AtMost(start, events, n, k, u)
    ensures Bounded(Run(start, events), i, n, start.rows[i].inventory, k, u)
    ensures var now := Run(start, events);
            i < |now.rows| && now.rows[i].reserved <= now.rows[i].inventory + (k - 1) * u
  {
    if |events| == 0 {
      assert (k - 1) * u >= 0;
    } else {
      var m := |events| - 1;
      var before, e := Run(start, events[..m]), events[m];
      PrefixAtMost(start, events, n, k, u, m);
      OversellBound(start, events[..m], i, n, k, u);
      assert events[..|events|] == events;
      match e
      case Begin(_, _, _, _, _) => BeginKeepsBound(before, e, i, n, start.rows[i].inventory, k, u);
      case Finish(_) => FinishKeepsBound(before, e, i, n, start.rows[i].inventory, k, u);
      case GiveBack(_, _, _, _, _) =>
    }
  }

  lemma PrefixAtMost(start: World, events: seq<Event>, n: Night, k: nat, u: nat, m: nat)
    requires m <= |events| && AtMost(start, events, n, k, u)
    ensures AtMost(start, events[..m], n, k, u)
  {
    forall j | 0 <= j <= m
      ensures Contenders(Run(start, events[..m][..j]).inFlight, n) <= k
    {
      assert events[..m][..j] == events[..j];
    }
  }

  // ---------------------------------------------------------------- the bound is tight

  function Repeat<T>(x: T, m: nat): (s: seq<T>)
    ensures |s| == m && forall j :: 0 <= j < m ==> s[j] == x
  {
    if m == 0 then [] else Repeat(x, m - 1) + [x]
  }

  function OneNight(n: Night, inventory: int, reserved: int): seq<Row> {
    [Row(n.property, Some(n.roomType), None, n.day, inventory, reserved, None, None, false, None, None)]
  }

  function RushCall(n: Night, inventory: int, u: nat): Call {
    Call(n.property, n.roomType, n.day, n.day + 1, u, OneNight(n, inventory, inventory - u))
  }

  function Units(calls: nat, u: nat): nat {
    if calls == 0 then 0 else Units(calls - 1, u) + u
  }

  lemma {:induction false} UnitsAreProduct(calls: nat, u: nat)
    ensures Units(calls, u) == calls * u
  {
    if calls > 0 {
      UnitsAreProduct(calls - 1, u);
    }
  }

  /** Where a rush of calls stands: some wait to commit and some have, all having read the
      night with u units free. */
  function RushState(n: Night, inventory: int, u: nat, waiting: nat, finished: nat): World {
    World(OneNight(n, inventory, inventory - u + Units(finished, u)), Repeat(RushCall(n, inventory, u), waiting))
  }

  lemma RushReads(n: Night, inventory: int, reserved: int)
    ensures var rows := OneNight(n, inventory, reserved);
            FirstOn(rows, GuestSelector(n.property, n.roomType), n.day) == Some(0)
  {
  }

  lemma RushBegins(n: Night, inventory: int, u: nat, waiting: nat)
    ensures Next(RushState(n, inventory, u, waiting, 0), Begin(n.property, n.roomType, n.day, n.day + 1, u)) ==
            RushState(n, inventory, u, waiting + 1, 0)
  {
  }

  lemma RushFinishes(n: Night, inventory: int, u: nat, waiting: nat, finished: nat)
    requires waiting > 0
    ensures Next(RushState(n, inventory, u, waiting, finished), Finish(0)) ==
            RushState(n, inventory, u, waiting - 1, finished + 1)
  {
    var w := RushState(n, inventory, u, waiting, finished);
    var c := RushCall(n, inventory, u);
    var q := GuestSelector(n.property, n.roomType);
    RushReads(n, inventory, inventory - u);
    assert w.inFlight[0] == c;
    assert w.inFlight[..0] + w.inFlight[1..] == Repeat(c, waiting - 1);
    assert NewRows(c.read, q, n.day, n.day, u) == [];
    assert NewRows(c.read, q, n.day, n.day + 1, u) == [];
    assert Picks(c.read, q, n.day, n.day + 1, 0);
    assert Commit(w.rows, c.read, q, n.day, n.day + 1, u) == OneNight(n, inventory, inventory - u + Units(finished + 1, u));
  }

  lemma RunOneMore(w: World, events: seq<Event>, e: Event)
    ensures Run(w, events + [e]) == Next(Run(w, events), e)
  {
  }

  /** A run of at most k contenders made one event longer. */
  lemma AtMostGrows(start: World, events: seq<Event>, e: Event, now: World, n: Night, k: nat, u: nat)
    requires AtMost(start, events, n, k, u) && now == Next(Run(start, events), e)
    requires Contenders(now.inFlight, n) <= k && (e.Begin? ==> e.units <= u)
    ensures Run(start, events + [e]) == now && AtMost(start, events + [e], n, k, u)
  {
    var longer := events + [e];
    RunOneMore(start, events, e);
    forall m | 0 <= m <= |longer|
      ensures Contenders(Run(start, longer[..m]).inFlight, n) <= k
    {
      assert m <= |events| ==> longer[..m] == events[..m];
      assert m > |events| ==> longer[..m] == longer;
    }
  }

  lemma {:induction false} AllContend(c: Call, waiting: nat, n: Night)
    ensures Contenders(Repeat(c, waiting), n) <= waiting
  {
    if waiting > 0 {
      AllContend(c, waiting - 1, n);
      assert Repeat(c, waiting)[..waiting - 1] == Repeat(c, waiting - 1);
    }
  }

  /** The events lead from start to end with at most k calls of at most u units contending. */
  ghost predicate Leads(start: World, events: seq<Event>, end: World, n: Night, k: nat, u: nat) {
    Run(start, events) == end && AtMost(start, events, n, k, u)
  }

  lemma RushBeginsOne(start: World, before: seq<Event>, n: Night, inventory: int, u: nat, k: nat, waiting: nat)
    returns (events: seq<Event>)
    requires waiting < k && Leads(start, before, RushState(n, inventory, u, waiting, 0), n, k, u)
    ensures Leads(start, events, RushState(n, inventory, u, waiting + 1, 0), n, k, u)
  {
    RushBegins(n, inventory, u, waiting);
    AllContend(RushCall(n, inventory, u), waiting + 1, n);
    AtMostGrows(start, before, Begin(n.property, n.roomType, n.day, n.day + 1, u), RushState(n, inventory, u, waiting + 1, 0), n, k, u);
    events := before + [Begin(n.property, n.roomType, n.day, n.day + 1, u)];
  }

  lemma RushFinishesOne(start: World, before: seq<Event>, n: Night, inventory: int, u: nat, k: nat, waiting: nat, finished: nat)
    returns (events: seq<Event>)
    requires 0 < waiting <= k && Leads(start, before, RushState(n, inventory, u, waiting, finished), n, k, u)
    ensures Leads(start, events, RushState(n, inventory, u, waiting - 1, finished + 1), n, k, u)
  {
    RushFinishes(n, inventory, u, waiting, finished);
    AllContend(RushCall(n, inventory, u), waiting - 1, n);
    AtMostGrows(start, before, Finish(0), RushState(n, inventory, u, waiting - 1, finished + 1), n, k, u);
    events := before + [Finish(0)];
  }

  lemma StandsStill(start: World, n: Night, k: nat, u: nat)
    requires start.inFlight == []
    ensures Leads(start, [], start, n, k, u)
  {
  }

  lemma {:induction false} RushBegun(start: World, n: Night, inventory: int, u: nat, k: nat, began: nat) returns (events: seq<Event>)
    requires began <= k && Leads(start, [], RushState(n, inventory, u, 0, 0), n, k, u)
    ensures Leads(start, events, RushState(n, inventory, u, began, 0), n, k, u)
  {
    if began > 0 {
      var before := RushBegun(start, n, inventory, u, k, began - 1);
      events := RushBeginsOne(start, before, n, inventory, u, k, began - 1);
    } else {
      events := [];
    }
  }

  /** k calls that all check before any commits: a run on which some of them have committed. */
  lemma {:induction false} RushRuns(start: World, n: Night, inventory: int, u: nat, k: nat, finished: nat) returns (events: seq<Event>)
    requires finished <= k && Leads(start, [], RushState(n, inventory, u, 0, 0), n, k, u)
    ensures Leads(start, events, RushState(n, inventory, u, k - finished, finished), n, k, u)
  {
    if finished > 0 {
      var before := RushRuns(start, n, inventory, u, k, finished - 1);
      events := RushFinishesOne(start, before, n, inventory, u, k, k - finished + 1, finished - 1);
    } else {
      events := RushBegun(start, n, inventory, u, k, k);
    }
  }

  lemma RushEnds(n: Night, inventory: int, u: nat, k: nat)
    requires k >= 1
    ensures RushState(n, inventory, u, 0, 0) == World(OneNight(n, inventory, inventory - u), [])
    ensures RushState(n, inventory, u, 0, k) == World(OneNight(n, inventory, inventory + (k - 1) * u), [])
  {
    UnitsAreProduct(k - 1, u);
  }

  /** The bound is reached: for every k, u and inventory some run with at most k calls of at most
      u units contending ends exactly k - 1 calls' worth over inventory. */
  lemma OversellBoundIsReached(n: Night, inventory: int, u: nat, k: nat)
    requires k >= 1
    ensures var start := World(OneNight(n, inventory, inventory - u), []);
            var end := World(OneNight(n, inventory, inventory + (k - 1) * u), []);
            exists events :: Leads(start, events, end, n, k, u)
  {
    RushEnds(n, inventory, u, k);
    StandsStill(RushState(n, inventory, u, 0, 0), n, k, u);
    var events := RushRuns(RushState(n, inventory, u, 0, 0), n, inventory, u, k, k);
  }

  // ---------------------------------------------------------------- why the row must exist

  lemma {:induction false} RunKeepsRow(start: World, events: seq<Event>, i: nat, n: Night)
    requires RowKept(start, i, n)
    ensures RowKept(Run(start, events), i, n)
  {
    if |events| > 0 {
      RunKeepsRow(start, events[..|events| - 1], i, n);
      StepKeepsRow(Run(start, events[..|events| - 1]), events[|events| - 1], i, n);
    }
  }

  ghost predicate NoRow(rows: seq<Row>, n: Night) {
    forall j :: 0 <= j < |rows| ==> !IsNight(rows[j], n)
  }

  ghost predicate AtMostOneRow(rows: seq<Row>, n: Night) {
    forall j, k :: 0 <= j < |rows| && 0 <= k < |rows| && IsNight(rows[j], n) && IsNight(rows[k], n) ==> j == k
  }

  function RushBegin(n: Night): Event {
    Begin(n.property, n.roomType, n.day, n.day + 1, 1)
  }

  /** Two calls that overlap: both check before either writes. */
  function Overlapping(n: Night): seq<Event> {
    [RushBegin(n)] + [RushBegin(n)] + [Finish(0)] + [Finish(0)]
  }

  function OneNightNew(n: Night): seq<Row> {
    [NewRow(GuestSelector(n.property, n.roomType), n.day, 1)]
  }

  /** A call that wants one unit of the night and read these rows. */
  function BlindCall(n: Night, read: seq<Row>): Call {
    Call(n.property, n.roomType, n.day, n.day + 1, 1, read)
  }

  lemma BlindBegins(n: Night, rows: seq<Row>, calls: seq<Call>)
    requires NoRow(rows, n)
    ensures Next(World(rows, calls), RushBegin(n)) == World(rows, calls + [BlindCall(n, rows)])
  {
    Unfound(n, rows);
  }

  lemma Unfound(n: Night, rows: seq<Row>)
    requires NoRow(rows, n)
    ensures FirstOn(rows, GuestSelector(n.property, n.roomType), n.day) == None
  {
    forall j | 0 <= j < |rows|
      ensures !Hit(GuestSelector(n.property, n.roomType), rows[j], n.day)
    {
      assert !IsNight(rows[j], n);
    }
    NoneIn(rows, GuestSelector(n.property, n.roomType), n.day);
  }

  lemma BlindCommits(n: Night, rows: seq<Row>, read: seq<Row>)
    requires NoRow(read, n)
    ensures Commit(rows, read, GuestSelector(n.property, n.roomType), n.day, n.day + 1, 1) == rows + OneNightNew(n)
  {
    var q := GuestSelector(n.property, n.roomType);
    Unfound(n, read);
    assert NewRows(read, q, n.day, n.day, 1) == [];
    assert NewRows(read, q, n.day, n.day + 1, 1) == OneNightNew(n);
    assert Incremented(rows, read, q, n.day, n.day + 1, 1) == rows;
  }

  lemma BlindFinishes(n: Night, rows: seq<Row>, read: seq<Row>, others: seq<Call>)
    requires NoRow(read, n)
    ensures Next(World(rows, [BlindCall(n, read)] + others), Finish(0)) == World(rows + OneNightNew(n), others)
  {
    var calls := [BlindCall(n, read)] + others;
    assert calls[..0] + calls[1..] == others;
    BlindCommits(n, rows, read);
  }

  lemma RunFour(w: World, a: Event, b: Event, c: Event, d: Event)
    ensures Run(w, [a] + [b] + [c] + [d]) == Next(Next(Next(Next(w, a), b), c), d)
  {
    RunOneMore(w, [a] + [b] + [c], d);
    RunOneMore(w, [a] + [b], c);
    RunOneMore(w, [a], b);
    assert [a][..0] == [];
  }

  /** With no row for the night, whatever other rows there are, two overlapping calls each
      create one: the night ends with two rows of the same room type, and two units reserved
      where one existed. The unique index does not stop it, since the rows' empty room counts as
      distinct. */
  lemma MissingRowIsDuplicated(rows: seq<Row>, n: Night)
    requires NoRow(rows, n)
    ensures Run(World(rows, []), Overlapping(n)) == World(rows + OneNightNew(n) + OneNightNew(n), [])
  {
    var c := BlindCall(n, rows);
    RunFour(World(rows, []), RushBegin(n), RushBegin(n), Finish(0), Finish(0));
    BlindBegins(n, rows, []);
    BlindBegins(n, rows, [c]);
    assert [] + [c] == [c] && [c] + [] == [c];
    BlindFinishes(n, rows, rows, [c]);
    BlindFinishes(n, rows + OneNightNew(n), rows, []);
  }

  ghost predicate SingleAfter(rows: seq<Row>, n: Night, events: seq<Event>) {
    AtMostOneRow(Run(World(rows, []), events).rows, n)
  }

  lemma DuplicatedIsNotSingle(rows: seq<Row>, n: Night)
    requires NoRow(rows, n)
    ensures !SingleAfter(rows, n, Overlapping(n))
  {
    MissingRowIsDuplicated(rows, n);
    var now := rows + OneNightNew(n) + OneNightNew(n);
    assert IsNight(now[|rows|], n) && IsNight(now[|rows| + 1], n);
  }

  lemma SingleStays(rows: seq<Row>, i: nat, n: Night, events: seq<Event>)
    requires OnlyRow(rows, i, n)
    ensures SingleAfter(rows, n, events)
  {
    RunKeepsRow(World(rows, []), events, i, n);
  }

  /** Exactly which nights are safe from duplication: a night keeps at most one row through
      every interleaving of calls if and only if it has its row to begin with. */
  lemma OneRowForeverIff(rows: seq<Row>, n: Night)
    ensures (forall events :: SingleAfter(rows, n, events)) <==> exists i :: OnlyRow(rows, i, n)
  {
    if exists i :: OnlyRow(rows, i, n) {
      var i :| OnlyRow(rows, i, n);
      forall events
        ensures SingleAfter(rows, n, events)
      {
        SingleStays(rows, i, n, events);
      }
    } else if NoRow(rows, n) {
      DuplicatedIsNotSingle(rows, n);
    } else if !AtMostOneRow(rows, n) {
      assert !SingleAfter(rows, n, []);
    } else {
      var i :| 0 <= i < |rows| && IsNight(rows[i], n);
      assert OnlyRow(rows, i, n);
    }
  }
}
