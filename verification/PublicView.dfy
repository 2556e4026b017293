/** What the website's date picker is told, and what that promises. */
module PublicView {
  import opened Wrappers
  import opened HotelModel
  import opened Ledger
  import opened Engine
  import Days
  import Numbers

  datatype DayView = DayView(
    available: int, price: int, currency: string, blocked: bool, closeOut: bool,
    minStay: Option<int>, maxStay: Option<int>)

  // ---------------------------------------------------------------- the query, as loaded

  function LoadRows(rows: seq<Row>, p: Id, from: int, to: int): seq<Row> {
    if |rows| == 0 then []
    else
      var last := rows[|rows| - 1];
      LoadRows(rows[..|rows| - 1], p, from, to) +
      if last.property == p && last.room.None? && from <= last.day <= to then [last] else []
  }

  function LoadBlocks(blocks: map<nat, Block>, p: Id, from: int, to: int): map<nat, Block> {
    map k | k in blocks && blocks[k].property == p && blocks[k].startDay <= to && blocks[k].endDay >= from :: blocks[k]
  }

  function FindEntry(entries: seq<Row>, t: Id, d: int): Option<Row> {
    if |entries| == 0 then None
    else
      var earlier := FindEntry(entries[..|entries| - 1], t, d);
      var last := entries[|entries| - 1];
      if earlier.Some? then earlier
      else if last.roomType == Some(t) && last.day == d then Some(last)
      else None
  }

  predicate InBlock(b: Block, d: int) {
    b.startDay <= d <= b.endDay
  }

  /** A room type is blocked by a block on the property, or when each of its rooms is blocked. */
  predicate BlockedBy(blocks: map<nat, Block>, roomIds: set<Id>, d: int) {
    || (exists k :: k in blocks && blocks[k].room.None? && InBlock(blocks[k], d))
    || (roomIds != {} && forall r :: r in roomIds ==>
          exists k :: k in blocks && blocks[k].room == Some(r) && InBlock(blocks[k], d))
  }

  function DayPayload(entry: Option<Row>, rt: RoomType, blocked: bool): DayView {
    var closeOut := entry.Some? && entry.value.closeOut;
    var inventory := if entry.Some? then entry.value.inventory else 1;
    var reserved := if entry.Some? then entry.value.reserved else 0;
    DayView(
      if blocked || closeOut then 0 else Numbers.Max(0, inventory - reserved),
      if entry.Some? then entry.value.price.GetOr(rt.basePrice) else rt.basePrice,
      if entry.Some? then entry.value.currency.GetOr(rt.currency) else rt.currency,
      blocked, closeOut,
      if entry.Some? then entry.value.minStay else None,
      if entry.Some? then entry.value.maxStay else None)
  }

  function RoomsOf(db: Db, t: Id): set<Id> {
    set r | r in db.rooms && db.rooms[r].roomType == t
  }

  /** The per-day availability of each room type between two instants. */
  function PublicAvailability(db: Db, p: Id, from: int, to: int): Result<map<Id, seq<DayView>>, Error> {
    if to < from then Err(BadDates)
    else
      var (f, l) := (Days.DayOf(from), Days.DayOf(to));
      var entries := LoadRows(db.rows, p, f, l);
      var blocks := LoadBlocks(db.blocks, p, f, l);
      Ok(map t | t in db.roomTypes && db.roomTypes[t].property == p ::
           TypeDays(entries, blocks, t, db.roomTypes[t], RoomsOf(db, t), f, Numbers.Max(0, l - f)))
  }

  /** The days of one room type. */
  function TypeDays(entries: seq<Row>, blocks: map<nat, Block>, t: Id, rt: RoomType, roomIds: set<Id>, first: int, n: nat)
    : (days: seq<DayView>)
    ensures |days| == n
  {
    seq(n, k requires 0 <= k < n => DayPayload(FindEntry(entries, t, first + k), rt, BlockedBy(blocks, roomIds, first + k)))
  }

  // ---------------------------------------------------------------- the view, day by day

  ghost predicate Blocked(db: Db, p: Id, t: Id, d: int) {
    || (exists k :: PropertyBlock(db, k, p, d))
    || (RoomsOf(db, t) != {} && forall r :: r in RoomsOf(db, t) ==> exists k :: RoomBlock(db, k, p, r, d))
  }

  ghost predicate PropertyBlock(db: Db, k: nat, p: Id, d: int) {
    k in db.blocks && db.blocks[k].property == p && db.blocks[k].room.None? && InBlock(db.blocks[k], d)
  }

  ghost predicate RoomBlock(db: Db, k: nat, p: Id, r: Id, d: int) {
    k in db.blocks && db.blocks[k].property == p && db.blocks[k].room == Some(r) && InBlock(db.blocks[k], d)
  }

  ghost function DayAt(db: Db, p: Id, t: Id, d: int): DayView
    requires t in db.roomTypes
  {
    DayPayload(EntryAt(db.rows, p, t, d), db.roomTypes[t], Blocked(db, p, t, d))
  }

  lemma {:induction false} LoadedEntry(rows: seq<Row>, p: Id, from: int, to: int, t: Id, d: int)
    requires from <= d <= to
    ensures FindEntry(LoadRows(rows, p, from, to), t, d) == EntryAt(rows, p, t, d)
  {
    if |rows| > 0 {
      var last := rows[|rows| - 1];
      var earlier := LoadRows(rows[..|rows| - 1], p, from, to);
      LoadedEntry(rows[..|rows| - 1], p, from, to, t, d);
      FirstOnLast(rows, TypeLevel(p, t), d);
      if last.property == p && last.room.None? && from <= last.day <= to {
        assert (earlier + [last])[..|earlier|] == earlier;
      } else {
        assert earlier + [] == earlier;
      }
    }
  }

  lemma LoadedBlocked(db: Db, p: Id, from: int, to: int, t: Id, d: int)
    requires from <= d <= to
    ensures BlockedBy(LoadBlocks(db.blocks, p, from, to), RoomsOf(db, t), d) <==> Blocked(db, p, t, d)
  {
    var blocks := LoadBlocks(db.blocks, p, from, to);
    forall k
      ensures PropertyBlock(db, k, p, d) <==> k in blocks && blocks[k].room.None? && InBlock(blocks[k], d)
    {
    }
    forall r, k
      ensures RoomBlock(db, k, p, r, d) <==> k in blocks && blocks[k].room == Some(r) && InBlock(blocks[k], d)
    {
    }
  }

  /** The window a caller asks for only decides which days are shown, never what they say. */
  lemma ViewIsPointwise(db: Db, p: Id, from: int, to: int)
    requires from <= to
    ensures PublicAvailability(db, p, from, to).Ok?
    ensures var view := PublicAvailability(db, p, from, to).value;
            && (forall t :: t in view <==> t in db.roomTypes && db.roomTypes[t].property == p)
            && (forall t :: t in view ==> |view[t]| == Days.DayOf(to) - Days.DayOf(from))
            && (forall t, k :: t in view && 0 <= k < |view[t]| ==> view[t][k] == DayAt(db, p, t, Days.DayOf(from) + k))
  {
    var view := PublicAvailability(db, p, from, to).value;
    var (f, l) := (Days.DayOf(from), Days.DayOf(to));
    forall t, k | t in view && 0 <= k < |view[t]|
      ensures view[t][k] == DayAt(db, p, t, f + k)
    {
      assert view[t] == LoadedDays(db, p, f, l, t);
      LoadedDay(db, p, f, l, t, f + k);
    }
  }

  function LoadedDays(db: Db, p: Id, f: int, l: int, t: Id): seq<DayView>
    requires t in db.roomTypes
  {
    TypeDays(LoadRows(db.rows, p, f, l), LoadBlocks(db.blocks, p, f, l), t, db.roomTypes[t], RoomsOf(db, t), f, Numbers.Max(0, l - f))
  }

  lemma LoadedDay(db: Db, p: Id, f: int, l: int, t: Id, d: int)
    requires f <= d < l && t in db.roomTypes
    ensures LoadedDays(db, p, f, l, t)[d - f] == DayAt(db, p, t, d)
  {
    LoadedEntry(db.rows, p, f, l, t, d);
    LoadedBlocked(db, p, f, l, t, d);
  }

  lemma SameBlocksSameDays(a: Db, b: Db, p: Id, t: Id, d: int)
    requires a.blocks == b.blocks && a.rooms == b.rooms
    ensures Blocked(a, p, t, d) <==> Blocked(b, p, t, d)
  {
    forall k
      ensures PropertyBlock(a, k, p, d) <==> PropertyBlock(b, k, p, d)
    {
    }
    forall r, k
      ensures RoomBlock(a, k, p, r, d) <==> RoomBlock(b, k, p, r, d)
    {
    }
  }

  /** A block on the whole property, or on the one room, has the day. */
  ghost predicate PropertyIsBlocked(db: Db, p: Id, d: int) {
    exists k :: k in db.blocks && OnDay(db.blocks[k], p, None, d)
  }

  ghost predicate RoomIsBlocked(db: Db, p: Id, r: Id, d: int) {
    exists k :: k in db.blocks && OnDay(db.blocks[k], p, Some(r), d)
  }

  predicate OnDay(b: Block, p: Id, room: Option<Id>, d: int) {
    b.property == p && b.room == room && b.startDay <= d <= b.endDay
  }

  /** A room type has no room to offer on the day: the property is blocked, or it has rooms and
      every one of them is. */
  ghost predicate NothingToOffer(db: Db, p: Id, t: Id, d: int) {
    || PropertyIsBlocked(db, p, d)
    || ((exists r :: r in db.rooms && db.rooms[r].roomType == t)
        && forall r :: r in db.rooms && db.rooms[r].roomType == t ==> RoomIsBlocked(db, p, r, d))
  }

  lemma BlockedIff(db: Db, p: Id, t: Id, d: int)
    ensures Blocked(db, p, t, d) <==> NothingToOffer(db, p, t, d)
  {
    BlockedByRooms(db, p, t, d);
    PropertyIsBlockedIff(db, p, d);
    forall r
      ensures RoomIsBlocked(db, p, r, d) <==> RoomBlockedOn(db, p, r, d)
    {
      RoomIsBlockedIff(db, p, r, d);
    }
    assert RoomsOf(db, t) != {} <==> exists r :: r in RoomsOf(db, t);
    assert forall r :: r in RoomsOf(db, t) <==> r in db.rooms && db.rooms[r].roomType == t;
  }

  lemma PropertyIsBlockedIff(db: Db, p: Id, d: int)
    ensures PropertyIsBlocked(db, p, d) <==> exists k :: PropertyBlock(db, k, p, d)
  {
    if k :| k in db.blocks && OnDay(db.blocks[k], p, None, d) {
      assert PropertyBlock(db, k, p, d);
    }
    if k :| PropertyBlock(db, k, p, d) {
      assert OnDay(db.blocks[k], p, None, d);
    }
  }

  lemma RoomIsBlockedIff(db: Db, p: Id, r: Id, d: int)
    ensures RoomIsBlocked(db, p, r, d) <==> RoomBlockedOn(db, p, r, d)
  {
    if k :| k in db.blocks && OnDay(db.blocks[k], p, Some(r), d) {
      assert RoomBlock(db, k, p, r, d);
    }
    if k :| RoomBlock(db, k, p, r, d) {
      assert OnDay(db.blocks[k], p, Some(r), d);
    }
  }

  /** What the website is told of one day of one room type, in the columns of the tables. */
  ghost predicate TellsDay(db: Db, p: Id, t: Id, d: int, day: DayView)
    requires t in db.roomTypes
  {
    var (entry, rt) := (EntryAt(db.rows, p, t, d), db.roomTypes[t]);
    && (day.blocked <==> NothingToOffer(db, p, t, d))
    && (day.closeOut <==> entry.Some? && entry.value.closeOut)
    && (day.blocked || day.closeOut ==> day.available == 0)
    && (!day.blocked && !day.closeOut && entry.Some? && entry.value.reserved < entry.value.inventory ==>
          day.available == entry.value.inventory - entry.value.reserved)
    && (!day.blocked && !day.closeOut && entry.Some? && entry.value.reserved >= entry.value.inventory ==> day.available == 0)
    && (!day.blocked && !day.closeOut && entry.None? ==> day.available == 1)
    && day.price == (if entry.Some? && entry.value.price.Some? then entry.value.price.value else rt.basePrice)
    && day.currency == (if entry.Some? && entry.value.currency.Some? then entry.value.currency.value else rt.currency)
    && day.minStay == (if entry.Some? then entry.value.minStay else None)
    && day.maxStay == (if entry.Some? then entry.value.maxStay else None)
  }

  /** The public answer: refused for a window that runs backwards; else every room type of the
      property, each day of the window up to but without its last, told as the tables have it. */
  lemma PublicTellsTables(db: Db, p: Id, from: int, to: int)
    ensures to < from ==> PublicAvailability(db, p, from, to) == Err(BadDates)
    ensures from <= to ==>
              var answer := PublicAvailability(db, p, from, to);
              && answer.Ok?
              && (forall t :: t in answer.value <==> t in db.roomTypes && db.roomTypes[t].property == p)
              && (forall t, k :: t in answer.value && 0 <= k < |answer.value[t]| ==>
                    TellsDay(db, p, t, Days.DayOf(from) + k, answer.value[t][k]))
              && (forall t :: t in answer.value ==> |answer.value[t]| == Days.DayOf(to) - Days.DayOf(from))
  {
    if from <= to {
      ViewIsPointwise(db, p, from, to);
      var view := PublicAvailability(db, p, from, to).value;
      forall t, k | t in view && 0 <= k < |view[t]|
        ensures TellsDay(db, p, t, Days.DayOf(from) + k, view[t][k])
      {
        DayIsTold(db, p, t, Days.DayOf(from) + k);
      }
    }
  }

  lemma DayIsTold(db: Db, p: Id, t: Id, d: int)
    requires t in db.roomTypes
    ensures TellsDay(db, p, t, d, DayAt(db, p, t, d))
  {
    BlockedIff(db, p, t, d);
  }

  // ---------------------------------------------------------------- soundness

  /** Every night shows at least so many units. */
  ghost predicate OnSale(days: seq<DayView>, units: int) {
    forall k :: 0 <= k < |days| ==> days[k].available >= units
  }

  ghost predicate Open(days: seq<DayView>) {
    forall k :: 0 <= k < |days| ==> !days[k].blocked && !days[k].closeOut
  }

  /** The numbers shown are exact: for any units, every night shows that many exactly when a
      reservation of them for the stay would succeed and no night is blocked or closed out. The
      reservation itself looks at neither. */
  lemma OnSaleIff(db: Db, p: Id, t: Id, from: int, to: int, units: int)
    requires WellFormed(db.rows) && from <= to && units >= 1
    requires t in db.roomTypes && db.roomTypes[t].property == p
    ensures t in PublicAvailability(db, p, from, to).value
    ensures var days := PublicAvailability(db, p, from, to).value[t];
            OnSale(days, units) <==>
            Reserve(db.rows, GuestSelector(p, t), Days.DayOf(from), Days.DayOf(to), units).Ok? && Open(days)
  {
    ViewIsPointwise(db, p, from, to);
    var (f, l) := (Days.DayOf(from), Days.DayOf(to));
    var q := GuestSelector(p, t);
    var days := PublicAvailability(db, p, from, to).value[t];
    forall k | 0 <= k < |days|
      ensures days[k].available >= units <==> Free(db.rows, q, f + k) >= units && !days[k].blocked && !days[k].closeOut
    {
      GuestSeesTypeRow(db.rows, p, t, f + k);
    }
    if OnSale(days, units) {
      forall d | f <= d < l
        ensures Free(db.rows, q, d) >= units
      {
        assert days[d - f].available >= units;
      }
    }
  }

  /** In every reachable state, a stay the website shows on sale can be booked: create is not
      refused for want of availability, so it succeeds unless the reference it draws is taken. */
  lemma ShownStaysCanBeBooked(start: Db, steps: seq<Step>, i: CreateInput)
    requires Fresh(start) && FirstDay(i) < LastDay(i)
    requires var view := PublicAvailability(Run(start, steps), i.property, i.checkIn, i.checkOut);
             view.Ok? && i.roomType in view.value && OnSale(view.value[i.roomType], 1)
    ensures var now := Run(start, steps);
            Create(now, i).Done? <==> i.reference !in now.bookings
  {
    var now := Run(start, steps);
    RunKeepsCalendar(start, steps);
    ViewIsPointwise(now, i.property, i.checkIn, i.checkOut);
    OnSaleIff(now, i.property, i.roomType, i.checkIn, i.checkOut, 1);
  }

  /** Invariants of every run: the calendar has one row per room type and day, a block linked
      to a booking names one that exists, and no two blocks are linked to the same one. */
  ghost predicate CalendarSound(db: Db) {
    && WellFormed(db.rows)
    && OneBlockEach(db.blocks)
    && (forall k :: k in db.blocks ==>
          k < db.nextBlock && (db.blocks[k].booking.Some? ==> db.blocks[k].booking.value in db.bookings))
  }

  ghost predicate OneBlockEach(blocks: map<nat, Block>) {
    forall j, k :: j in blocks && k in blocks && blocks[j].booking.Some? && blocks[j].booking == blocks[k].booking ==> j == k
  }

  lemma BookingsOnly(db: Db, s: Step)
    requires s.AssignStep? || s.MoveStep? || s.CheckInStep? || s.ClaimStep? || s.CheckOutStep?
    ensures var after := Perform(db, s).db;
            after.rows == db.rows && after.blocks == db.blocks && after.nextBlock == db.nextBlock && db.bookings.Keys <= after.bookings.Keys
  {
  }

  lemma StepKeepsCalendar(db: Db, s: Step)
    requires CalendarSound(db)
    ensures CalendarSound(Perform(db, s).db)
  {
    match s
    case CreateStep(i) => CreateKeepsCalendar(db, i);
    case CancelStep(r) => CancelKeepsCalendar(db, r);
    case UpsertStep(p, entries) => UpsertAllKeepsReserved(db.rows, p, entries);
    case AssignStep(_, _) => BookingsOnly(db, s);
    case MoveStep(_, _, _) => BookingsOnly(db, s);
    case CheckInStep(_, _) => BookingsOnly(db, s);
    case ClaimStep(_, _, _) => BookingsOnly(db, s);
    case CheckOutStep(_, _, _) => BookingsOnly(db, s);
    case BlockStep(p, room, first, last, reason, booking) => BlockKeepsCalendar(db, p, room, first, last, reason, booking);
    case UnblockStep(_) =>
  }

  lemma BlockKeepsCalendar(db: Db, p: Id, room: Option<Id>, first: int, last: int, reason: BlockReason, booking: Option<Id>)
    requires CalendarSound(db)
    ensures CalendarSound(BlockDates(db, p, room, first, last, reason, booking).db)
  {
    forall k | k in db.blocks && booking.Some? && db.blocks[k].booking == booking
      ensures Linked(db.blocks, booking.value)
    {
    }
  }

  lemma CreateKeepsCalendar(db: Db, i: CreateInput)
    requires CalendarSound(db)
    ensures CalendarSound(Create(db, i).db)
  {
    CommitKeepsWellFormed(db.rows, i.property, i.roomType, FirstDay(i), LastDay(i), 1);
  }

  lemma CancelKeepsCalendar(db: Db, r: Id)
    requires CalendarSound(db)
    ensures CalendarSound(Cancel(db, r).db)
  {
  }

  lemma {:induction false} RunKeepsCalendar(db: Db, steps: seq<Step>)
    requires CalendarSound(db) || Fresh(db)
    ensures CalendarSound(Run(db, steps))
  {
    if |steps| > 0 {
      RunKeepsCalendar(db, steps[..|steps| - 1]);
      StepKeepsCalendar(Run(db, steps[..|steps| - 1]), steps[|steps| - 1]);
    }
  }

  // ---------------------------------------------------------------- create, then cancel

  /** Two days that read the same apart from the currency. */
  ghost predicate SameOffer(a: DayView, b: DayView) {
    a == b.(currency := a.currency)
  }

  /** The same answer to a query, apart from currencies. */
  ghost predicate SameView(a: Result<map<Id, seq<DayView>>, Error>, b: Result<map<Id, seq<DayView>>, Error>) {
    if a.Err? || b.Err? then a == b
    else
      && a.value.Keys == b.value.Keys
      && forall t :: t in a.value ==>
           |a.value[t]| == |b.value[t]| && forall k :: 0 <= k < |a.value[t]| ==> SameOffer(a.value[t][k], b.value[t][k])
  }

  /** In any state with a sound calendar, so in every reachable one, making a booking and
      cancelling it leaves every answer the website can give as it was, though calendar rows it
      created stay behind. */
  lemma CreateThenCancelRestoresView(db: Db, i: CreateInput, p: Id, from: int, to: int)
    requires CalendarSound(db) && Create(db, i).Done?
    ensures var undone := Cancel(Create(db, i).db, i.reference);
            undone.Done? && SameView(PublicAvailability(undone.db, p, from, to), PublicAvailability(db, p, from, to))
  {
    CancelAfterCreate(db, i);
    if from <= to {
      forall t, d | t in db.roomTypes
        ensures SameOffer(DayAt(Undone(db, i), p, t, d), DayAt(db, p, t, d))
      {
        UndoneDay(db, i, p, t, d);
      }
      SameDaysSameView(Undone(db, i), db, p, from, to);
    }
  }

  lemma CancelAfterCreate(db: Db, i: CreateInput)
    requires Create(db, i).Done?
    ensures Cancel(Create(db, i).db, i.reference).Done?
    ensures Undone(db, i).roomTypes == db.roomTypes && Undone(db, i).rooms == db.rooms
  {
  }

  lemma UndoneDay(db: Db, i: CreateInput, p: Id, t: Id, d: int)
    requires CalendarSound(db) && Create(db, i).Done? && t in db.roomTypes && Undone(db, i).roomTypes == db.roomTypes
    ensures SameOffer(DayAt(Undone(db, i), p, t, d), DayAt(db, p, t, d))
  {
    UndoneEntry(db, i, p, t, d);
    UndoneBlocks(db, i, p, t, d);
  }

  /** The booking asks for the room type on the night. */
  predicate Booked(i: CreateInput, p: Id, t: Id, d: int) {
    p == i.property && t == i.roomType && FirstDay(i) <= d < LastDay(i)
  }

  /** The one thing that may not come back is a currency: the rows a booking creates are in the
      schema's "USD", whatever its room type is sold in. A day keeps its currency exactly when it
      was not booked, had a row already, or is of a room type sold in "USD". */
  lemma CreateThenCancelKeepsCurrencyIff(db: Db, i: CreateInput, p: Id, t: Id, d: int)
    requires CalendarSound(db) && Create(db, i).Done? && t in db.roomTypes
    ensures Undone(db, i).roomTypes == db.roomTypes
    ensures DayAt(Undone(db, i), p, t, d).currency == DayAt(db, p, t, d).currency <==>
            !Booked(i, p, t, d) || EntryAt(db.rows, p, t, d).Some? || db.roomTypes[t].currency == "USD"
  {
    CancelAfterCreate(db, i);
    UndoneEntry(db, i, p, t, d);
  }

  function Undone(db: Db, i: CreateInput): Db {
    Cancel(Create(db, i).db, i.reference).db
  }

  lemma SameDaysSameView(a: Db, b: Db, p: Id, from: int, to: int)
    requires from <= to && a.roomTypes == b.roomTypes
    requires forall t, d :: t in a.roomTypes ==> SameOffer(DayAt(a, p, t, d), DayAt(b, p, t, d))
    ensures SameView(PublicAvailability(a, p, from, to), PublicAvailability(b, p, from, to))
  {
    ViewIsPointwise(a, p, from, to);
    ViewIsPointwise(b, p, from, to);
    var (va, vb) := (PublicAvailability(a, p, from, to).value, PublicAvailability(b, p, from, to).value);
    forall t, k | t in va && 0 <= k < |va[t]|
      ensures SameOffer(va[t][k], vb[t][k])
    {
      assert SameOffer(DayAt(a, p, t, Days.DayOf(from) + k), DayAt(b, p, t, Days.DayOf(from) + k));
    }
  }

  lemma UndoneEntry(db: Db, i: CreateInput, p: Id, t: Id, d: int)
    requires WellFormed(db.rows) && Create(db, i).Done?
    ensures var (before, after) := (EntryAt(db.rows, p, t, d), EntryAt(Undone(db, i).rows, p, t, d));
            after == if before.None? && Booked(i, p, t, d) then Some(NewRow(GuestSelector(p, t), d, 0)) else before
  {
    var q := GuestSelector(i.property, i.roomType);
    assert CancelSelector(NewBooking(db, i)) == q;
    assert Undone(db, i).rows == Release(Commit(db.rows, db.rows, q, FirstDay(i), LastDay(i), 1), q, FirstDay(i), LastDay(i), 1);
    ReleaseUndoesReserve(db.rows, i.property, i.roomType, FirstDay(i), LastDay(i), p, t, d);
  }

  lemma ReleaseUndoesReserve(rows: seq<Row>, property: Id, roomType: Id, ci: int, co: int, p: Id, t: Id, d: int)
    requires WellFormed(rows)
    ensures var q := GuestSelector(property, roomType);
            var (before, after) := (EntryAt(rows, p, t, d), EntryAt(Release(Commit(rows, rows, q, ci, co, 1), q, ci, co, 1), p, t, d));
            after == if before.None? && p == property && t == roomType && ci <= d < co then Some(NewRow(q, d, 0)) else before
  {
    var q := GuestSelector(property, roomType);
    CommitEntry(rows, property, roomType, ci, co, 1, p, t, d);
    CommitKeepsWellFormed(rows, property, roomType, ci, co, 1);
    ReleaseEntry(Commit(rows, rows, q, ci, co, 1), q, ci, co, 1, p, t, d);
  }

  lemma UndoneBlocks(db: Db, i: CreateInput, p: Id, t: Id, d: int)
    requires CalendarSound(db) && Create(db, i).Done?
    ensures Undone(db, i).blocks == db.blocks
    ensures Blocked(Undone(db, i), p, t, d) <==> Blocked(db, p, t, d)
  {
    assert Undone(db, i).blocks == db.blocks;
    SameBlocksSameDays(Undone(db, i), db, p, t, d);
  }

  // ---------------------------------------------------------------- how cautious the view is

  /** A booking carries no room, so its block covers the whole property: from check-in through
      the check-out day itself every room type of the property reads as blocked and sold out,
      whatever its inventory. */
  lemma BookingHidesProperty(db: Db, i: CreateInput, t: Id, d: int)
    requires Create(db, i).Done? && t in db.roomTypes
    requires FirstDay(i) <= d <= LastDay(i)
    ensures var after := DayAt(Create(db, i).db, i.property, t, d);
            after.blocked && after.available == 0
  {
    assert PropertyBlock(Create(db, i).db, db.nextBlock, i.property, d);
  }

  ghost predicate RoomBlockedOn(db: Db, p: Id, r: Id, d: int) {
    exists k :: RoomBlock(db, k, p, r, d)
  }

  /** What one block changes: on its days, first to last, a block on the property hides every
      room type there, and a block on a room hides its type exactly when it was the last room
      free; other properties and a block that is refused are not affected. */
  lemma BlockHidesIff(db: Db, owner: Id, room: Option<Id>, first: int, last: int, reason: BlockReason, booking: Option<Id>,
                      p: Id, t: Id, d: int)
    requires CalendarSound(db)
    ensures var reply := BlockDates(db, owner, room, first, last, reason, booking);
            Blocked(reply.db, p, t, d) <==>
            || Blocked(db, p, t, d)
            || (reply.Done? && p == owner && first <= d <= last && (room.None? || LastFree(db, p, room.value, t, d)))
  {
    if BlockDates(db, owner, room, first, last, reason, booking).Done? {
      var after := BlockDates(db, owner, room, first, last, reason, booking).db;
      NewBlockHides(db, after, Block(owner, room, first, last, reason, booking), p, t, d);
    }
  }

  /** The room is of the type, and every other room of it is blocked that day. */
  ghost predicate LastFree(db: Db, p: Id, room: Id, t: Id, d: int) {
    room in RoomsOf(db, t) && forall r :: r in RoomsOf(db, t) && r != room ==> RoomBlockedOn(db, p, r, d)
  }

  lemma NewBlockHides(db: Db, after: Db, b: Block, p: Id, t: Id, d: int)
    requires CalendarSound(db) && after.rooms == db.rooms && after.blocks == db.blocks[db.nextBlock := b]
    ensures Blocked(after, p, t, d) <==>
            || Blocked(db, p, t, d)
            || (p == b.property && InBlock(b, d) && (b.room.None? || LastFree(db, p, b.room.value, t, d)))
  {
    assert RoomsOf(after, t) == RoomsOf(db, t);
    forall k
      ensures PropertyBlock(after, k, p, d) <==>
              PropertyBlock(db, k, p, d) || (k == db.nextBlock && b.property == p && b.room.None? && InBlock(b, d))
    {
    }
    if b.property == p && b.room.None? && InBlock(b, d) {
      assert PropertyBlock(after, db.nextBlock, p, d);
    }
    forall r
      ensures RoomBlockedOn(after, p, r, d) <==>
              RoomBlockedOn(db, p, r, d) || (b.property == p && b.room == Some(r) && InBlock(b, d))
    {
      NewRoomBlock(db, after, b, p, r, d);
    }
    BlockedByRooms(db, p, t, d);
    BlockedByRooms(after, p, t, d);
  }

  lemma NewRoomBlock(db: Db, after: Db, b: Block, p: Id, r: Id, d: int)
    requires CalendarSound(db) && after.blocks == db.blocks[db.nextBlock := b]
    ensures RoomBlockedOn(after, p, r, d) <==>
            RoomBlockedOn(db, p, r, d) || (b.property == p && b.room == Some(r) && InBlock(b, d))
  {
    forall k
      ensures RoomBlock(after, k, p, r, d) <==>
              RoomBlock(db, k, p, r, d) || (k == db.nextBlock && b.property == p && b.room == Some(r) && InBlock(b, d))
    {
    }
    if b.property == p && b.room == Some(r) && InBlock(b, d) {
      assert RoomBlock(after, db.nextBlock, p, r, d);
    }
  }

  lemma BlockedByRooms(db: Db, p: Id, t: Id, d: int)
    ensures Blocked(db, p, t, d) <==>
            || (exists k :: PropertyBlock(db, k, p, d))
            || (RoomsOf(db, t) != {} && forall r :: r in RoomsOf(db, t) ==> RoomBlockedOn(db, p, r, d))
  {
  }

  /** Exactly what a booking hides: the days from check-in through check-out of every room type
      of its own property, and no other day of any. */
  lemma BookingHidesIff(db: Db, i: CreateInput, p: Id, t: Id, d: int)
    requires CalendarSound(db) && Create(db, i).Done?
    ensures Blocked(Create(db, i).db, p, t, d) <==>
            Blocked(db, p, t, d) || (p == i.property && FirstDay(i) <= d <= LastDay(i))
  {
    NewBlockHides(db, Create(db, i).db, BookingBlock(i), p, t, d);
  }

  /** Lifting a block puts the tables back as they were, but for the block numbers used. */
  lemma UnblockUndoesBlock(db: Db, p: Id, room: Option<Id>, first: int, last: int, reason: BlockReason, booking: Option<Id>)
    requires CalendarSound(db) && BlockDates(db, p, room, first, last, reason, booking).Done?
    ensures var undone := UnblockDates(BlockDates(db, p, room, first, last, reason, booking).db, db.nextBlock);
            undone.Done? && undone.db == db.(nextBlock := db.nextBlock + 1)
  {
    assert UnblockDates(BlockDates(db, p, room, first, last, reason, booking).db, db.nextBlock).db.blocks == db.blocks;
  }

  /** Once a booking has been pinned to a room, cancelling it gives the nights back to nobody:
      the calendar keeps them reserved. */
  lemma PinnedCancelLeaks(db: Db, r: Id, p: Id, t: Id, d: int)
    requires CalendarSound(db) && r in db.bookings && db.bookings[r].room.Some?
    ensures ReservedAt(Cancel(db, r).db.rows, p, t, d) == ReservedAt(db.rows, p, t, d)
  {
    if db.bookings[r].status != Cancelled {
      var b := db.bookings[r];
      ReleaseEntry(db.rows, CancelSelector(b), b.checkIn, b.checkOut, 1, p, t, d);
    }
  }
}
