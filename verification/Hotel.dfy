/** BookingsService and AvailabilityService over their tables, in the order the code works,
    each call proved to be the corresponding step of the engine. */
module Hotel {
  import opened Wrappers
  import opened HotelModel
  import opened Ledger
  import opened Engine
  import Days
  import Numbers

  /** A call did what the engine's step says: same tables, same refusal. */
  ghost predicate Answers(reply: Reply, tables: Db, failure: Option<Error>) {
    && tables == reply.db
    && failure == match reply
                  case Done(_) => None
                  case Refused(_, e) => Some(e)
  }

  /** One more night of a reservation: the row found for it is incremented in place, or a new
      row is appended. */
  lemma CommitOneMore(rows: seq<Row>, q: Selector, checkIn: int, day: int, units: int)
    requires checkIn <= day
    ensures var done := Commit(rows, rows, q, checkIn, day, units);
            var next := Commit(rows, rows, q, checkIn, day + 1, units);
            && |done| >= |rows|
            && match FirstOn(rows, q, day)
               case Some(i) => next == done[i := done[i].(reserved := done[i].reserved + units)] && done[i] == rows[i]
               case None => next == done + [NewRow(q, day, units)]
  {
    var before := Incremented(rows, rows, q, checkIn, day, units);
    var after := Incremented(rows, rows, q, checkIn, day + 1, units);
    forall j | 0 <= j < |rows|
      ensures after[j] == if FirstOn(rows, q, day) == Some(j) then before[j].(reserved := before[j].reserved + units) else before[j]
      ensures FirstOn(rows, q, day) == Some(j) ==> before[j] == rows[j]
    {
      if rows[j].day == day {
        assert !Picks(rows, q, checkIn, day, j);
      } else {
        assert Picks(rows, q, checkIn, day + 1, j) <==> Picks(rows, q, checkIn, day, j);
      }
    }
  }

  lemma EmptyCommit(rows: seq<Row>, q: Selector, checkIn: int, checkOut: int, units: int)
    requires checkOut <= checkIn
    ensures Commit(rows, rows, q, checkIn, checkOut, units) == rows
  {
  }

  /** While a sheet has made no error, a key has a row exactly when it had one before the sheet
      or an entry made one; so its next entry fails only where there was none to begin with. */
  lemma SheetSoFar(db: Db, property: Id, entries: seq<CalendarEntry>, e: CalendarEntry)
    requires SheetError(db, property, entries) == None
    ensures EntryAt(UpsertAll(db.rows, property, entries), property, e.roomType, e.day).Some? ==> EntryError(db, property, e) == None
    ensures EntryAt(UpsertAll(db.rows, property, entries), property, e.roomType, e.day).None? ==>
              EntryAt(db.rows, property, e.roomType, e.day).None?
  {
    if |entries| > 0 {
      var front, last := entries[..|entries| - 1], entries[|entries| - 1];
      SheetSoFar(db, property, front, e);
      UpsertHasEntry(UpsertAll(db.rows, property, front), property, last, e.roomType, e.day);
      assert last in entries;
    }
  }

  class Tables {
    const properties: set<Id>
    const roomTypes: map<Id, RoomType>
    const rooms: map<Id, Room>
    var rows: seq<Row>
    var blocks: map<nat, Block>
    var nextBlock: nat
    var bookings: map<Id, Booking>

    function Value(): Db
      reads this
    {
      Db(properties, roomTypes, rooms, rows, blocks, nextBlock, bookings)
    }

    constructor (properties: set<Id>, roomTypes: map<Id, RoomType>, rooms: map<Id, Room>)
      ensures Value() == Db(properties, roomTypes, rooms, [], map[], 0, map[])
    {
      this.properties, this.roomTypes, this.rooms := properties, roomTypes, rooms;
      rows, blocks, nextBlock, bookings := [], map[], 0, map[];
    }

    /** Checks every night against the rows as they are read, then writes every night. */
    method TryReserve(q: Selector, checkIn: int, checkOut: int, units: int) returns (failure: Option<Error>)
      modifies `rows
      ensures match Reserve(old(rows), q, Days.DayOf(checkIn), Days.DayOf(checkOut), units)
              case Ok(reserved) => failure == None && rows == reserved
              case Err(e) => failure == Some(e) && rows == old(rows)
    {
      var days := Days.EnumerateDays(checkIn, checkOut);
      var entries := rows;
      var full := FindFull(entries, q, days, units, Days.DayOf(checkIn), Days.DayOf(checkOut));
      if full.Some? {
        return Some(NoAvailability(full.value));
      }
      WriteNights(q, days, units, Days.DayOf(checkIn), Days.DayOf(checkOut));
      return None;
    }

    /** The checking loop of tryReserve. */
    method FindFull(entries: seq<Row>, q: Selector, days: seq<int>, units: int, ghost first: int, ghost last: int)
      returns (full: Option<int>)
      requires |days| == Numbers.Max(0, last - first)
      requires forall n :: 0 <= n < |days| ==> Days.DayOf(days[n]) == first + n
      ensures full == FirstFull(entries, q, first, last, units)
    {
      for n := 0 to |days|
        invariant forall d :: first <= d < first + n ==> Free(entries, q, d) >= units
      {
        var day := Days.DayOf(days[n]);
        var entry := FirstOn(entries, q, day);
        var available := if entry.Some? then entries[entry.value].inventory - entries[entry.value].reserved else 1;
        if available < units {
          assert Free(entries, q, day) < units;
          return Some(day);
        }
      }
      return None;
    }

    /** The writing loop of tryReserve. */
    method WriteNights(q: Selector, days: seq<int>, units: int, ghost first: int, ghost last: int)
      requires |days| == Numbers.Max(0, last - first)
      requires forall n :: 0 <= n < |days| ==> Days.DayOf(days[n]) == first + n
      modifies `rows
      ensures rows == Commit(old(rows), old(rows), q, first, last, units)
    {
      var entries := rows;
      assert rows == Commit(entries, entries, q, first, first, units);
      for n := 0 to |days|
        invariant rows == Commit(entries, entries, q, first, first + n, units)
      {
        CommitOneMore(entries, q, first, first + n, units);
        var day := Days.DayOf(days[n]);
        var entry := FirstOn(entries, q, day);
        if entry.Some? {
          rows := rows[entry.value := rows[entry.value].(reserved := rows[entry.value].reserved + units)];
        } else {
          rows := rows + [NewRow(q, day, units)];
        }
      }
      if last < first {
        EmptyCommit(entries, q, first, last, units);
      }
    }

    /** The pricing loop of create. */
    method PriceStay(property: Id, roomType: Id, rt: RoomType, days: seq<int>, ghost first: int, ghost last: int)
      returns (total: int, currency: string)
      requires first <= last && |days| == last - first
      requires forall n :: 0 <= n < |days| ==> Days.DayOf(days[n]) == first + n
      ensures total == StayPrice(rows, property, roomType, rt.basePrice, first, last)
      ensures currency == StayCurrency(rows, property, roomType, rt.currency, first, last)
    {
      total, currency := 0, rt.currency;
      for n := 0 to |days|
        invariant total == StayPrice(rows, property, roomType, rt.basePrice, first, first + n)
        invariant currency == StayCurrency(rows, property, roomType, rt.currency, first, first + n)
      {
        var entry := EntryAt(rows, property, roomType, Days.DayOf(days[n]));
        var nightly := if entry.Some? && entry.value.price.Some? then entry.value.price.value else rt.basePrice;
        total := total + nightly;
        if entry.Some? && entry.value.currency.Some? && entry.value.currency.value != "" {
          currency := entry.value.currency.value;
        }
      }
    }

    method Create(i: CreateInput) returns (failure: Option<Error>)
      modifies this
      ensures Answers(Engine.Create(old(Value()), i), Value(), failure)
    {
      var checkIn, checkOut := Days.UtcMidnight(i.checkIn), Days.UtcMidnight(i.checkOut);
      var nights := Days.RoundDiv(checkOut - checkIn, Days.DAY_MS);
      Days.NightsAreExact(i.checkIn, i.checkOut);
      Days.MidnightOfDay(FirstDay(i));
      Days.MidnightOfDay(LastDay(i));
      if nights <= 0 {
        return Some(BadDates);
      }
      if i.roomType !in roomTypes {
        return Some(RoomTypeNotFound);
      }
      var rt := roomTypes[i.roomType];
      if rt.property != i.property {
        return Some(WrongProperty);
      }

      var days := Days.EnumerateDays(checkIn, checkOut);
      var total, currency := PriceStay(i.property, i.roomType, rt, days, FirstDay(i), LastDay(i));
      var unavailable := TryReserve(GuestSelector(i.property, i.roomType), checkIn, checkOut, 1);
      if unavailable.Some? {
        return unavailable;
      }
      if i.reference in bookings {
        return Some(DuplicateReference);
      }
      bookings := bookings[i.reference :=
        Booking(i.property, Some(i.roomType), None, Days.DayOf(checkIn), Days.DayOf(checkOut), nights,
                total, 0, currency, Pending, i.guest, i.guestUser, None)];
      blocks := blocks[nextBlock :=
        Block(i.property, None, Days.DayOf(checkIn), Days.DayOf(checkOut), ForBooking, Some(i.reference))];
      nextBlock := nextBlock + 1;
      return None;
    }

    method Cancel(reference: Id) returns (failure: Option<Error>)
      modifies this
      ensures Answers(Engine.Cancel(old(Value()), reference), Value(), failure)
    {
      if reference !in bookings {
        return Some(BookingNotFound);
      }
      var b := bookings[reference];
      if b.status == Cancelled {
        return None;
      }
      rows := Release(rows, CancelSelector(b), b.checkIn, b.checkOut, 1);
      blocks := WithoutBookingBlocks(blocks, reference);
      bookings := bookings[reference := b.(status := Cancelled)];
      return None;
    }

    method AssignRoom(reference: Id, room: Option<Id>) returns (failure: Option<Error>)
      modifies `bookings
      ensures Answers(Engine.AssignRoom(old(Value()), reference, room), Value(), failure)
    {
      if reference !in bookings {
        return Some(BookingNotFound);
      }
      var b := bookings[reference];
      if b.status == Cancelled || b.status == CheckedOut {
        return Some(Frozen(b.status));
      }
      if room.Some? {
        if room.value !in rooms {
          return Some(RoomNotFound);
        }
        if rooms[room.value].property != b.property {
          return Some(WrongProperty);
        }
        if Some(rooms[room.value].roomType) != b.roomType {
          return Some(WrongRoomType);
        }
        if Conflicts(bookings, reference, room.value, b.checkIn, b.checkOut) {
          return Some(RoomConflict);
        }
      }
      bookings := bookings[reference := b.(room := room)];
      return None;
    }

    method MoveDates(reference: Id, checkIn: Option<int>, checkOut: Option<int>) returns (failure: Option<Error>)
      modifies `bookings
      ensures Answers(Engine.MoveDates(old(Value()), reference, checkIn, checkOut), Value(), failure)
    {
      if checkIn.None? || checkOut.None? || checkOut.value <= checkIn.value {
        return Some(BadDates);
      }
      if reference !in bookings {
        return Some(BookingNotFound);
      }
      var b := bookings[reference];
      if b.status == Cancelled || b.status == CheckedOut {
        return Some(Frozen(b.status));
      }
      if b.room.Some? && Conflicts(bookings, reference, b.room.value, checkIn.value, checkOut.value) {
        return Some(RoomConflict);
      }
      var nights := Numbers.Max(1, checkOut.value - checkIn.value);
      bookings := bookings[reference := b.(checkIn := checkIn.value, checkOut := checkOut.value, nights := nights)];
      return None;
    }

    method CheckInSubmit(reference: Id, form: CheckInForm) returns (failure: Option<Error>)
      modifies `bookings
      ensures Answers(Engine.CheckInSubmit(old(Value()), reference, form), Value(), failure)
    {
      if !form.terms || !form.privacy || !form.accurate {
        return Some(FormIncomplete);
      }
      if form.selfVerify && (!form.consent || !form.documents) {
        return Some(FormIncomplete);
      }
      if reference !in bookings {
        return Some(BookingNotFound);
      }
      var b := bookings[reference];
      if b.status != Pending && b.status != Confirmed {
        return Some(NotCheckInAble(b.status));
      }
      var contact := ContactAfter(b.guest, form);
      var guestUser := b.guestUser;
      if guestUser.None? && contact.email.Some? && contact.email.value != "" {
        guestUser := Some(form.account);
      }
      bookings := bookings[reference := b.(guest := contact, guestUser := guestUser, status := CheckedIn)];
      return None;
    }

    method ClaimByReference(reference: Id, user: Id, emailMatches: bool) returns (failure: Option<Error>)
      modifies `bookings
      ensures Answers(Engine.Claim(old(Value()), reference, user, emailMatches), Value(), failure)
    {
      if reference !in bookings {
        return Some(BookingNotFound);
      }
      var b := bookings[reference];
      if b.guestUser.Some? && b.guestUser.value != user && !emailMatches {
        return Some(AlreadyLinked);
      }
      if b.guestUser != Some(user) {
        bookings := bookings[reference := b.(guestUser := Some(user))];
      }
      return None;
    }

    method CheckOutSubmit(caller: Caller, reference: Id, form: CheckOutForm) returns (failure: Option<Error>)
      modifies `bookings
      ensures Answers(Engine.CheckOutSubmit(old(Value()), caller, reference, form), Value(), failure)
    {
      if !form.confirmed || (form.remote && !form.keyPhoto) || (!form.remote && !form.staffQr) {
        return Some(FormIncomplete);
      }
      if reference !in bookings {
        return Some(BookingNotFound);
      }
      var b := bookings[reference];
      if b.status != CheckedIn {
        return Some(NotCheckedIn);
      }
      if !MayCheckOut(caller, reference, b) {
        return Some(Unauthorized);
      }
      var outstanding := Numbers.Max(0, b.total - b.paid);
      if outstanding > 0 && !form.payment {
        return Some(PaymentRequired);
      }
      bookings := bookings[reference := b.(status := CheckedOut)];
      return None;
    }

    /** The rows are written as one transaction; a row that cannot be made rolls it back. */
    method BulkUpsertCalendar(property: Id, entries: seq<CalendarEntry>) returns (failure: Option<Error>)
      modifies `rows
      ensures Answers(Engine.BulkUpsert(old(Value()), property, entries), Value(), failure)
    {
      var tx := rows;
      for n := 0 to |entries|
        invariant rows == old(rows) && tx == UpsertAll(rows, property, entries[..n])
        invariant SheetError(Value(), property, entries[..n]) == None
      {
        var e := entries[n];
        var existing := FirstOn(tx, TypeLevel(property, e.roomType), e.day);
        assert entries[..n + 1][..n] == entries[..n];
        SheetSoFar(Value(), property, entries[..n], e);
        if existing.Some? {
          tx := tx[existing.value := Overlaid(e, tx[existing.value])];
        } else {
          if property !in properties {
            SheetFails(Value(), property, entries, n);
            return Some(PropertyNotFound);
          }
          if e.roomType !in roomTypes {
            SheetFails(Value(), property, entries, n);
            return Some(RoomTypeNotFound);
          }
          tx := tx + [Inserted(property, e)];
        }
      }
      assert entries[..|entries|] == entries;
      rows := tx;
      return None;
    }

    method BlockDates(property: Id, room: Option<Id>, startDay: int, endDay: int, reason: BlockReason, booking: Option<Id>)
      returns (failure: Option<Error>)
      modifies `blocks, `nextBlock
      ensures Answers(Engine.BlockDates(old(Value()), property, room, startDay, endDay, reason, booking), Value(), failure)
    {
      if property !in properties {
        return Some(PropertyNotFound);
      }
      if room.Some? && room.value !in rooms {
        return Some(RoomNotFound);
      }
      if booking.Some? {
        if booking.value !in bookings {
          return Some(BookingNotFound);
        }
        if Linked(blocks, booking.value) {
          return Some(BlockLinked);
        }
      }
      blocks := blocks[nextBlock := Block(property, room, startDay, endDay, reason, booking)];
      nextBlock := nextBlock + 1;
      return None;
    }

    method UnblockDates(block: nat) returns (failure: Option<Error>)
      modifies `blocks
      ensures Answers(Engine.UnblockDates(old(Value()), block), Value(), failure)
    {
      if block !in blocks {
        return Some(BlockNotFound);
      }
      blocks := blocks - {block};
      return None;
    }
  }
}
