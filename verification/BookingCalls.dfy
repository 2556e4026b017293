/** What each call of the booking and availability services answers and writes, said in the
    columns of the tables alone, and what guests may count on from one call to the next. */
module BookingCalls {
  import opened Wrappers
  import opened HotelModel
  import opened Ledger
  import opened Engine
  import Days

  /** The call was turned down with the error and wrote nothing. */
  predicate TurnedDown(reply: Reply, db: Db, error: Error) {
    reply == Refused(db, error)
  }

  /** The call was accepted and wrote nothing but the booking. */
  predicate WroteBooking(reply: Reply, db: Db, r: Id) {
    && reply.Done? && r in reply.db.bookings
    && reply.db == db.(bookings := reply.db.bookings)
    && reply.db.bookings.Keys == db.bookings.Keys + {r}
    && forall x :: x in db.bookings && x != r ==> reply.db.bookings[x] == db.bookings[x]
  }

  // ---------------------------------------------------------------- create

  /** Units left on a night as a guest may book them; a night without a row has one. */
  function Left(rows: seq<Row>, p: Id, t: Id, d: int): int {
    match EntryAt(rows, p, t, d)
    case Some(r) => r.inventory - r.reserved
    case None => 1
  }

  ghost predicate SoldOutFrom(rows: seq<Row>, p: Id, t: Id, checkIn: int, checkOut: int, d: int) {
    && checkIn <= d < checkOut && Left(rows, p, t, d) < 1
    && forall e :: checkIn <= e < d ==> Left(rows, p, t, e) >= 1
  }

  /** Whom create turns down, and in which order it looks. */
  lemma CreateTurnsDown(db: Db, i: CreateInput)
    requires WellFormed(db.rows)
    ensures var (reply, ci, co) := (Create(db, i), Days.DayOf(i.checkIn), Days.DayOf(i.checkOut));
            if co <= ci then TurnedDown(reply, db, BadDates)
            else if i.roomType !in db.roomTypes then TurnedDown(reply, db, RoomTypeNotFound)
            else if db.roomTypes[i.roomType].property != i.property then TurnedDown(reply, db, WrongProperty)
            else
              && (forall d :: SoldOutFrom(db.rows, i.property, i.roomType, ci, co, d) ==> TurnedDown(reply, db, NoAvailability(d)))
              && ((forall d :: ci <= d < co ==> Left(db.rows, i.property, i.roomType, d) >= 1) ==>
                    if i.reference in db.bookings then reply.Refused? && reply.error == DuplicateReference else reply.Done?)
  {
    if FirstDay(i) < LastDay(i) && i.roomType in db.roomTypes && db.roomTypes[i.roomType].property == i.property {
      CreateLooksForRoom(db, i);
    }
  }

  lemma CreateLooksForRoom(db: Db, i: CreateInput)
    requires WellFormed(db.rows) && FirstDay(i) < LastDay(i)
    requires i.roomType in db.roomTypes && db.roomTypes[i.roomType].property == i.property
    ensures var (reply, ci, co) := (Create(db, i), FirstDay(i), LastDay(i));
            && (forall d :: SoldOutFrom(db.rows, i.property, i.roomType, ci, co, d) ==> reply == Refused(db, NoAvailability(d)))
            && ((forall d :: ci <= d < co ==> Left(db.rows, i.property, i.roomType, d) >= 1) ==>
                  if i.reference in db.bookings then reply.Refused? && reply.error == DuplicateReference else reply.Done?)
  {
    var q := GuestSelector(i.property, i.roomType);
    var full := FirstFull(db.rows, q, FirstDay(i), LastDay(i), 1);
    forall d
      ensures Left(db.rows, i.property, i.roomType, d) == Free(db.rows, q, d)
    {
      GuestSeesTypeRow(db.rows, i.property, i.roomType, d);
    }
    assert full.Some? ==> Left(db.rows, i.property, i.roomType, full.value) < 1;
    forall d | SoldOutFrom(db.rows, i.property, i.roomType, FirstDay(i), LastDay(i), d)
      ensures full == Some(d)
    {
      assert Left(db.rows, i.property, i.roomType, d) == Free(db.rows, q, d);
    }
  }

  /** What an accepted create stores: a pending booking of the nights asked for, in no room, on
      which nothing is paid, for the guest and the account of the form. */
  lemma CreateStores(db: Db, i: CreateInput)
    requires Create(db, i).Done?
    ensures var after := Create(db, i).db;
            && i.reference !in db.bookings && i.reference in after.bookings
            && after.bookings == db.bookings[i.reference := after.bookings[i.reference]]
            && var b := after.bookings[i.reference];
               && b.property == i.property && b.roomType == Some(i.roomType) && b.room == None
               && b.checkIn == Days.DayOf(i.checkIn) && b.checkOut == Days.DayOf(i.checkOut)
               && b.nights == b.checkOut - b.checkIn && b.nights > 0
               && b.status == Pending && b.paid == 0
               && b.guest == i.guest && b.guestUser == i.guestUser && b.externalId == None
  {
  }

  /** The one block it adds: on the whole property, through the check-out day, for the booking. */
  lemma CreateBlocks(db: Db, i: CreateInput)
    requires Create(db, i).Done?
    ensures var after := Create(db, i).db;
            && after.blocks == db.blocks[db.nextBlock :=
                 Block(i.property, None, Days.DayOf(i.checkIn), Days.DayOf(i.checkOut), ForBooking, Some(i.reference))]
            && after.nextBlock == db.nextBlock + 1
            && after.properties == db.properties && after.roomTypes == db.roomTypes && after.rooms == db.rooms
  {
  }

  /** What the calendar holds on a night after create, whether or not the reference was free: one
      more unit reserved on each night of the stay, and for a night without a row a row of one
      unit, reserved, in "USD", open and without a price or stay limits. */
  lemma CreateReserves(db: Db, i: CreateInput, p: Id, t: Id, d: int)
    requires WellFormed(db.rows)
    requires Create(db, i).Done? || Create(db, i).error == DuplicateReference
    ensures var (before, after) := (EntryAt(db.rows, p, t, d), EntryAt(Create(db, i).db.rows, p, t, d));
            if p == i.property && t == i.roomType && Days.DayOf(i.checkIn) <= d < Days.DayOf(i.checkOut) then
              if before.Some? then after == Some(before.value.(reserved := before.value.reserved + 1))
              else after == Some(Row(p, Some(t), None, d, 1, 1, None, Some("USD"), false, None, None))
            else after == before
  {
    CommitEntry(db.rows, i.property, i.roomType, FirstDay(i), LastDay(i), 1, p, t, d);
  }

  /** The currency charged is the one named by the latest night of the stay that names one, and
      the room type's own when none does. */
  lemma CreateCharges(db: Db, i: CreateInput)
    requires Create(db, i).Done?
    ensures var b := Create(db, i).db.bookings[i.reference];
            && (forall d :: LatestNamed(db.rows, i.property, i.roomType, b.checkIn, b.checkOut, d) ==>
                  b.currency == EntryAt(db.rows, i.property, i.roomType, d).value.currency.value)
            && ((forall d :: b.checkIn <= d < b.checkOut ==> !NamesCurrency(db.rows, i.property, i.roomType, d)) ==>
                  b.currency == db.roomTypes[i.roomType].currency)
  {
    var (ci, co) := (FirstDay(i), LastDay(i));
    var own := db.roomTypes[i.roomType].currency;
    forall d | LatestNamed(db.rows, i.property, i.roomType, ci, co, d)
      ensures StayCurrency(db.rows, i.property, i.roomType, own, ci, co) == EntryAt(db.rows, i.property, i.roomType, d).value.currency.value
    {
      LatestDecides(db.rows, i.property, i.roomType, own, ci, co, d);
    }
    if forall d :: ci <= d < co ==> !NamesCurrency(db.rows, i.property, i.roomType, d) {
      NobodyDecides(db.rows, i.property, i.roomType, own, ci, co);
    }
  }

  predicate NamesCurrency(rows: seq<Row>, p: Id, t: Id, d: int) {
    var entry := EntryAt(rows, p, t, d);
    entry.Some? && entry.value.currency.Some? && entry.value.currency.value != ""
  }

  ghost predicate LatestNamed(rows: seq<Row>, p: Id, t: Id, checkIn: int, checkOut: int, d: int) {
    && checkIn <= d < checkOut && NamesCurrency(rows, p, t, d)
    && forall e :: d < e < checkOut ==> !NamesCurrency(rows, p, t, e)
  }

  lemma {:induction false} LatestDecides(rows: seq<Row>, p: Id, t: Id, own: string, checkIn: int, checkOut: int, d: int)
    requires LatestNamed(rows, p, t, checkIn, checkOut, d)
    ensures StayCurrency(rows, p, t, own, checkIn, checkOut) == EntryAt(rows, p, t, d).value.currency.value
    decreases checkOut - checkIn
  {
    if d < checkOut - 1 {
      assert !NamesCurrency(rows, p, t, checkOut - 1);
      LatestDecides(rows, p, t, own, checkIn, checkOut - 1, d);
    }
  }

  lemma {:induction false} NobodyDecides(rows: seq<Row>, p: Id, t: Id, own: string, checkIn: int, checkOut: int)
    requires forall d :: checkIn <= d < checkOut ==> !NamesCurrency(rows, p, t, d)
    ensures StayCurrency(rows, p, t, own, checkIn, checkOut) == own
    decreases checkOut - checkIn
  {
    if checkIn < checkOut {
      assert !NamesCurrency(rows, p, t, checkOut - 1);
      NobodyDecides(rows, p, t, own, checkIn, checkOut - 1);
    }
  }

  // ---------------------------------------------------------------- cancel

  /** What cancel does to one calendar row: a row of the booking's property, of its room type if
      it has one and of its room if it has one, loses a unit on the nights of the stay. */
  predicate GivesBack(b: Booking, row: Row) {
    && row.property == b.property && b.checkIn <= row.day < b.checkOut
    && (b.roomType.Some? ==> row.roomType == b.roomType)
    && (b.room.Some? ==> row.room == b.room)
  }

  lemma CancelCall(db: Db, r: Id)
    ensures var reply := Cancel(db, r);
            if r !in db.bookings then TurnedDown(reply, db, BookingNotFound)
            else if db.bookings[r].status == Cancelled then reply == Done(db)
            else
              var b := db.bookings[r];
              && reply.Done? && reply.db.bookings == db.bookings[r := b.(status := Cancelled)]
              && reply.db == db.(rows := reply.db.rows, blocks := reply.db.blocks, bookings := reply.db.bookings)
              && (forall k :: k in reply.db.blocks <==>
                    k in db.blocks && (db.blocks[k].booking == Some(r) ==> db.blocks[k].reason != ForBooking))
              && (forall k :: k in reply.db.blocks ==> reply.db.blocks[k] == db.blocks[k])
              && |reply.db.rows| == |db.rows|
              && forall i :: 0 <= i < |db.rows| ==>
                   reply.db.rows[i] == db.rows[i].(reserved := db.rows[i].reserved - if GivesBack(b, db.rows[i]) then 1 else 0)
  {
  }

  // ---------------------------------------------------------------- rooms and dates

  /** Another booking that still stands has the room on a night between the dates, by its dates. */
  ghost predicate Occupied(bookings: map<Id, Booking>, r: Id, room: Id, checkIn: int, checkOut: int) {
    exists s :: s in bookings && s != r && OccupiedBy(bookings[s], room, checkIn, checkOut)
  }

  predicate OccupiedBy(b: Booking, room: Id, checkIn: int, checkOut: int) {
    && b.room == Some(room) && b.status != Cancelled && b.status != NoShow
    && b.checkIn < checkOut && b.checkOut > checkIn
  }

  lemma OccupiedIsConflict(bookings: map<Id, Booking>, r: Id, room: Id, checkIn: int, checkOut: int)
    ensures Occupied(bookings, r, room, checkIn, checkOut) <==> Conflicts(bookings, r, room, checkIn, checkOut)
  {
    if s :| s in bookings && s != r && OccupiedBy(bookings[s], room, checkIn, checkOut) {
      assert ClashesWith(bookings[s], room, checkIn, checkOut);
    }
    if s :| s in bookings && s != r && ClashesWith(bookings[s], room, checkIn, checkOut) {
      assert OccupiedBy(bookings[s], room, checkIn, checkOut);
    }
  }

  /** assignRoom: giving a room asks for one that exists, fits and is free; taking the room away
      asks nothing but an open booking. */
  lemma AssignRoomCall(db: Db, r: Id, room: Option<Id>)
    ensures var reply := AssignRoom(db, r, room);
            if r !in db.bookings then TurnedDown(reply, db, BookingNotFound)
            else
              var b := db.bookings[r];
              if b.status == Cancelled || b.status == CheckedOut then TurnedDown(reply, db, Frozen(b.status))
              else if room.Some? && room.value !in db.rooms then TurnedDown(reply, db, RoomNotFound)
              else if room.Some? && db.rooms[room.value].property != b.property then TurnedDown(reply, db, WrongProperty)
              else if room.Some? && b.roomType != Some(db.rooms[room.value].roomType) then TurnedDown(reply, db, WrongRoomType)
              else if room.Some? && Occupied(db.bookings, r, room.value, b.checkIn, b.checkOut) then TurnedDown(reply, db, RoomConflict)
              else WroteBooking(reply, db, r) && reply.db.bookings[r] == b.(room := room)
  {
    if r in db.bookings && room.Some? {
      OccupiedIsConflict(db.bookings, r, room.value, db.bookings[r].checkIn, db.bookings[r].checkOut);
    }
  }

  lemma MoveDatesCall(db: Db, r: Id, checkIn: Option<int>, checkOut: Option<int>)
    ensures var reply := MoveDates(db, r, checkIn, checkOut);
            if checkIn.None? || checkOut.None? || checkOut.value <= checkIn.value then TurnedDown(reply, db, BadDates)
            else if r !in db.bookings then TurnedDown(reply, db, BookingNotFound)
            else
              var (b, ci, co) := (db.bookings[r], checkIn.value, checkOut.value);
              if b.status == Cancelled || b.status == CheckedOut then TurnedDown(reply, db, Frozen(b.status))
              else if b.room.Some? && Occupied(db.bookings, r, b.room.value, ci, co) then TurnedDown(reply, db, RoomConflict)
              else WroteBooking(reply, db, r) && reply.db.bookings[r] == b.(checkIn := ci, checkOut := co, nights := co - ci)
  {
    if r in db.bookings && db.bookings[r].room.Some? && checkIn.Some? && checkOut.Some? {
      OccupiedIsConflict(db.bookings, r, db.bookings[r].room.value, checkIn.value, checkOut.value);
    }
  }

  // ---------------------------------------------------------------- check-in

  function GivenOr<T>(given: Option<T>, old': Option<T>): Option<T> {
    match given
    case Some(v) => Some(v)
    case None => old'
  }

  /** What an accepted check-in makes of a booking: checked in; each contact field the form's if
      given and the old one if not; the account it had, else the form's if there is an email. */
  ghost predicate CheckedInBy(b: Booking, now: Booking, f: CheckInForm) {
    && now.status == CheckedIn
    && now.guest.firstName == GivenOr(f.firstName, b.guest.firstName)
    && now.guest.lastName == GivenOr(f.lastName, b.guest.lastName)
    && now.guest.email == GivenOr(f.email, b.guest.email)
    && now.guest.phone == GivenOr(f.phone, b.guest.phone)
    && now.guest.adults == b.guest.adults && now.guest.children == b.guest.children
    && (b.guestUser.Some? ==> now.guestUser == b.guestUser)
    && (b.guestUser.None? ==> now.guestUser == if now.guest.email.GetOr("") != "" then Some(f.account) else None)
    && now == b.(status := now.status, guest := now.guest, guestUser := now.guestUser)
  }

  lemma CheckInCall(db: Db, r: Id, f: CheckInForm)
    ensures var reply := CheckInSubmit(db, r, f);
            if !f.terms || !f.privacy || !f.accurate || (f.selfVerify && !(f.consent && f.documents))
            then TurnedDown(reply, db, FormIncomplete)
            else if r !in db.bookings then TurnedDown(reply, db, BookingNotFound)
            else
              var b := db.bookings[r];
              if b.status == Pending || b.status == Confirmed
              then WroteBooking(reply, db, r) && CheckedInBy(b, reply.db.bookings[r], f)
              else TurnedDown(reply, db, NotCheckInAble(b.status))
  {
  }

  lemma ClaimCall(db: Db, r: Id, user: Id, emailMatches: bool)
    ensures var reply := Claim(db, r, user, emailMatches);
            if r !in db.bookings then TurnedDown(reply, db, BookingNotFound)
            else
              var b := db.bookings[r];
              if b.guestUser == None || b.guestUser == Some(user) || emailMatches
              then WroteBooking(reply, db, r) && reply.db.bookings[r] == b.(guestUser := Some(user))
              else TurnedDown(reply, db, AlreadyLinked)
  {
  }

  // ---------------------------------------------------------------- check-out

  /** The caller's token is for this booking, or for the account the booking is on. */
  predicate Entitled(caller: Caller, r: Id, b: Booking) {
    caller == BookingToken(r) || (caller.UserToken? && b.guestUser == Some(caller.user))
  }

  lemma CheckOutCall(db: Db, caller: Caller, r: Id, f: CheckOutForm)
    ensures var reply := CheckOutSubmit(db, caller, r, f);
            if !f.confirmed || (f.remote && !f.keyPhoto) || (!f.remote && !f.staffQr) then TurnedDown(reply, db, FormIncomplete)
            else if r !in db.bookings then TurnedDown(reply, db, BookingNotFound)
            else
              var b := db.bookings[r];
              if b.status != CheckedIn then TurnedDown(reply, db, NotCheckedIn)
              else if !Entitled(caller, r, b) then TurnedDown(reply, db, Unauthorized)
              else if b.paid < b.total && !f.payment then TurnedDown(reply, db, PaymentRequired)
              else WroteBooking(reply, db, r) && reply.db.bookings[r] == b.(status := CheckedOut)
  {
  }

  // ---------------------------------------------------------------- blocks

  ghost predicate HasBlock(blocks: map<nat, Block>, booking: Id) {
    exists k :: k in blocks && blocks[k].booking == Some(booking)
  }

  lemma BlockCall(db: Db, p: Id, room: Option<Id>, first: int, last: int, reason: BlockReason, booking: Option<Id>)
    ensures var reply := BlockDates(db, p, room, first, last, reason, booking);
            if p !in db.properties then TurnedDown(reply, db, PropertyNotFound)
            else if room.Some? && room.value !in db.rooms then TurnedDown(reply, db, RoomNotFound)
            else if booking.Some? && booking.value !in db.bookings then TurnedDown(reply, db, BookingNotFound)
            else if booking.Some? && HasBlock(db.blocks, booking.value) then TurnedDown(reply, db, BlockLinked)
            else reply == Done(db.(blocks := db.blocks[db.nextBlock := Block(p, room, first, last, reason, booking)],
                                   nextBlock := db.nextBlock + 1))
  {
  }

  lemma UnblockCall(db: Db, block: nat)
    ensures var reply := UnblockDates(db, block);
            if block !in db.blocks then TurnedDown(reply, db, BlockNotFound)
            else && reply.Done? && reply.db == db.(blocks := reply.db.blocks)
                 && reply.db.blocks.Keys == db.blocks.Keys - {block}
                 && forall k :: k in reply.db.blocks ==> reply.db.blocks[k] == db.blocks[k]
  {
  }

  // ---------------------------------------------------------------- sheets

  /** The entry needs a row of its own that cannot be made. */
  predicate Unmakeable(db: Db, p: Id, e: CalendarEntry) {
    EntryAt(db.rows, p, e.roomType, e.day) == None && (p !in db.properties || e.roomType !in db.roomTypes)
  }

  ghost predicate StopsAt(db: Db, p: Id, entries: seq<CalendarEntry>, n: nat) {
    n < |entries| && Unmakeable(db, p, entries[n]) && forall k :: 0 <= k < n ==> !Unmakeable(db, p, entries[k])
  }

  /** A sheet is saved whole, touching rows alone, or turned down for its first entry that needs a
      row for a property or a room type that does not exist. */
  lemma SheetCall(db: Db, p: Id, entries: seq<CalendarEntry>)
    ensures var reply := BulkUpsert(db, p, entries);
            && (forall n: nat :: StopsAt(db, p, entries, n) ==>
                  TurnedDown(reply, db, if p !in db.properties then PropertyNotFound else RoomTypeNotFound))
            && ((forall e :: e in entries ==> !Unmakeable(db, p, e)) ==> reply.Done? && reply.db == db.(rows := reply.db.rows))
  {
    forall e
      ensures Unmakeable(db, p, e) <==> EntryError(db, p, e).Some?
    {
    }
    forall n: nat | StopsAt(db, p, entries, n)
      ensures SheetError(db, p, entries) == Some(if p !in db.properties then PropertyNotFound else RoomTypeNotFound)
    {
      assert forall e :: e in entries[..n] ==> !Unmakeable(db, p, e);
      SheetFails(db, p, entries, n);
    }
  }

  // ---------------------------------------------------------------- from one call to the next

  /** A guest who has checked in can check out: at once, by the booking's own token and by the
      account it is on, given a complete form and a way to pay; and nobody else can. */
  lemma ArrivedGuestMayLeave(db: Db, r: Id, f: CheckInForm, caller: Caller, g: CheckOutForm)
    requires CheckInSubmit(db, r, f).Done?
    requires g.confirmed && (if g.remote then g.keyPhoto else g.staffQr) && g.payment
    ensures var arrived := CheckInSubmit(db, r, f).db;
            CheckOutSubmit(arrived, caller, r, g).Done? <==>
            caller == BookingToken(r) || (caller.UserToken? && arrived.bookings[r].guestUser == Some(caller.user))
    ensures db.bookings[r].guestUser.None? && f.email.Some? && f.email.value != "" ==>
              CheckOutSubmit(CheckInSubmit(db, r, f).db, UserToken(f.account), r, g).Done?
  {
    CheckInCall(db, r, f);
    CheckOutCall(CheckInSubmit(db, r, f).db, caller, r, g);
    CheckOutCall(CheckInSubmit(db, r, f).db, UserToken(f.account), r, g);
  }

  /** Taking the room away again undoes having given one. */
  lemma UnassignUndoesAssign(db: Db, r: Id, room: Id)
    requires AssignRoom(db, r, Some(room)).Done? && db.bookings[r].room.None?
    ensures AssignRoom(AssignRoom(db, r, Some(room)).db, r, None) == Done(db)
  {
    var given := AssignRoom(db, r, Some(room)).db;
    assert AssignRoom(given, r, None).db.bookings == db.bookings;
  }

  // ---------------------------------------------------------------- paying

  /** Nothing in a run takes money: every booking of a run from an unsold hotel owes its price. */
  lemma {:induction false} NothingIsPaid(db: Db, steps: seq<Step>, r: Id)
    requires Fresh(db) && r in Run(db, steps).bookings
    ensures Run(db, steps).bookings[r].paid == 0
  {
    if |steps| > 0 {
      var before := Run(db, steps[..|steps| - 1]);
      StepOnBooking(before, steps[|steps| - 1], r);
      if r in before.bookings {
        NothingIsPaid(db, steps[..|steps| - 1], r);
      }
    }
  }

  ghost predicate LeftPaying(db: Db, steps: seq<Step>, r: Id) {
    exists k :: 0 <= k < |steps| && PaysAt(db, steps, k, r)
  }

  ghost predicate PaysAt(db: Db, steps: seq<Step>, k: nat, r: Id)
    requires k < |steps|
  {
    LeavesPaying(Run(db, steps[..k]), steps[k], r)
  }

  /** A check-out of the booking that chose a way to pay. */
  ghost predicate LeavesPaying(db: Db, s: Step, r: Id) {
    && s.CheckOutStep? && s.reference == r && s.checkOutForm.payment
    && r in db.bookings && db.bookings[r].status == CheckedIn && Entitled(s.caller, r, db.bookings[r])
  }

  /** So in every run from an unsold hotel a guest who left a stay that cost something chose a way
      to pay on leaving. */
  lemma {:induction false} NobodyLeavesWithoutPaying(db: Db, steps: seq<Step>, r: Id)
    requires Fresh(db) && r in Run(db, steps).bookings
    requires Run(db, steps).bookings[r].status == CheckedOut && Run(db, steps).bookings[r].total > 0
    ensures LeftPaying(db, steps, r)
  {
    if |steps| > 0 {
      var front := steps[..|steps| - 1];
      NothingIsPaid(db, steps, r);
      LeavingStep(Run(db, front), steps[|steps| - 1], r);
      if !PaysAt(db, steps, |steps| - 1, r) {
        NobodyLeavesWithoutPaying(db, front, r);
        LeftPayingExtends(db, steps, |steps| - 1, r);
      }
    }
  }

  lemma LeavingStep(before: Db, s: Step, r: Id)
    requires r in Perform(before, s).db.bookings
    requires var now := Perform(before, s).db.bookings[r];
             now.status == CheckedOut && now.total > 0 && now.paid == 0
    ensures || LeavesPaying(before, s, r)
            || (r in before.bookings && before.bookings[r].status == CheckedOut && before.bookings[r].total > 0)
  {
    StepOnBooking(before, s, r);
  }

  lemma LeftPayingExtends(db: Db, steps: seq<Step>, n: nat, r: Id)
    requires n <= |steps| && LeftPaying(db, steps[..n], r)
    ensures LeftPaying(db, steps, r)
  {
    var k :| 0 <= k < n && PaysAt(db, steps[..n], k, r);
    assert steps[..n][..k] == steps[..k];
    assert PaysAt(db, steps, k, r);
  }
}
