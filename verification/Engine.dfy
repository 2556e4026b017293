/** The reservation engine as a state machine: each service call is one atomic step on the tables. */
module Engine {
  import opened Wrappers
  import opened HotelModel
  import opened Ledger
  import Days
  import Numbers

  /** A refused step may still have changed the tables, so both outcomes carry them. */
  datatype Reply = Done(db: Db) | Refused(db: Db, error: Error)

  // ---------------------------------------------------------------- create

  /** The public booking form: it names a room type, never a room. Dates are instants. */
  datatype CreateInput = CreateInput(
    reference: Id, property: Id, roomType: Id, checkIn: int, checkOut: int, guest: Guest, guestUser: Option<Id>)

  function NightPrice(rows: seq<Row>, property: Id, roomType: Id, basePrice: int, day: int): int {
    match EntryAt(rows, property, roomType, day)
    case Some(r) => r.price.GetOr(basePrice)
    case None => basePrice
  }

  function StayPrice(rows: seq<Row>, property: Id, roomType: Id, basePrice: int, checkIn: int, checkOut: int): int
    decreases checkOut - checkIn
  {
    if checkOut <= checkIn then 0
    else StayPrice(rows, property, roomType, basePrice, checkIn, checkOut - 1) +
         NightPrice(rows, property, roomType, basePrice, checkOut - 1)
  }

  /** The currency of the last night that names one. */
  function StayCurrency(rows: seq<Row>, property: Id, roomType: Id, fallback: string, checkIn: int, checkOut: int): string
    decreases checkOut - checkIn
  {
    if checkOut <= checkIn then fallback
    else match EntryAt(rows, property, roomType, checkOut - 1)
         case Some(r) =>
           if r.currency.Some? && r.currency.value != "" then r.currency.value
           else StayCurrency(rows, property, roomType, fallback, checkIn, checkOut - 1)
         case None => StayCurrency(rows, property, roomType, fallback, checkIn, checkOut - 1)
  }

  function FirstDay(i: CreateInput): int {
    Days.DayOf(i.checkIn)
  }

  function LastDay(i: CreateInput): int {
    Days.DayOf(i.checkOut)
  }

  function NewBooking(db: Db, i: CreateInput): Booking
    requires i.roomType in db.roomTypes
  {
    var rt := db.roomTypes[i.roomType];
    var (ci, co) := (FirstDay(i), LastDay(i));
    Booking(i.property, Some(i.roomType), None, ci, co, co - ci,
            StayPrice(db.rows, i.property, i.roomType, rt.basePrice, ci, co), 0,
            StayCurrency(db.rows, i.property, i.roomType, rt.currency, ci, co),
            Pending, i.guest, i.guestUser, None)
  }

  /** The block has no room, so it covers the property; it runs through the check-out day. */
  function BookingBlock(i: CreateInput): Block {
    Block(i.property, None, FirstDay(i), LastDay(i), ForBooking, Some(i.reference))
  }

  function Create(db: Db, i: CreateInput): Reply {
    if LastDay(i) <= FirstDay(i) then Refused(db, BadDates)
    else if i.roomType !in db.roomTypes then Refused(db, RoomTypeNotFound)
    else if db.roomTypes[i.roomType].property != i.property then Refused(db, WrongProperty)
    else match Reserve(db.rows, GuestSelector(i.property, i.roomType), FirstDay(i), LastDay(i), 1)
         case Err(e) => Refused(db, e)
         case Ok(rows) =>
           // The reservation is committed before the booking row is inserted.
           if i.reference in db.bookings then Refused(db.(rows := rows), DuplicateReference)
           else Done(db.(
             rows := rows,
             bookings := db.bookings[i.reference := NewBooking(db, i)],
             blocks := db.blocks[db.nextBlock := BookingBlock(i)],
             nextBlock := db.nextBlock + 1))
  }

  // ---------------------------------------------------------------- cancel

  function CancelSelector(b: Booking): Selector {
    Selector(b.property, b.roomType, if b.room.Some? then TheRoom(b.room.value) else AnyRoom)
  }

  function WithoutBookingBlocks(blocks: map<nat, Block>, reference: Id): map<nat, Block> {
    map k | k in blocks && !(blocks[k].booking == Some(reference) && blocks[k].reason == ForBooking) :: blocks[k]
  }

  function Cancel(db: Db, reference: Id): Reply {
    if reference !in db.bookings then Refused(db, BookingNotFound)
    else
      var b := db.bookings[reference];
      if b.status == Cancelled then Done(db)
      else Done(db.(
        rows := Release(db.rows, CancelSelector(b), b.checkIn, b.checkOut, 1),
        blocks := WithoutBookingBlocks(db.blocks, reference),
        bookings := db.bookings[reference := b.(status := Cancelled)]))
  }

  // ---------------------------------------------------------------- rooms and dates

  /** Another active booking is pinned to the room for a night between the dates. */
  predicate Conflicts(bookings: map<Id, Booking>, reference: Id, room: Id, checkIn: int, checkOut: int) {
    exists other :: other in bookings && other != reference && ClashesWith(bookings[other], room, checkIn, checkOut)
  }

  predicate ClashesWith(b: Booking, room: Id, checkIn: int, checkOut: int) {
    b.room == Some(room) && Active(b) && b.checkIn < checkOut && b.checkOut > checkIn
  }

  function AssignRoom(db: Db, reference: Id, room: Option<Id>): Reply {
    if reference !in db.bookings then Refused(db, BookingNotFound)
    else
      var b := db.bookings[reference];
      if Terminal(b) then Refused(db, Frozen(b.status))
      else if room.Some? && room.value !in db.rooms then Refused(db, RoomNotFound)
      else if room.Some? && db.rooms[room.value].property != b.property then Refused(db, WrongProperty)
      else if room.Some? && Some(db.rooms[room.value].roomType) != b.roomType then Refused(db, WrongRoomType)
      else if room.Some? && Conflicts(db.bookings, reference, room.value, b.checkIn, b.checkOut) then Refused(db, RoomConflict)
      else Done(db.(bookings := db.bookings[reference := b.(room := room)]))
  }

  /** The new dates are whole days; a date that does not parse is None. */
  function MoveDates(db: Db, reference: Id, checkIn: Option<int>, checkOut: Option<int>): Reply {
    if checkIn.None? || checkOut.None? then Refused(db, BadDates)
    else if checkOut.value <= checkIn.value then Refused(db, BadDates)
    else if reference !in db.bookings then Refused(db, BookingNotFound)
    else
      var b := db.bookings[reference];
      if Terminal(b) then Refused(db, Frozen(b.status))
      else if b.room.Some? && Conflicts(db.bookings, reference, b.room.value, checkIn.value, checkOut.value)
      then Refused(db, RoomConflict)
      else Done(db.(bookings := db.bookings[reference :=
        b.(checkIn := checkIn.value, checkOut := checkOut.value, nights := Numbers.Max(1, checkOut.value - checkIn.value))]))
  }

  // ---------------------------------------------------------------- check-in and check-out

  /** The wizard's confirmations and contact fields; an absent contact field keeps what the
      booking had. `account` is the guest account the email leads to, found or made. */
  datatype CheckInForm = CheckInForm(
    terms: bool, privacy: bool, accurate: bool, selfVerify: bool, consent: bool, documents: bool,
    firstName: Option<string>, lastName: Option<string>, email: Option<string>, phone: Option<string>, account: Id)

  predicate CheckInComplete(f: CheckInForm) {
    f.terms && f.privacy && f.accurate && (f.selfVerify ==> f.consent && f.documents)
  }

  function ContactAfter(g: Guest, f: CheckInForm): Guest {
    g.(firstName := f.firstName.OrElse(g.firstName), lastName := f.lastName.OrElse(g.lastName),
       email := f.email.OrElse(g.email), phone := f.phone.OrElse(g.phone))
  }

  /** A booking that is on nobody's account yet goes on the one its email leads to. */
  function AccountAfter(b: Booking, f: CheckInForm): Option<Id> {
    var email := ContactAfter(b.guest, f).email;
    if b.guestUser.Some? then b.guestUser
    else if email.Some? && email.value != "" then Some(f.account)
    else None
  }

  function CheckedInAs(b: Booking, f: CheckInForm): Booking {
    b.(status := CheckedIn, guest := ContactAfter(b.guest, f), guestUser := AccountAfter(b, f))
  }

  function CheckInSubmit(db: Db, reference: Id, form: CheckInForm): Reply {
    if !CheckInComplete(form) then Refused(db, FormIncomplete)
    else if reference !in db.bookings then Refused(db, BookingNotFound)
    else
      var b := db.bookings[reference];
      if b.status != Pending && b.status != Confirmed then Refused(db, NotCheckInAble(b.status))
      else Done(db.(bookings := db.bookings[reference := CheckedInAs(b, form)]))
  }

  /** A signed-in guest adds a stay by its number: free unless it is on another account, and
      then only if the guest's email is on the stay. */
  function Claim(db: Db, reference: Id, user: Id, emailMatches: bool): Reply {
    if reference !in db.bookings then Refused(db, BookingNotFound)
    else
      var b := db.bookings[reference];
      if b.guestUser.Some? && b.guestUser != Some(user) && !emailMatches then Refused(db, AlreadyLinked)
      else Done(db.(bookings := db.bookings[reference := b.(guestUser := Some(user))]))
  }

  /** Whom the caller's token stands for. */
  datatype Caller = BookingToken(reference: Id) | UserToken(user: Id)

  datatype CheckOutForm = CheckOutForm(confirmed: bool, remote: bool, keyPhoto: bool, staffQr: bool, payment: bool)

  predicate CheckOutComplete(f: CheckOutForm) {
    f.confirmed && (if f.remote then f.keyPhoto else f.staffQr)
  }

  predicate MayCheckOut(caller: Caller, reference: Id, b: Booking) {
    match caller
    case BookingToken(r) => r == reference
    case UserToken(u) => b.guestUser == Some(u)
  }

  function CheckOutSubmit(db: Db, caller: Caller, reference: Id, form: CheckOutForm): Reply {
    if !CheckOutComplete(form) then Refused(db, FormIncomplete)
    else if reference !in db.bookings then Refused(db, BookingNotFound)
    else
      var b := db.bookings[reference];
      if b.status != CheckedIn then Refused(db, NotCheckedIn)
      else if !MayCheckOut(caller, reference, b) then Refused(db, Unauthorized)
      else if b.total - b.paid > 0 && !form.payment then Refused(db, PaymentRequired)
      else Done(db.(bookings := db.bookings[reference := b.(status := CheckedOut)]))
  }

  // ---------------------------------------------------------------- calendar administration

  /** A row can only be made for a property and a room type that exist. */
  function EntryError(db: Db, property: Id, e: CalendarEntry): Option<Error> {
    if EntryAt(db.rows, property, e.roomType, e.day).Some? then None
    else if property !in db.properties then Some(PropertyNotFound)
    else if e.roomType !in db.roomTypes then Some(RoomTypeNotFound)
    else None
  }

  /** The first error of a sheet. */
  function SheetError(db: Db, property: Id, entries: seq<CalendarEntry>): (error: Option<Error>)
    ensures error == None <==> forall e :: e in entries ==> EntryError(db, property, e) == None
  {
    if |entries| == 0 then None
    else
      var earlier := SheetError(db, property, entries[..|entries| - 1]);
      assert entries == entries[..|entries| - 1] + [entries[|entries| - 1]];
      if earlier.Some? then earlier else EntryError(db, property, entries[|entries| - 1])
  }

  /** The first entry in error decides the whole sheet. */
  lemma SheetFails(db: Db, property: Id, entries: seq<CalendarEntry>, n: nat)
    requires n < |entries| && SheetError(db, property, entries[..n]) == None
    requires EntryError(db, property, entries[n]).Some?
    ensures SheetError(db, property, entries) == EntryError(db, property, entries[n])
  {
    var front := entries[..|entries| - 1];
    if n == |entries| - 1 {
      assert entries[..n] == front;
    } else {
      assert front[..n] == entries[..n];
      SheetFails(db, property, front, n);
    }
  }

  /** One transaction: all of the sheet is saved, or nothing. */
  function BulkUpsert(db: Db, property: Id, entries: seq<CalendarEntry>): Reply {
    match SheetError(db, property, entries)
    case Some(e) => Refused(db, e)
    case None => Done(db.(rows := UpsertAll(db.rows, property, entries)))
  }

  /** The property, the room and the booking must exist, and a booking has at most one block linked to it. */
  function BlockDates(
      db: Db, property: Id, room: Option<Id>, startDay: int, endDay: int, reason: BlockReason, booking: Option<Id>): Reply
  {
    if property !in db.properties then Refused(db, PropertyNotFound)
    else if room.Some? && room.value !in db.rooms then Refused(db, RoomNotFound)
    else if booking.Some? && booking.value !in db.bookings then Refused(db, BookingNotFound)
    else if booking.Some? && Linked(db.blocks, booking.value) then Refused(db, BlockLinked)
    else Done(db.(blocks := db.blocks[db.nextBlock := Block(property, room, startDay, endDay, reason, booking)],
                  nextBlock := db.nextBlock + 1))
  }

  predicate Linked(blocks: map<nat, Block>, reference: Id) {
    exists k :: k in blocks && blocks[k].booking == Some(reference)
  }

  function UnblockDates(db: Db, block: nat): Reply {
    if block !in db.blocks then Refused(db, BlockNotFound)
    else Done(db.(blocks := db.blocks - {block}))
  }

  // ---------------------------------------------------------------- runs

  datatype Step =
    | CreateStep(input: CreateInput)
    | CancelStep(reference: Id)
    | AssignStep(reference: Id, room: Option<Id>)
    | MoveStep(reference: Id, checkIn: Option<int>, checkOut: Option<int>)
    | CheckInStep(reference: Id, checkInForm: CheckInForm)
    | ClaimStep(reference: Id, user: Id, emailMatches: bool)
    | CheckOutStep(caller: Caller, reference: Id, checkOutForm: CheckOutForm)
    | UpsertStep(property: Id, entries: seq<CalendarEntry>)
    | BlockStep(property: Id, blockRoom: Option<Id>, startDay: int, endDay: int, reason: BlockReason, blockBooking: Option<Id>)
    | UnblockStep(block: nat)

  function Perform(db: Db, s: Step): Reply {
    match s
    case CreateStep(i) => Create(db, i)
    case CancelStep(reference) => Cancel(db, reference)
    case AssignStep(reference, room) => AssignRoom(db, reference, room)
    case MoveStep(reference, ci, co) => MoveDates(db, reference, ci, co)
    case CheckInStep(reference, form) => CheckInSubmit(db, reference, form)
    case ClaimStep(reference, user, emailMatches) => Claim(db, reference, user, emailMatches)
    case CheckOutStep(caller, reference, form) => CheckOutSubmit(db, caller, reference, form)
    case UpsertStep(property, entries) => BulkUpsert(db, property, entries)
    case BlockStep(property, room, startDay, endDay, reason, booking) =>
      BlockDates(db, property, room, startDay, endDay, reason, booking)
    case UnblockStep(block) => UnblockDates(db, block)
  }

  function Run(db: Db, steps: seq<Step>): Db {
    if |steps| == 0 then db
    else Perform(Run(db, steps[..|steps| - 1]), steps[|steps| - 1]).db
  }

  /** Only a create, a cancellation or a sheet touches the calendar. */
  lemma RowsUntouched(db: Db, s: Step)
    requires !s.CreateStep? && !s.CancelStep? && !s.UpsertStep?
    ensures Perform(db, s).db.rows == db.rows
  {
  }

  lemma RunOneMore(db: Db, steps: seq<Step>, k: nat)
    requires k < |steps|
    ensures Run(db, steps[..k + 1]) == Perform(Run(db, steps[..k]), steps[k]).db
  {
    assert steps[..k + 1][..k] == steps[..k];
  }

  /** A hotel that has sold nothing yet: any catalogue, any blocks an administrator made,
      and a well-formed calendar with nothing reserved. */
  ghost predicate Fresh(db: Db) {
    && db.bookings == map[]
    && WellFormed(db.rows)
    && (forall i :: 0 <= i < |db.rows| ==> db.rows[i].reserved == 0)
    && (forall k :: k in db.blocks ==> k < db.nextBlock && db.blocks[k].booking.None?)
  }

  // ---------------------------------------------------------------- what a step does to one booking

  ghost predicate Names(s: Step, r: Id) {
    match s
    case CreateStep(i) => i.reference == r
    case CancelStep(reference) => reference == r
    case AssignStep(reference, _) => reference == r
    case MoveStep(reference, _, _) => reference == r
    case CheckInStep(reference, _) => reference == r
    case ClaimStep(reference, _, _) => reference == r
    case CheckOutStep(_, reference, _) => reference == r
    case _ => false
  }

  /** How an accepted step may turn the booking it names into another. */
  ghost predicate Turns(s: Step, past: Booking, now: Booking) {
    match s
    case CancelStep(_) => now == past.(status := Cancelled)
    case AssignStep(_, room) => !Terminal(past) && now == past.(room := room)
    case MoveStep(_, ci, co) =>
      && !Terminal(past) && ci.Some? && co.Some? && ci.value < co.value
      && now == past.(checkIn := ci.value, checkOut := co.value, nights := co.value - ci.value)
    case CheckInStep(_, form) =>
      CheckInComplete(form) && (past.status == Pending || past.status == Confirmed) && now == CheckedInAs(past, form)
    case ClaimStep(_, user, matches) =>
      (past.guestUser == None || past.guestUser == Some(user) || matches) && now == past.(guestUser := Some(user))
    case CheckOutStep(caller, reference, form) =>
      && CheckOutComplete(form) && past.status == CheckedIn && MayCheckOut(caller, reference, past)
      && (past.total <= past.paid || form.payment)
      && now == past.(status := CheckedOut)
    case _ => false
  }

  /** The booking came about by the step. */
  ghost predicate Starts(db: Db, s: Step, r: Id, now: Booking) {
    && s.CreateStep? && s.input.reference == r
    && FirstDay(s.input) < LastDay(s.input) && s.input.roomType in db.roomTypes
    && now == NewBooking(db, s.input)
  }

  /** The step creates the booking it names, turns it into another, or leaves it as it is; it
      never loses a booking and never touches one it does not name. */
  ghost predicate TouchesOnlyItsOwn(db: Db, s: Step, r: Id) {
    var after := Perform(db, s).db.bookings;
    && (r in db.bookings ==> r in after)
    && (r in after ==> if r !in db.bookings then Starts(db, s, r, after[r])
                       else after[r] == db.bookings[r] || (Names(s, r) && Turns(s, db.bookings[r], after[r])))
  }

  lemma StepOnBooking(db: Db, s: Step, r: Id)
    ensures TouchesOnlyItsOwn(db, s, r)
  {
    match s
    case CreateStep(_) => CreateOnBooking(db, s, r);
    case CancelStep(_) => CancelOnBooking(db, s, r);
    case AssignStep(_, _) => AssignOnBooking(db, s, r);
    case MoveStep(_, _, _) => MoveOnBooking(db, s, r);
    case CheckInStep(_, _) => CheckInOnBooking(db, s, r);
    case ClaimStep(_, _, _) => ClaimOnBooking(db, s, r);
    case CheckOutStep(_, _, _) => CheckOutOnBooking(db, s, r);
    case UpsertStep(_, _) =>
    case BlockStep(_, _, _, _, _, _) =>
    case UnblockStep(_) =>
  }

  lemma CreateOnBooking(db: Db, s: Step, r: Id)
    requires s.CreateStep?
    ensures TouchesOnlyItsOwn(db, s, r)
  {
  }

  lemma CancelOnBooking(db: Db, s: Step, r: Id)
    requires s.CancelStep?
    ensures TouchesOnlyItsOwn(db, s, r)
  {
  }

  lemma AssignOnBooking(db: Db, s: Step, r: Id)
    requires s.AssignStep?
    ensures TouchesOnlyItsOwn(db, s, r)
  {
  }

  lemma MoveOnBooking(db: Db, s: Step, r: Id)
    requires s.MoveStep?
    ensures TouchesOnlyItsOwn(db, s, r)
  {
  }

  lemma CheckInOnBooking(db: Db, s: Step, r: Id)
    requires s.CheckInStep?
    ensures TouchesOnlyItsOwn(db, s, r)
  {
  }

  lemma ClaimOnBooking(db: Db, s: Step, r: Id)
    requires s.ClaimStep?
    ensures TouchesOnlyItsOwn(db, s, r)
  {
  }

  lemma CheckOutOnBooking(db: Db, s: Step, r: Id)
    requires s.CheckOutStep?
    ensures TouchesOnlyItsOwn(db, s, r)
  {
  }
}
