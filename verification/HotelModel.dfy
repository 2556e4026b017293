/** The tables the reservation engine works on. Money is in cents, days are day indices. */
module HotelModel {
  import opened Wrappers

  type Id = string

  datatype Status = Pending | Confirmed | CheckedIn | CheckedOut | Cancelled | NoShow

  datatype BlockReason = ForBooking | Maintenance | Hold | OwnerUse | ExternalChannel

  datatype RoomType = RoomType(property: Id, basePrice: int, currency: string)

  datatype Room = Room(property: Id, roomType: Id)

  /** One row of the per-day calendar. A row without a room is a room-type row. */
  datatype Row = Row(
    property: Id, roomType: Option<Id>, room: Option<Id>, day: int,
    inventory: int, reserved: int, price: Option<int>, currency: Option<string>,
    closeOut: bool, minStay: Option<int>, maxStay: Option<int>)

  /** A block covers startDay through endDay, both included; without a room it covers the property. */
  datatype Block = Block(
    property: Id, room: Option<Id>, startDay: int, endDay: int, reason: BlockReason, booking: Option<Id>)

  datatype Guest = Guest(
    firstName: Option<string>, lastName: Option<string>, email: Option<string>, phone: Option<string>,
    adults: int, children: int)

  /** A stay occupies the nights checkIn <= d < checkOut. */
  datatype Booking = Booking(
    property: Id, roomType: Option<Id>, room: Option<Id>,
    checkIn: int, checkOut: int, nights: int,
    total: int, paid: int, currency: string, status: Status,
    guest: Guest, guestUser: Option<Id>, externalId: Option<Id>)

  /** Bookings are keyed by reference; blocks by an increasing number. Rows are never deleted,
      so a row's position is its identity. */
  datatype Db = Db(
    properties: set<Id>, roomTypes: map<Id, RoomType>, rooms: map<Id, Room>,
    rows: seq<Row>, blocks: map<nat, Block>, nextBlock: nat, bookings: map<Id, Booking>)

  datatype Error =
    | BadDates
    | PropertyNotFound
    | RoomTypeNotFound
    | WrongProperty
    | NoAvailability(day: int)
    | DuplicateReference
    | BookingNotFound
    | BlockNotFound
    | BlockLinked
    | RoomNotFound
    | WrongRoomType
    | RoomConflict
    | Frozen(status: Status)
    | FormIncomplete
    | NotCheckInAble(status: Status)
    | NotCheckedIn
    | AlreadyLinked
    | Unauthorized
    | PaymentRequired
    | WindowTooWide

  predicate Active(b: Booking) {
    b.status != Cancelled && b.status != NoShow
  }

  predicate Terminal(b: Booking) {
    b.status == Cancelled || b.status == CheckedOut
  }

  predicate Covers(b: Booking, day: int) {
    b.checkIn <= day < b.checkOut
  }
}
