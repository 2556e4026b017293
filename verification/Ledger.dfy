/** The per-day calendar: what tryReserve, release and bulkUpsertCalendar do to the rows. */
module Ledger {
  import opened Wrappers
  import opened HotelModel

  /** How a query constrains the room column: not at all, to be empty, or to one room. */
  datatype RoomFilter = AnyRoom | NoRoom | TheRoom(id: Id)

  datatype Selector = Selector(property: Id, roomType: Option<Id>, room: RoomFilter)

  predicate Selects(q: Selector, r: Row) {
    && r.property == q.property
    && (q.roomType.Some? ==> r.roomType == q.roomType)
    && match q.room
       case AnyRoom => true
       case NoRoom => r.room.None?
       case TheRoom(id) => r.room == Some(id)
  }

  predicate Hit(q: Selector, r: Row, day: int) {
    Selects(q, r) && r.day == day
  }

  /** The row a query followed by `find` on one day yields: the first match in table order. */
  function FirstOn(rows: seq<Row>, q: Selector, day: int): (found: Option<nat>)
    ensures found.Some? ==>
              && found.value < |rows| && Hit(q, rows[found.value], day)
              && forall j :: 0 <= j < found.value ==> !Hit(q, rows[j], day)
    ensures found.None? ==> forall j :: 0 <= j < |rows| ==> !Hit(q, rows[j], day)
  {
    FirstFrom(rows, q, day, 0)
  }

  function FirstFrom(rows: seq<Row>, q: Selector, day: int, start: nat): (found: Option<nat>)
    requires start <= |rows|
    ensures found.Some? ==>
              && start <= found.value < |rows| && Hit(q, rows[found.value], day)
              && forall j :: start <= j < found.value ==> !Hit(q, rows[j], day)
    ensures found.None? ==> forall j :: start <= j < |rows| ==> !Hit(q, rows[j], day)
    decreases |rows| - start
  {
    if start == |rows| then None
    else if Hit(q, rows[start], day) then Some(start)
    else FirstFrom(rows, q, day, start + 1)
  }

  /** A later row is found only when no earlier one is. */
  lemma FirstOnLast(rows: seq<Row>, q: Selector, day: int)
    requires |rows| > 0
    ensures var earlier := FirstOn(rows[..|rows| - 1], q, day);
            FirstOn(rows, q, day) ==
            if earlier.Some? then earlier
            else if Hit(q, rows[|rows| - 1], day) then Some(|rows| - 1)
            else None
  {
  }

  /** Units a reservation may still take on a day; a day without a row counts as one free unit. */
  function Free(rows: seq<Row>, q: Selector, day: int): int {
    match FirstOn(rows, q, day)
    case Some(i) => rows[i].inventory - rows[i].reserved
    case None => 1
  }

  /** The earliest night of the stay with fewer than `units` free. */
  function FirstFull(rows: seq<Row>, q: Selector, checkIn: int, checkOut: int, units: int): (full: Option<int>)
    ensures full.Some? ==>
              && checkIn <= full.value < checkOut && Free(rows, q, full.value) < units
              && forall d :: checkIn <= d < full.value ==> Free(rows, q, d) >= units
    ensures full.None? ==> forall d :: checkIn <= d < checkOut ==> Free(rows, q, d) >= units
    decreases checkOut - checkIn
  {
    if checkOut <= checkIn then None
    else if Free(rows, q, checkIn) < units then Some(checkIn)
    else FirstFull(rows, q, checkIn + 1, checkOut, units)
  }

  /** Whether row `i` of the snapshot is the one a reservation increments. */
  predicate Picks(snapshot: seq<Row>, q: Selector, checkIn: int, checkOut: int, i: nat)
    requires i < |snapshot|
  {
    checkIn <= snapshot[i].day < checkOut && FirstOn(snapshot, q, snapshot[i].day) == Some(i)
  }

  function Incremented(rows: seq<Row>, snapshot: seq<Row>, q: Selector, checkIn: int, checkOut: int, units: int)
    : (out: seq<Row>)
    ensures |out| == |rows|
  {
    seq(|rows|, i requires 0 <= i < |rows| =>
      if i < |snapshot| && Picks(snapshot, q, checkIn, checkOut, i)
      then rows[i].(reserved := rows[i].reserved + units)
      else rows[i])
  }

  /** The row a reservation creates for a day that had none: one unit of inventory. */
  function NewRow(q: Selector, day: int, units: int): Row {
    Row(q.property, q.roomType, if q.room.TheRoom? then Some(q.room.id) else None, day,
        1, units, None, Some("USD"), false, None, None)
  }

  /** The query that found no row for a day finds the one made for it. */
  lemma NewRowIsFound(q: Selector, day: int, units: int)
    requires q.roomType.Some?
    ensures Hit(q, NewRow(q, day, units), day)
    ensures q.room.TheRoom? <==> NewRow(q, day, units).room.Some?
  {
  }

  function NewRows(snapshot: seq<Row>, q: Selector, checkIn: int, checkOut: int, units: int): seq<Row>
    decreases checkOut - checkIn
  {
    if checkOut <= checkIn then []
    else NewRows(snapshot, q, checkIn, checkOut - 1, units) +
         if FirstOn(snapshot, q, checkOut - 1).None? then [NewRow(q, checkOut - 1, units)] else []
  }

  /** The writing half of tryReserve. It decides from the rows it read (`snapshot`) and
      writes to the rows as they are now; rows are only ever appended in between. */
  function Commit(rows: seq<Row>, snapshot: seq<Row>, q: Selector, checkIn: int, checkOut: int, units: int)
    : seq<Row>
  {
    Incremented(rows, snapshot, q, checkIn, checkOut, units) + NewRows(snapshot, q, checkIn, checkOut, units)
  }

  /** tryReserve as one atomic step. */
  function Reserve(rows: seq<Row>, q: Selector, checkIn: int, checkOut: int, units: int): Result<seq<Row>, Error> {
    match FirstFull(rows, q, checkIn, checkOut, units)
    case Some(day) => Err(NoAvailability(day))
    case None => Ok(Commit(rows, rows, q, checkIn, checkOut, units))
  }

  /** release: every selected row of the stay loses the units. */
  function Release(rows: seq<Row>, q: Selector, checkIn: int, checkOut: int, units: int): (out: seq<Row>)
    ensures |out| == |rows|
  {
    seq(|rows|, i requires 0 <= i < |rows| =>
      if Selects(q, rows[i]) && checkIn <= rows[i].day < checkOut
      then rows[i].(reserved := rows[i].reserved - units)
      else rows[i])
  }

  /** One entry of bulkUpsertCalendar; a field left out is left alone on update. */
  datatype CalendarEntry = CalendarEntry(
    roomType: Id, day: int, inventory: Option<int>, price: Field<int>, currency: Field<string>,
    closeOut: Option<bool>, minStay: Field<int>, maxStay: Field<int>)

  function Overlaid(e: CalendarEntry, r: Row): Row {
    r.(inventory := e.inventory.GetOr(r.inventory), price := e.price.Over(r.price),
       currency := e.currency.Over(r.currency), closeOut := e.closeOut.GetOr(r.closeOut),
       minStay := e.minStay.Over(r.minStay), maxStay := e.maxStay.Over(r.maxStay))
  }

  function Inserted(property: Id, e: CalendarEntry): Row {
    Row(property, Some(e.roomType), None, e.day, e.inventory.GetOr(1), 0, e.price.Over(None),
        e.currency.Over(Some("USD")), e.closeOut.GetOr(false), e.minStay.Over(None), e.maxStay.Over(None))
  }

  function Upsert(rows: seq<Row>, property: Id, e: CalendarEntry): seq<Row> {
    match FirstOn(rows, TypeLevel(property, e.roomType), e.day)
    case Some(i) => rows[i := Overlaid(e, rows[i])]
    case None => rows + [Inserted(property, e)]
  }

  function UpsertAll(rows: seq<Row>, property: Id, entries: seq<CalendarEntry>): seq<Row> {
    if |entries| == 0 then rows
    else Upsert(UpsertAll(rows, property, entries[..|entries| - 1]), property, entries[|entries| - 1])
  }

  // ---------------------------------------------------------------- well-formed calendars

  /** The selector of a room type's own rows. */
  function TypeLevel(property: Id, roomType: Id): Selector {
    Selector(property, Some(roomType), NoRoom)
  }

  /** The selector a guest reservation uses: the room type is given, the room is not. */
  function GuestSelector(property: Id, roomType: Id): Selector {
    Selector(property, Some(roomType), AnyRoom)
  }

  /** Only room-type rows, at most one for each (property, room type, day). */
  ghost predicate WellFormed(rows: seq<Row>) {
    && (forall i :: 0 <= i < |rows| ==> rows[i].room.None? && rows[i].roomType.Some?)
    && (forall i, j :: 0 <= i < j < |rows| ==> !SameKey(rows[i], rows[j]))
  }

  predicate SameKey(a: Row, b: Row) {
    a.property == b.property && a.roomType == b.roomType && a.day == b.day
  }

  /** The calendar as the map it stands for. */
  function EntryAt(rows: seq<Row>, property: Id, roomType: Id, day: int): Option<Row> {
    match FirstOn(rows, TypeLevel(property, roomType), day)
    case Some(i) => Some(rows[i])
    case None => None
  }

  function ReservedAt(rows: seq<Row>, property: Id, roomType: Id, day: int): int {
    match EntryAt(rows, property, roomType, day)
    case Some(r) => r.reserved
    case None => 0
  }

  lemma FoundIsUnique(rows: seq<Row>, q: Selector, i: nat)
    requires WellFormed(rows) && i < |rows|
    requires q.roomType.Some? && !q.room.TheRoom?
    requires Selects(q, rows[i])
    ensures FirstOn(rows, q, rows[i].day) == Some(i)
  {
  }

  /** With no room-level rows, a guest reservation and the calendar look at the same row. */
  lemma GuestSeesTypeRow(rows: seq<Row>, property: Id, roomType: Id, day: int)
    requires WellFormed(rows)
    ensures FirstOn(rows, GuestSelector(property, roomType), day) == FirstOn(rows, TypeLevel(property, roomType), day)
  {
  }

  /** The entry of a key is the row that carries it, wherever it stands. */
  lemma EntryIsRow(rows: seq<Row>, i: nat, property: Id, roomType: Id)
    requires WellFormed(rows) && i < |rows|
    requires rows[i].property == property && rows[i].roomType == Some(roomType)
    ensures EntryAt(rows, property, roomType, rows[i].day) == Some(rows[i])
  {
  }

  predicate IsTypeRow(r: Row, property: Id, roomType: Id, day: int) {
    r.property == property && r.roomType == Some(roomType) && r.room == None && r.day == day
  }

  /** The entry of a key is the first row of the room type on the day that is for no one room. */
  lemma EntryIsFirst(rows: seq<Row>, property: Id, roomType: Id, day: int)
    ensures match EntryAt(rows, property, roomType, day)
            case Some(r) => exists i :: 0 <= i < |rows| && rows[i] == r && IsTypeRow(r, property, roomType, day)
                                        && forall j :: 0 <= j < i ==> !IsTypeRow(rows[j], property, roomType, day)
            case None => forall i :: 0 <= i < |rows| ==> !IsTypeRow(rows[i], property, roomType, day)
  {
    forall j | 0 <= j < |rows|
      ensures IsTypeRow(rows[j], property, roomType, day) <==> Hit(TypeLevel(property, roomType), rows[j], day)
    {
    }
  }

  // ---------------------------------------------------------------- what a reservation does

  /** `created` holds, in day order, one new row for every night of the stay without a row. */
  ghost predicate FillsGaps(created: seq<Row>, snapshot: seq<Row>, q: Selector, checkIn: int, checkOut: int, units: int) {
    && (forall k :: 0 <= k < |created| ==> IsNewRow(created[k], snapshot, q, checkIn, checkOut, units))
    && (forall j, k :: 0 <= j < k < |created| ==> created[j].day < created[k].day)
    && (forall d :: checkIn <= d < checkOut && FirstOn(snapshot, q, d).None? ==> NewRow(q, d, units) in created)
  }

  ghost predicate IsNewRow(r: Row, snapshot: seq<Row>, q: Selector, checkIn: int, checkOut: int, units: int) {
    checkIn <= r.day < checkOut && r == NewRow(q, r.day, units) && FirstOn(snapshot, q, r.day).None?
  }

  lemma {:induction false} NewRowsFillGaps(snapshot: seq<Row>, q: Selector, checkIn: int, checkOut: int, units: int)
    ensures FillsGaps(NewRows(snapshot, q, checkIn, checkOut, units), snapshot, q, checkIn, checkOut, units)
    decreases checkOut - checkIn
  {
    if checkIn < checkOut {
      NewRowsFillGaps(snapshot, q, checkIn, checkOut - 1, units);
      GapsExtend(NewRows(snapshot, q, checkIn, checkOut - 1, units), snapshot, q, checkIn, checkOut, units);
    }
  }

  lemma GapsExtend(earlier: seq<Row>, snapshot: seq<Row>, q: Selector, checkIn: int, checkOut: int, units: int)
    requires checkIn < checkOut && FillsGaps(earlier, snapshot, q, checkIn, checkOut - 1, units)
    ensures FirstOn(snapshot, q, checkOut - 1).Some? ==> FillsGaps(earlier, snapshot, q, checkIn, checkOut, units)
    ensures FirstOn(snapshot, q, checkOut - 1).None? ==>
              FillsGaps(earlier + [NewRow(q, checkOut - 1, units)], snapshot, q, checkIn, checkOut, units)
  {
  }

  lemma CommitKeepsWellFormed(rows: seq<Row>, property: Id, roomType: Id, checkIn: int, checkOut: int, units: int)
    requires WellFormed(rows)
    ensures WellFormed(Commit(rows, rows, GuestSelector(property, roomType), checkIn, checkOut, units))
  {
    var q := GuestSelector(property, roomType);
    NewRowsFillGaps(rows, q, checkIn, checkOut, units);
    var old' := Incremented(rows, rows, q, checkIn, checkOut, units);
    var created := NewRows(rows, q, checkIn, checkOut, units);
    forall i, k | 0 <= i < |old'| && 0 <= k < |created|
      ensures !SameKey(old'[i], created[k])
    {
      assert IsNewRow(created[k], rows, q, checkIn, checkOut, units);
      assert !Hit(q, rows[i], created[k].day);
    }
    IncrementedIsWellFormed(rows, q, checkIn, checkOut, units);
    NewRowsAreWellFormed(created, rows, property, roomType, checkIn, checkOut, units);
    Appended(old', created);
  }

  lemma IncrementedIsWellFormed(rows: seq<Row>, q: Selector, checkIn: int, checkOut: int, units: int)
    requires WellFormed(rows)
    ensures WellFormed(Incremented(rows, rows, q, checkIn, checkOut, units))
  {
  }

  lemma NewRowsAreWellFormed(created: seq<Row>, rows: seq<Row>, property: Id, roomType: Id, checkIn: int, checkOut: int, units: int)
    requires FillsGaps(created, rows, GuestSelector(property, roomType), checkIn, checkOut, units)
    ensures WellFormed(created)
  {
    forall k | 0 <= k < |created|
      ensures created[k].room.None? && created[k].roomType.Some?
    {
      assert IsNewRow(created[k], rows, GuestSelector(property, roomType), checkIn, checkOut, units);
    }
  }

  lemma Appended(rows: seq<Row>, more: seq<Row>)
    requires WellFormed(rows) && WellFormed(more)
    requires forall i, k :: 0 <= i < |rows| && 0 <= k < |more| ==> !SameKey(rows[i], more[k])
    ensures WellFormed(rows + more)
  {
  }

  /** The entry a successful reservation leaves: one more set of units on every night of
      the stay, a one-unit row where there was none, and nothing else. */
  function EntryAfterReserve(before: Option<Row>, q: Selector, covered: bool, day: int, units: int): Option<Row> {
    if !covered then before
    else match before
         case Some(r) => Some(r.(reserved := r.reserved + units))
         case None => Some(NewRow(q, day, units))
  }

  lemma CommitEntry(rows: seq<Row>, property: Id, roomType: Id, checkIn: int, checkOut: int, units: int,
                    p: Id, t: Id, d: int)
    requires WellFormed(rows)
    ensures var q := GuestSelector(property, roomType);
            EntryAt(Commit(rows, rows, q, checkIn, checkOut, units), p, t, d) ==
            EntryAfterReserve(EntryAt(rows, p, t, d), q, p == property && t == roomType && checkIn <= d < checkOut, d, units)
  {
    var found := FirstOn(rows, TypeLevel(p, t), d);
    CommitKeepsWellFormed(rows, property, roomType, checkIn, checkOut, units);
    if found.Some? {
      CommitOldEntry(rows, property, roomType, checkIn, checkOut, units, found.value);
    } else if p == property && t == roomType && checkIn <= d < checkOut {
      CommitNewEntry(rows, property, roomType, checkIn, checkOut, units, d);
    } else {
      CommitNoEntry(rows, property, roomType, checkIn, checkOut, units, p, t, d);
    }
  }

  lemma CommitOldEntry(rows: seq<Row>, property: Id, roomType: Id, checkIn: int, checkOut: int, units: int, i: nat)
    requires WellFormed(rows) && i < |rows|
    ensures var q := GuestSelector(property, roomType);
            var (p, t, d) := (rows[i].property, rows[i].roomType.value, rows[i].day);
            EntryAt(Commit(rows, rows, q, checkIn, checkOut, units), p, t, d) ==
            EntryAfterReserve(Some(rows[i]), q, p == property && t == roomType && checkIn <= d < checkOut, d, units)
  {
    var q := GuestSelector(property, roomType);
    var out := Commit(rows, rows, q, checkIn, checkOut, units);
    CommitKeepsWellFormed(rows, property, roomType, checkIn, checkOut, units);
    if Selects(q, rows[i]) {
      FoundIsUnique(rows, q, i);
    }
    EntryIsRow(out, i, rows[i].property, rows[i].roomType.value);
  }

  lemma CommitNewEntry(rows: seq<Row>, property: Id, roomType: Id, checkIn: int, checkOut: int, units: int, d: int)
    requires WellFormed(rows)
    requires checkIn <= d < checkOut && FirstOn(rows, TypeLevel(property, roomType), d).None?
    ensures var q := GuestSelector(property, roomType);
            EntryAt(Commit(rows, rows, q, checkIn, checkOut, units), property, roomType, d) == Some(NewRow(q, d, units))
  {
    var q := GuestSelector(property, roomType);
    var created := NewRows(rows, q, checkIn, checkOut, units);
    CommitKeepsWellFormed(rows, property, roomType, checkIn, checkOut, units);
    NewRowsFillGaps(rows, q, checkIn, checkOut, units);
    GuestSeesTypeRow(rows, property, roomType, d);
    assert NewRow(q, d, units) in created;
    var k :| 0 <= k < |created| && created[k] == NewRow(q, d, units);
    EntryIsRow(Commit(rows, rows, q, checkIn, checkOut, units), |rows| + k, property, roomType);
  }

  lemma CommitNoEntry(rows: seq<Row>, property: Id, roomType: Id, checkIn: int, checkOut: int, units: int,
                      p: Id, t: Id, d: int)
    requires FirstOn(rows, TypeLevel(p, t), d).None?
    requires !(p == property && t == roomType && checkIn <= d < checkOut)
    ensures EntryAt(Commit(rows, rows, GuestSelector(property, roomType), checkIn, checkOut, units), p, t, d) == None
  {
    var q := GuestSelector(property, roomType);
    var created := NewRows(rows, q, checkIn, checkOut, units);
    NewRowsFillGaps(rows, q, checkIn, checkOut, units);
    var old' := Incremented(rows, rows, q, checkIn, checkOut, units);
    forall j | 0 <= j < |rows|
      ensures !Hit(TypeLevel(p, t), old'[j], d)
    {
      assert !Hit(TypeLevel(p, t), rows[j], d);
    }
    forall k | 0 <= k < |created|
      ensures !Hit(TypeLevel(p, t), created[k], d)
    {
      assert IsNewRow(created[k], rows, q, checkIn, checkOut, units);
    }
    NoneIn(old' + created, TypeLevel(p, t), d);
  }

  lemma NoneIn(rows: seq<Row>, q: Selector, d: int)
    requires forall j :: 0 <= j < |rows| ==> !Hit(q, rows[j], d)
    ensures FirstOn(rows, q, d) == None
  {
  }

  /** Some night of the stay, once reserved, would hold more units than it has. */
  ghost predicate OversoldOn(rows: seq<Row>, property: Id, roomType: Id, day: int) {
    var entry := EntryAt(rows, property, roomType, day);
    entry.Some? && entry.value.reserved > entry.value.inventory
  }

  /** The check is exact: a reservation is made exactly when making it oversells no night of the
      stay, and a refusal names the earliest night it would have oversold. */
  lemma ReserveIffNotOversold(rows: seq<Row>, property: Id, roomType: Id, checkIn: int, checkOut: int, units: int)
    requires WellFormed(rows)
    ensures var q := GuestSelector(property, roomType);
            var out := Commit(rows, rows, q, checkIn, checkOut, units);
            match Reserve(rows, q, checkIn, checkOut, units)
            case Ok(made) =>
              made == out && forall d :: checkIn <= d < checkOut ==> !OversoldOn(out, property, roomType, d)
            case Err(e) =>
              && e.NoAvailability? && checkIn <= e.day < checkOut && OversoldOn(out, property, roomType, e.day)
              && forall d :: checkIn <= d < e.day ==> !OversoldOn(out, property, roomType, d)
  {
    var q := GuestSelector(property, roomType);
    var out := Commit(rows, rows, q, checkIn, checkOut, units);
    forall d | checkIn <= d < checkOut
      ensures OversoldOn(out, property, roomType, d) <==> Free(rows, q, d) < units
    {
      CommitEntry(rows, property, roomType, checkIn, checkOut, units, property, roomType, d);
      GuestSeesTypeRow(rows, property, roomType, d);
    }
  }

  // ---------------------------------------------------------------- what a release does

  lemma ReleaseKeepsWellFormed(rows: seq<Row>, q: Selector, checkIn: int, checkOut: int, units: int)
    requires WellFormed(rows)
    ensures WellFormed(Release(rows, q, checkIn, checkOut, units))
  {
  }

  lemma ReleaseEntry(rows: seq<Row>, q: Selector, checkIn: int, checkOut: int, units: int, p: Id, t: Id, d: int)
    requires WellFormed(rows)
    ensures var before := EntryAt(rows, p, t, d);
            EntryAt(Release(rows, q, checkIn, checkOut, units), p, t, d) ==
            if before.Some? && Selects(q, before.value) && checkIn <= d < checkOut
            then Some(before.value.(reserved := before.value.reserved - units))
            else before
  {
    var out := Release(rows, q, checkIn, checkOut, units);
    var found := FirstOn(rows, TypeLevel(p, t), d);
    if found.Some? {
      EntryIsRow(out, found.value, p, t);
    }
  }

  // ---------------------------------------------------------------- what an upsert does

  lemma UpsertKeepsWellFormed(rows: seq<Row>, property: Id, e: CalendarEntry)
    requires WellFormed(rows)
    ensures WellFormed(Upsert(rows, property, e))
  {
  }

  /** Whatever the table, after an upsert a key has a row if it had one or is the entry's own. */
  lemma UpsertHasEntry(rows: seq<Row>, property: Id, e: CalendarEntry, t: Id, d: int)
    ensures EntryAt(Upsert(rows, property, e), property, t, d).Some? <==>
            EntryAt(rows, property, t, d).Some? || (t == e.roomType && d == e.day)
  {
    var (out, q) := (Upsert(rows, property, e), TypeLevel(property, t));
    var (before, own) := (FirstOn(rows, q, d), FirstOn(rows, TypeLevel(property, e.roomType), e.day));
    if before.Some? {
      assert Hit(q, out[before.value], d);
    }
    if t == e.roomType && d == e.day && own.None? {
      assert Hit(q, out[|rows|], d);
    }
    var after := FirstOn(out, q, d);
    if after.Some? && after.value < |rows| {
      assert Hit(q, rows[after.value], d);
    }
  }

  lemma UpsertEntry(rows: seq<Row>, property: Id, e: CalendarEntry, p: Id, t: Id, d: int)
    requires WellFormed(rows)
    ensures EntryAt(Upsert(rows, property, e), p, t, d) ==
            if p == property && t == e.roomType && d == e.day
            then match EntryAt(rows, p, t, d)
                 case Some(r) => Some(Overlaid(e, r))
                 case None => Some(Inserted(property, e))
            else EntryAt(rows, p, t, d)
  {
    UpsertKeepsWellFormed(rows, property, e);
    var out := Upsert(rows, property, e);
    var found := FirstOn(rows, TypeLevel(p, t), d);
    if found.Some? {
      EntryIsRow(out, found.value, p, t);
    } else if p == property && t == e.roomType && d == e.day {
      EntryIsRow(out, |rows|, p, t);
    }
  }

  /** A bulk upsert keeps the calendar well formed and never touches what is reserved. */
  lemma {:induction false} UpsertAllKeepsReserved(rows: seq<Row>, property: Id, entries: seq<CalendarEntry>)
    requires WellFormed(rows)
    ensures WellFormed(UpsertAll(rows, property, entries))
    ensures forall p, t, d :: ReservedAt(UpsertAll(rows, property, entries), p, t, d) == ReservedAt(rows, p, t, d)
  {
    if |entries| > 0 {
      var before := UpsertAll(rows, property, entries[..|entries| - 1]);
      var e := entries[|entries| - 1];
      UpsertAllKeepsReserved(rows, property, entries[..|entries| - 1]);
      UpsertKeepsWellFormed(before, property, e);
      forall p, t, d
        ensures ReservedAt(Upsert(before, property, e), p, t, d) == ReservedAt(rows, p, t, d)
      {
        UpsertEntry(before, property, e, p, t, d);
      }
    }
  }
}
