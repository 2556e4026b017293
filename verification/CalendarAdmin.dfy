/** A bulk upsert in closed form: per room type and day, its entries act as one. */
module CalendarAdmin {
  import opened Wrappers
  import opened HotelModel
  import opened Ledger
  import opened Engine
  import Numbers
  import PublicView

  /** Two entries for one day, the later one speaking last on every field it gives. */
  function Merged(first: CalendarEntry, second: CalendarEntry): CalendarEntry {
    CalendarEntry(first.roomType, first.day, second.inventory.OrElse(first.inventory), second.price.After(first.price),
                  second.currency.After(first.currency), second.closeOut.OrElse(first.closeOut),
                  second.minStay.After(first.minStay), second.maxStay.After(first.maxStay))
  }

  /** All that a list of entries says about one room type on one day. */
  function Said(entries: seq<CalendarEntry>, t: Id, d: int): Option<CalendarEntry> {
    if |entries| == 0 then None
    else
      var sofar, e := Said(entries[..|entries| - 1], t, d), entries[|entries| - 1];
      if e.roomType != t || e.day != d then sofar
      else if sofar.Some? then Some(Merged(sofar.value, e))
      else Some(e)
  }

  /** The entry left behind, from the entry before and what was said about it. */
  function EntryAfter(before: Option<Row>, property: Id, said: Option<CalendarEntry>): Option<Row> {
    if said.None? then before
    else if before.Some? then Some(Overlaid(said.value, before.value))
    else Some(Inserted(property, said.value))
  }

  lemma {:induction false} SaidKey(entries: seq<CalendarEntry>, t: Id, d: int)
    ensures var said := Said(entries, t, d); said.Some? ==> said.value.roomType == t && said.value.day == d
  {
    if |entries| > 0 {
      SaidKey(entries[..|entries| - 1], t, d);
    }
  }

  /** One room type and day sees only what was said about it, merged field by field. */
  lemma {:induction false} BulkUpsertInClosedForm(rows: seq<Row>, property: Id, entries: seq<CalendarEntry>, p: Id, t: Id, d: int)
    requires WellFormed(rows)
    ensures EntryAt(UpsertAll(rows, property, entries), p, t, d) ==
            EntryAfter(EntryAt(rows, p, t, d), property, if p == property then Said(entries, t, d) else None)
  {
    if |entries| > 0 {
      var front, e := entries[..|entries| - 1], entries[|entries| - 1];
      BulkUpsertInClosedForm(rows, property, front, p, t, d);
      UpsertAllKeepsReserved(rows, property, front);
      UpsertEntry(UpsertAll(rows, property, front), property, e, p, t, d);
      SaidKey(front, t, d);
      if Said(front, t, d).Some? && e.roomType == t && e.day == d {
        MergedActsAsBoth(EntryAt(rows, p, t, d), property, Said(front, t, d).value, e);
      }
    }
  }

  /** Two entries one after the other do what their merger does. */
  lemma MergedActsAsBoth(before: Option<Row>, property: Id, first: CalendarEntry, second: CalendarEntry)
    requires first.roomType == second.roomType && first.day == second.day
    ensures EntryAfter(before, property, Some(Merged(first, second))) ==
            EntryAfter(EntryAfter(before, property, Some(first)), property, Some(second))
  {
  }

  /** Saving the same sheet of entries again changes nothing anywhere in the calendar. */
  lemma BulkUpsertIsIdempotent(rows: seq<Row>, property: Id, entries: seq<CalendarEntry>, p: Id, t: Id, d: int)
    requires WellFormed(rows)
    ensures var once := UpsertAll(rows, property, entries);
            EntryAt(UpsertAll(once, property, entries), p, t, d) == EntryAt(once, p, t, d)
  {
    UpsertAllKeepsReserved(rows, property, entries);
    BulkUpsertInClosedForm(rows, property, entries, p, t, d);
    BulkUpsertInClosedForm(UpsertAll(rows, property, entries), property, entries, p, t, d);
  }

  // ---------------------------------------------------------------- what is saved is shown

  /** What a field makes of a shown value: null shows the room type's own again. */
  function Shown<T>(said: Field<T>, before: T, own: T): T {
    match said
    case Absent => before
    case Null => own
    case Given(v) => v
  }

  /** What the sheet said about the day overrides what the day showed. */
  ghost predicate ShowsWhatWasSaid(
      before: PublicView.DayView, after: PublicView.DayView, entry: Option<Row>, rt: RoomType, e: CalendarEntry)
  {
    && after.price == Shown(e.price, before.price, rt.basePrice)
    && after.currency == Shown(e.currency, if entry.Some? then before.currency else "USD", rt.currency)
    && after.closeOut == e.closeOut.GetOr(before.closeOut)
    && after.minStay == (if e.minStay.Given? then Some(e.minStay.value) else if e.minStay.Null? then None else before.minStay)
    && after.maxStay == (if e.maxStay.Given? then Some(e.maxStay.value) else if e.maxStay.Null? then None else before.maxStay)
    && after.blocked == before.blocked
    && after.available == if after.blocked || after.closeOut then 0 else Offered(entry, e.inventory)
  }

  /** The inventory saved, or else the one there was, less what is reserved. */
  function Offered(entry: Option<Row>, inventory: Option<int>): int {
    match entry
    case Some(r) => Numbers.Max(0, inventory.GetOr(r.inventory) - r.reserved)
    case None => Numbers.Max(0, inventory.GetOr(1))
  }

  lemma SaidIsShown(entry: Option<Row>, property: Id, rt: RoomType, blocked: bool, said: CalendarEntry)
    ensures ShowsWhatWasSaid(PublicView.DayPayload(entry, rt, blocked),
                             PublicView.DayPayload(EntryAfter(entry, property, Some(said)), rt, blocked), entry, rt, said)
  {
  }

  /** A sheet that needs a row for a property or room type that does not exist changes nothing.
      Of any other the website shows every field an administrator saved, the last word on each
      counting, and keeps showing what it showed for the fields left out and the days not
      mentioned. The currency of a day that had no row is the exception: left out, it becomes
      the schema's "USD" whatever the room type is sold in. */
  lemma SavedIsShown(db: Db, property: Id, entries: seq<CalendarEntry>, p: Id, t: Id, d: int)
    requires WellFormed(db.rows) && t in db.roomTypes
    ensures BulkUpsert(db, property, entries).Done? <==> forall e :: e in entries ==>
              EntryAt(db.rows, property, e.roomType, e.day).Some? || (property in db.properties && e.roomType in db.roomTypes)
    ensures var before := PublicView.DayAt(db, p, t, d);
            var after := PublicView.DayAt(BulkUpsert(db, property, entries).db, p, t, d);
            var said := if BulkUpsert(db, property, entries).Done? && p == property then Said(entries, t, d) else None;
            if said.None? then after == before
            else ShowsWhatWasSaid(before, after, EntryAt(db.rows, p, t, d), db.roomTypes[t], said.value)
  {
    assert forall e :: EntryError(db, property, e) == None <==>
      EntryAt(db.rows, property, e.roomType, e.day).Some? || (property in db.properties && e.roomType in db.roomTypes);
    BulkUpsertInClosedForm(db.rows, property, entries, p, t, d);
    var said := Said(entries, t, d);
    if said.Some? {
      SaidIsShown(EntryAt(db.rows, p, t, d), property, db.roomTypes[t], PublicView.Blocked(db, p, t, d), said.value);
    }
    PublicView.SameBlocksSameDays(BulkUpsert(db, property, entries).db, db, p, t, d);
  }
}
