/** When a night ends up with more units reserved than it has, over whole runs, and what a
    drifted calendar lets through. */
module Overselling {
  import opened Wrappers
  import opened HotelModel
  import opened Ledger
  import opened Engine
  import CalendarAdmin
  import Conservation
  import Numbers
  import PublicView
  import Throughout

  /** The administrator's sheet cuts the inventory of the night below what is reserved. */
  predicate CutsBelow(db: Db, s: Step, p: Id, t: Id, d: int) {
    && s.UpsertStep? && s.property == p && BulkUpsert(db, p, s.entries).Done?
    && var said := CalendarAdmin.Said(s.entries, t, d);
       said.Some? && said.value.inventory.Some? && said.value.inventory.value < ReservedAt(db.rows, p, t, d)
  }

  lemma CreateOversellsNothing(db: Db, i: CreateInput, p: Id, t: Id, d: int)
    requires WellFormed(db.rows) && !OversoldOn(db.rows, p, t, d)
    ensures !OversoldOn(Create(db, i).db.rows, p, t, d)
  {
    var q := GuestSelector(i.property, i.roomType);
    if Reserve(db.rows, q, FirstDay(i), LastDay(i), 1).Ok? {
      CommitEntry(db.rows, i.property, i.roomType, FirstDay(i), LastDay(i), 1, p, t, d);
      ReserveIffNotOversold(db.rows, i.property, i.roomType, FirstDay(i), LastDay(i), 1);
    }
  }

  lemma CancelOversellsNothing(db: Db, r: Id, p: Id, t: Id, d: int)
    requires WellFormed(db.rows) && !OversoldOn(db.rows, p, t, d)
    ensures !OversoldOn(Cancel(db, r).db.rows, p, t, d)
  {
    if r in db.bookings && db.bookings[r].status != Cancelled {
      var b := db.bookings[r];
      ReleaseEntry(db.rows, CancelSelector(b), b.checkIn, b.checkOut, 1, p, t, d);
    }
  }

  lemma UpsertOversellsIff(db: Db, s: Step, p: Id, t: Id, d: int)
    requires WellFormed(db.rows) && !OversoldOn(db.rows, p, t, d) && s.UpsertStep?
    ensures OversoldOn(Perform(db, s).db.rows, p, t, d) <==> CutsBelow(db, s, p, t, d)
  {
    CalendarAdmin.BulkUpsertInClosedForm(db.rows, s.property, s.entries, p, t, d);
  }

  /** Among the calls made one at a time only an administrator can oversell a night, and only by
      cutting its inventory below what is reserved. */
  lemma StepOversellsIff(db: Db, s: Step, p: Id, t: Id, d: int)
    requires WellFormed(db.rows) && !OversoldOn(db.rows, p, t, d)
    ensures OversoldOn(Perform(db, s).db.rows, p, t, d) <==> CutsBelow(db, s, p, t, d)
  {
    match s
    case CreateStep(i) => CreateOversellsNothing(db, i, p, t, d);
    case CancelStep(r) => CancelOversellsNothing(db, r, p, t, d);
    case UpsertStep(_, _) => UpsertOversellsIff(db, s, p, t, d);
    case _ => RowsUntouched(db, s);
  }

  ghost predicate OversoldAfter(db: Db, steps: seq<Step>, k: nat, p: Id, t: Id, d: int)
    requires k <= |steps|
  {
    OversoldOn(Run(db, steps[..k]).rows, p, t, d)
  }

  ghost predicate CutsAt(db: Db, steps: seq<Step>, k: nat, p: Id, t: Id, d: int)
    requires k < |steps|
  {
    CutsBelow(Run(db, steps[..k]), steps[k], p, t, d)
  }

  /** Over whole runs, drifting ones included: a night is never oversold if and only if no sheet
      cuts it below what is reserved at its time. */
  lemma RunOversellsIff(db: Db, steps: seq<Step>, p: Id, t: Id, d: int)
    requires WellFormed(db.rows) && !OversoldOn(db.rows, p, t, d)
    ensures (forall k :: 0 <= k <= |steps| ==> !OversoldAfter(db, steps, k, p, t, d)) <==>
            (forall k :: 0 <= k < |steps| ==> !CutsAt(db, steps, k, p, t, d))
  {
    var good := k => 0 <= k <= |steps| && !OversoldAfter(db, steps, k, p, t, d);
    var fits := k => 0 <= k < |steps| && !CutsAt(db, steps, k, p, t, d);
    forall k | 0 <= k < |steps| && good(k)
      ensures good(k + 1) <==> fits(k)
    {
      RunOneMore(db, steps, k);
      Conservation.RunKeepsWellFormed(db, steps[..k]);
      StepOversellsIff(Run(db, steps[..k]), steps[k], p, t, d);
    }
    Throughout.GoodThroughoutIff(good, fits, |steps|);
    assert forall k :: 0 <= k <= |steps| ==> (good(k) <==> !OversoldAfter(db, steps, k, p, t, d));
    assert forall k :: 0 <= k < |steps| ==> (fits(k) <==> !CutsAt(db, steps, k, p, t, d));
  }

  function InventoryAt(rows: seq<Row>, p: Id, t: Id, d: int): int {
    match EntryAt(rows, p, t, d)
    case Some(r) => r.inventory
    case None => 0
  }

  /** So bookings never outnumber the units of a night: after any run that neither drifts nor
      cuts the night, its holders fit its inventory, from a hotel that has sold nothing. */
  lemma HoldersFitInventory(db: Db, steps: seq<Step>, p: Id, t: Id, d: int)
    requires Fresh(db) && !OversoldOn(db.rows, p, t, d)
    requires Conservation.NeverDrifts(db, steps)
    requires forall k :: 0 <= k < |steps| ==> !CutsAt(db, steps, k, p, t, d)
    ensures var now := Run(db, steps);
            |Conservation.Holders(now.bookings, p, t, d)| <= InventoryAt(now.rows, p, t, d)
  {
    var now := Run(db, steps);
    Conservation.FreshIsConserved(db);
    Conservation.RunConservesIff(db, steps);
    RunOversellsIff(db, steps, p, t, d);
    assert steps[..|steps|] == steps;
    assert Conservation.ConservedAfter(db, steps, |steps|) && !OversoldAfter(db, steps, |steps|, p, t, d);
    assert Conservation.Gap(now, p, t, d) == 0;
  }

  // ---------------------------------------------------------------- what drift lets through

  /** Selling a stay, moving it and cancelling it. */
  function SoldMovedCancelled(i: CreateInput, checkIn: int, checkOut: int): seq<Step> {
    [CreateStep(i), MoveStep(i.reference, Some(checkIn), Some(checkOut)), CancelStep(i.reference)]
  }

  lemma MovedBooking(db: Db, i: CreateInput, checkIn: int, checkOut: int)
    requires Fresh(db) && Create(db, i).Done? && checkIn < checkOut
    ensures var moved := MoveDates(Create(db, i).db, i.reference, Some(checkIn), Some(checkOut));
            && moved.Done? && moved.db == Create(db, i).db.(bookings := moved.db.bookings)
            && i.reference in moved.db.bookings
            && var b := moved.db.bookings[i.reference];
               && b.checkIn == checkIn && b.checkOut == checkOut && b.status == Pending
               && CancelSelector(b) == GuestSelector(i.property, i.roomType)
  {
  }

  lemma SoldMovedCancelledTables(db: Db, i: CreateInput, checkIn: int, checkOut: int)
    requires Fresh(db) && Create(db, i).Done? && checkIn < checkOut
    ensures var q := GuestSelector(i.property, i.roomType);
            var now := Run(db, SoldMovedCancelled(i, checkIn, checkOut));
            && now.rows == Release(Commit(db.rows, db.rows, q, FirstDay(i), LastDay(i), 1), q, checkIn, checkOut, 1)
            && now.blocks == db.blocks && now.rooms == db.rooms && now.roomTypes == db.roomTypes
  {
    Conservation.RunThree(db, CreateStep(i), MoveStep(i.reference, Some(checkIn), Some(checkOut)), CancelStep(i.reference));
    MovedBooking(db, i, checkIn, checkOut);
    SoldThenCancelledBlocks(db, i);
  }

  lemma SoldThenCancelledBlocks(db: Db, i: CreateInput)
    requires Fresh(db) && Create(db, i).Done?
    ensures Create(db, i).db.rows == Commit(db.rows, db.rows, GuestSelector(i.property, i.roomType), FirstDay(i), LastDay(i), 1)
    ensures WithoutBookingBlocks(Create(db, i).db.blocks, i.reference) == db.blocks
  {
  }

  /** The entry a reservation and a release of one unit leave, where each covers the day. */
  function EntryAfterBoth(before: Option<Row>, q: Selector, made: bool, released: bool, d: int): Option<Row> {
    var reserved := EntryAfterReserve(before, q, made, d, 1);
    if reserved.Some? && released then Some(reserved.value.(reserved := reserved.value.reserved - 1)) else reserved
  }

  lemma UnsoldAfterBoth(before: Option<Row>, q: Selector, made: bool, released: bool, d: int)
    requires before.Some? ==> before.value.reserved == 0
    ensures released && !made && before.Some? ==>
              EntryAfterBoth(before, q, made, released, d) == Some(before.value.(reserved := -1))
    ensures made && !released ==>
              var after := EntryAfterBoth(before, q, made, released, d);
              after.Some? && after.value.reserved == 1
  {
  }

  /** A reservation of one stay and the release of another, on one entry of their room type. */
  lemma CommitThenRelease(rows: seq<Row>, p: Id, t: Id, from: int, to: int, checkIn: int, checkOut: int, d: int)
    requires WellFormed(rows)
    ensures var q := GuestSelector(p, t);
            EntryAt(Release(Commit(rows, rows, q, from, to, 1), q, checkIn, checkOut, 1), p, t, d) ==
            EntryAfterBoth(EntryAt(rows, p, t, d), q, from <= d < to, checkIn <= d < checkOut, d)
  {
    CommitKeepsWellFormed(rows, p, t, from, to, 1);
    CommitEntry(rows, p, t, from, to, 1, p, t, d);
    ReleaseEntry(Commit(rows, rows, GuestSelector(p, t), from, to, 1), GuestSelector(p, t), checkIn, checkOut, 1, p, t, d);
  }

  /** The rows such a run leaves: on a night moved to, a unit is given back that was never
      taken; on a night moved from, a unit stays taken. */
  lemma MovedCancelEntry(db: Db, i: CreateInput, checkIn: int, checkOut: int, d: int)
    requires Fresh(db) && Create(db, i).Done? && checkIn < checkOut
    ensures var before := EntryAt(db.rows, i.property, i.roomType, d);
            var after := EntryAt(Run(db, SoldMovedCancelled(i, checkIn, checkOut)).rows, i.property, i.roomType, d);
            && (checkIn <= d < checkOut && !(FirstDay(i) <= d < LastDay(i)) && before.Some? ==>
                  after == Some(before.value.(reserved := -1)))
            && (FirstDay(i) <= d < LastDay(i) && !(checkIn <= d < checkOut) ==> after.Some? && after.value.reserved == 1)
  {
    SoldMovedCancelledTables(db, i, checkIn, checkOut);
    CommitThenRelease(db.rows, i.property, i.roomType, FirstDay(i), LastDay(i), checkIn, checkOut, d);
    UnsoldEntry(db, i.property, i.roomType, d);
    UnsoldAfterBoth(EntryAt(db.rows, i.property, i.roomType, d), GuestSelector(i.property, i.roomType),
                    FirstDay(i) <= d < LastDay(i), checkIn <= d < checkOut, d);
  }

  lemma UnsoldEntry(db: Db, p: Id, t: Id, d: int)
    requires Fresh(db)
    ensures EntryAt(db.rows, p, t, d).Some? ==> EntryAt(db.rows, p, t, d).value.reserved == 0
  {
  }

  /** The worst a drift does: with no booking left at all, a night moved to that had a row and is
      open is offered to the public with one unit more than it has. */
  lemma MovedCancelOffersTooMuch(db: Db, i: CreateInput, checkIn: int, checkOut: int, d: int)
    requires Fresh(db) && Create(db, i).Done?
    requires checkIn <= d < checkOut && !(FirstDay(i) <= d < LastDay(i))
    requires var before := EntryAt(db.rows, i.property, i.roomType, d);
             before.Some? && !before.value.closeOut && !PublicView.Blocked(db, i.property, i.roomType, d)
    ensures var now := Run(db, SoldMovedCancelled(i, checkIn, checkOut));
            && i.roomType in now.roomTypes
            && PublicView.DayAt(now, i.property, i.roomType, d).available ==
               Numbers.Max(0, EntryAt(db.rows, i.property, i.roomType, d).value.inventory + 1)
  {
    var now := Run(db, SoldMovedCancelled(i, checkIn, checkOut));
    SoldMovedCancelledTables(db, i, checkIn, checkOut);
    MovedCancelEntry(db, i, checkIn, checkOut, d);
    PublicView.SameBlocksSameDays(now, db, i.property, i.roomType, d);
  }
}
