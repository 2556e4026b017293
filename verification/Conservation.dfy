/** When the calendar's `reserved` counts agree with the bookings, exactly which steps break
    that, and by how much. */
module Conservation {
  import opened Wrappers
  import opened HotelModel
  import opened Ledger
  import opened Engine
  import Lifecycle
  import Throughout

  /** The booking stands for one unit of the room type on the night. */
  ghost predicate Holds(b: Booking, p: Id, t: Id, d: int) {
    b.status != Cancelled && b.property == p && b.roomType == Some(t) && Covers(b, d)
  }

  ghost function Holders(bookings: map<Id, Booking>, p: Id, t: Id, d: int): set<Id> {
    set r | r in bookings && Holds(bookings[r], p, t, d)
  }

  /** Units reserved on a night beyond the bookings that hold it. */
  ghost function Gap(db: Db, p: Id, t: Id, d: int): int {
    ReservedAt(db.rows, p, t, d) - |Holders(db.bookings, p, t, d)|
  }

  /** Every calendar row says how many bookings hold its room type that night. */
  ghost predicate Conserved(db: Db) {
    forall p, t, d :: Gap(db, p, t, d) == 0
  }

  // ---------------------------------------------------------------- steps that drift

  /** Every check of create passes, but the generated reference is taken: the nights stay
      reserved and no booking holds them. */
  predicate CreateDrifts(db: Db, i: CreateInput) {
    && i.reference in db.bookings
    && FirstDay(i) < LastDay(i)
    && i.roomType in db.roomTypes && db.roomTypes[i.roomType].property == i.property
    && FirstFull(db.rows, GuestSelector(i.property, i.roomType), FirstDay(i), LastDay(i), 1).None?
  }

  /** Cancelling releases by the booking's current room and type. With a room pinned no
      calendar row matches; with no room type (a mirrored booking) rows of every type do. */
  predicate CancelDrifts(db: Db, r: Id) {
    && r in db.bookings
    && var b := db.bookings[r];
       && b.status != Cancelled
       && if b.roomType.Some? then b.room.Some? && b.checkIn < b.checkOut
          else b.room.None? && exists i :: 0 <= i < |db.rows| && db.rows[i].property == b.property && Covers(b, db.rows[i].day)
  }

  /** The guards of moveDates. */
  predicate Movable(db: Db, r: Id, checkIn: Option<int>, checkOut: Option<int>) {
    && checkIn.Some? && checkOut.Some? && checkIn.value < checkOut.value
    && r in db.bookings
    && var b := db.bookings[r];
       !Terminal(b) && (b.room.Some? ==> !Conflicts(db.bookings, r, b.room.value, checkIn.value, checkOut.value))
  }

  /** Moving an open, typed booking to other nights, its room being free on them, leaves its
      reservation behind. */
  predicate MoveDrifts(db: Db, r: Id, checkIn: Option<int>, checkOut: Option<int>) {
    && Movable(db, r, checkIn, checkOut)
    && var b := db.bookings[r];
       b.roomType.Some? && (checkIn.value != b.checkIn || checkOut.value != b.checkOut)
  }

  predicate Drifts(db: Db, s: Step) {
    match s
    case CreateStep(i) => CreateDrifts(db, i)
    case CancelStep(r) => CancelDrifts(db, r)
    case MoveStep(r, ci, co) => MoveDrifts(db, r, ci, co)
    case _ => false
  }

  // ---------------------------------------------------------------- counting

  ghost function One(c: bool): int {
    if c then 1 else 0
  }

  lemma WithOrWithout(all: set<Id>, others: set<Id>, r: Id)
    requires forall x :: x in others <==> x in all && x != r
    ensures |all| == |others| + One(r in all)
  {
    assert all == if r in all then others + {r} else others;
  }

  /** Replacing or adding one booking changes a night's count by that booking alone. */
  lemma HoldersAfter(bookings: map<Id, Booking>, r: Id, b: Booking, p: Id, t: Id, d: int)
    ensures |Holders(bookings[r := b], p, t, d)| ==
            |Holders(bookings, p, t, d)| + One(Holds(b, p, t, d)) - One(r in bookings && Holds(bookings[r], p, t, d))
  {
    var before := Holders(bookings, p, t, d);
    var after := Holders(bookings[r := b], p, t, d);
    var others := before - {r};
    forall x
      ensures x in others <==> x in after && x != r
    {
      if x != r && x in bookings {
        assert bookings[r := b][x] == bookings[x];
      }
    }
    WithOrWithout(before, others, r);
    WithOrWithout(after, others, r);
  }

  // ---------------------------------------------------------------- by how much a step slips

  /** The row cancel releases for the night, if it releases one. */
  ghost predicate Releases(db: Db, b: Booking, p: Id, t: Id, d: int) {
    var entry := EntryAt(db.rows, p, t, d);
    entry.Some? && Selects(CancelSelector(b), entry.value) && Covers(b, d)
  }

  /** By how many units a step lets the night's reserved count get ahead of its holders. */
  ghost function Slip(db: Db, s: Step, p: Id, t: Id, d: int): int {
    match s
    case CreateStep(i) => One(CreateDrifts(db, i) && p == i.property && t == i.roomType && FirstDay(i) <= d < LastDay(i))
    case CancelStep(r) =>
      if r !in db.bookings || db.bookings[r].status == Cancelled then 0
      else One(Holds(db.bookings[r], p, t, d)) - One(Releases(db, db.bookings[r], p, t, d))
    case MoveStep(r, ci, co) =>
      if !Movable(db, r, ci, co) then 0
      else
        var b := db.bookings[r];
        One(Holds(b, p, t, d)) - One(Holds(b.(checkIn := ci.value, checkOut := co.value), p, t, d))
    case _ => 0
  }

  /** With the calendar untouched, replacing a booking shifts the gap by what the two hold. */
  lemma ReplacedGap(db: Db, after: Db, r: Id, b: Booking, p: Id, t: Id, d: int)
    requires after.rows == db.rows && after.bookings == db.bookings[r := b]
    ensures Gap(after, p, t, d) == Gap(db, p, t, d) + One(r in db.bookings && Holds(db.bookings[r], p, t, d)) - One(Holds(b, p, t, d))
  {
    HoldersAfter(db.bookings, r, b, p, t, d);
  }

  /** A create that gets past its checks and finds room adds one to each night of the stay. */
  lemma CreateReserves(db: Db, i: CreateInput, p: Id, t: Id, d: int)
    requires WellFormed(db.rows) && (Create(db, i).Done? || CreateDrifts(db, i))
    ensures ReservedAt(Create(db, i).db.rows, p, t, d) ==
            ReservedAt(db.rows, p, t, d) + One(p == i.property && t == i.roomType && FirstDay(i) <= d < LastDay(i))
  {
    assert Create(db, i).db.rows == Commit(db.rows, db.rows, GuestSelector(i.property, i.roomType), FirstDay(i), LastDay(i), 1);
    CommitEntry(db.rows, i.property, i.roomType, FirstDay(i), LastDay(i), 1, p, t, d);
  }

  lemma CreateGap(db: Db, i: CreateInput, p: Id, t: Id, d: int)
    requires WellFormed(db.rows)
    ensures Gap(Create(db, i).db, p, t, d) == Gap(db, p, t, d) + Slip(db, CreateStep(i), p, t, d)
  {
    if Create(db, i).Done? {
      CreateReserves(db, i, p, t, d);
      HoldersAfter(db.bookings, i.reference, NewBooking(db, i), p, t, d);
    } else if CreateDrifts(db, i) {
      CreateReserves(db, i, p, t, d);
    }
  }

  lemma CancelGap(db: Db, r: Id, p: Id, t: Id, d: int)
    requires WellFormed(db.rows)
    ensures Gap(Cancel(db, r).db, p, t, d) == Gap(db, p, t, d) + Slip(db, CancelStep(r), p, t, d)
  {
    if r in db.bookings && db.bookings[r].status != Cancelled {
      var b := db.bookings[r];
      ReleaseEntry(db.rows, CancelSelector(b), b.checkIn, b.checkOut, 1, p, t, d);
      HoldersAfter(db.bookings, r, b.(status := Cancelled), p, t, d);
    }
  }

  lemma MoveGap(db: Db, r: Id, checkIn: Option<int>, checkOut: Option<int>, p: Id, t: Id, d: int)
    ensures Gap(MoveDates(db, r, checkIn, checkOut).db, p, t, d) ==
            Gap(db, p, t, d) + Slip(db, MoveStep(r, checkIn, checkOut), p, t, d)
  {
    var after := MoveDates(db, r, checkIn, checkOut);
    if after.Done? {
      ReplacedGap(db, after.db, r, after.db.bookings[r], p, t, d);
    }
  }

  /** Giving a room, checking in or out and claiming turn one booking without touching what it
      holds. */
  lemma UnmovedGap(db: Db, s: Step, r: Id, p: Id, t: Id, d: int)
    requires (s.AssignStep? && s.reference == r) || (s.CheckInStep? && s.reference == r)
             || (s.ClaimStep? && s.reference == r) || (s.CheckOutStep? && s.reference == r)
    ensures Gap(Perform(db, s).db, p, t, d) == Gap(db, p, t, d)
  {
    var after := Perform(db, s).db;
    if after != db {
      StepOnBooking(db, s, r);
      ReplacedGap(db, after, r, after.bookings[r], p, t, d);
    }
  }

  lemma UpsertGap(db: Db, property: Id, entries: seq<CalendarEntry>, p: Id, t: Id, d: int)
    requires WellFormed(db.rows)
    ensures Gap(BulkUpsert(db, property, entries).db, p, t, d) == Gap(db, p, t, d)
  {
    UpsertAllKeepsReserved(db.rows, property, entries);
  }

  /** The ledger of every step, whatever the state of the bookings: the gap of each night moves
      by the step's slip and by nothing else. */
  lemma StepGap(db: Db, s: Step, p: Id, t: Id, d: int)
    requires WellFormed(db.rows)
    ensures Gap(Perform(db, s).db, p, t, d) == Gap(db, p, t, d) + Slip(db, s, p, t, d)
  {
    match s
    case CreateStep(i) => CreateGap(db, i, p, t, d);
    case CancelStep(r) => CancelGap(db, r, p, t, d);
    case MoveStep(r, ci, co) => MoveGap(db, r, ci, co, p, t, d);
    case AssignStep(r, _) => UnmovedGap(db, s, r, p, t, d);
    case CheckInStep(r, _) => UnmovedGap(db, s, r, p, t, d);
    case ClaimStep(r, _, _) => UnmovedGap(db, s, r, p, t, d);
    case CheckOutStep(_, r, _) => UnmovedGap(db, s, r, p, t, d);
    case UpsertStep(property, entries) => UpsertGap(db, property, entries, p, t, d);
    case BlockStep(_, _, _, _, _, _) =>
    case UnblockStep(_) =>
  }

  lemma CreateKeepsWellFormed(db: Db, i: CreateInput)
    requires WellFormed(db.rows)
    ensures WellFormed(Create(db, i).db.rows)
  {
    CommitKeepsWellFormed(db.rows, i.property, i.roomType, FirstDay(i), LastDay(i), 1);
  }

  lemma CancelKeepsWellFormed(db: Db, r: Id)
    requires WellFormed(db.rows)
    ensures WellFormed(Cancel(db, r).db.rows)
  {
    if r in db.bookings {
      ReleaseKeepsWellFormed(db.rows, CancelSelector(db.bookings[r]), db.bookings[r].checkIn, db.bookings[r].checkOut, 1);
    }
  }

  lemma StepKeepsWellFormed(db: Db, s: Step)
    requires WellFormed(db.rows)
    ensures WellFormed(Perform(db, s).db.rows)
  {
    match s
    case CreateStep(i) => CreateKeepsWellFormed(db, i);
    case CancelStep(r) => CancelKeepsWellFormed(db, r);
    case UpsertStep(property, entries) => UpsertAllKeepsReserved(db.rows, property, entries);
    case _ => RowsUntouched(db, s);
  }

  // ---------------------------------------------------------------- which steps slip

  ghost predicate NeverSlips(db: Db, s: Step) {
    forall p, t, d :: Slip(db, s, p, t, d) == 0
  }

  /** On a night a booking holds, a conserved calendar has a row. */
  lemma HeldHasRow(db: Db, r: Id, p: Id, t: Id, d: int)
    requires Conserved(db) && r in db.bookings && Holds(db.bookings[r], p, t, d)
    ensures EntryAt(db.rows, p, t, d).Some?
  {
    assert Gap(db, p, t, d) == 0;
    assert r in Holders(db.bookings, p, t, d);
  }

  lemma CancelSlipsIff(db: Db, r: Id)
    requires WellFormed(db.rows) && Conserved(db)
    ensures NeverSlips(db, CancelStep(r)) <==> !CancelDrifts(db, r)
  {
    if CancelDrifts(db, r) {
      CancelSlips(db, r);
    } else if r in db.bookings && db.bookings[r].status != Cancelled {
      forall p, t, d
        ensures Slip(db, CancelStep(r), p, t, d) == 0
      {
        var entry := EntryAt(db.rows, p, t, d);
        assert entry.Some? ==> entry.value in db.rows;
        if Holds(db.bookings[r], p, t, d) {
          HeldHasRow(db, r, p, t, d);
        }
      }
    }
  }

  lemma CancelSlips(db: Db, r: Id)
    requires WellFormed(db.rows) && CancelDrifts(db, r)
    ensures !NeverSlips(db, CancelStep(r))
  {
    var b := db.bookings[r];
    if b.roomType.Some? {
      var entry := EntryAt(db.rows, b.property, b.roomType.value, b.checkIn);
      assert entry.Some? ==> entry.value in db.rows;
      assert Slip(db, CancelStep(r), b.property, b.roomType.value, b.checkIn) == 1;
    } else {
      var i :| 0 <= i < |db.rows| && db.rows[i].property == b.property && Covers(b, db.rows[i].day);
      var row := db.rows[i];
      EntryIsRow(db.rows, i, row.property, row.roomType.value);
      assert Slip(db, CancelStep(r), row.property, row.roomType.value, row.day) == -1;
    }
  }

  lemma MoveSlipsIff(db: Db, r: Id, checkIn: Option<int>, checkOut: Option<int>)
    ensures NeverSlips(db, MoveStep(r, checkIn, checkOut)) <==> !MoveDrifts(db, r, checkIn, checkOut)
  {
    if MoveDrifts(db, r, checkIn, checkOut) {
      var b := db.bookings[r];
      var moved := b.(checkIn := checkIn.value, checkOut := checkOut.value);
      SameNightsIff(b, moved);
      var p, t, d :| !HoldAlike(b, moved, p, t, d);
      assert Slip(db, MoveStep(r, checkIn, checkOut), p, t, d) != 0;
    }
  }

  ghost predicate HoldAlike(a: Booking, b: Booking, p: Id, t: Id, d: int) {
    Holds(a, p, t, d) <==> Holds(b, p, t, d)
  }

  /** The booking holds no night. */
  predicate Vacant(b: Booking) {
    b.status == Cancelled || b.checkOut <= b.checkIn
  }

  predicate SameNights(a: Booking, b: Booking) {
    if Vacant(a) || Vacant(b) then Vacant(a) && Vacant(b) else a.checkIn == b.checkIn && a.checkOut == b.checkOut
  }

  lemma SameNightsIff(a: Booking, b: Booking)
    requires a.property == b.property && a.roomType == b.roomType && a.roomType.Some?
    ensures (forall p, t, d :: HoldAlike(a, b, p, t, d)) <==> SameNights(a, b)
  {
    if !SameNights(a, b) {
      var d := if Vacant(a) then b.checkIn
               else if Vacant(b) then a.checkIn
               else if a.checkIn < b.checkIn then a.checkIn
               else if b.checkIn < a.checkIn then b.checkIn
               else if a.checkOut < b.checkOut then a.checkOut else b.checkOut;
      assert !HoldAlike(a, b, a.property, a.roomType.value, d);
    }
  }

  lemma StepSlipsIff(db: Db, s: Step)
    requires WellFormed(db.rows) && Conserved(db)
    ensures NeverSlips(db, s) <==> !Drifts(db, s)
  {
    match s
    case CreateStep(i) =>
      if CreateDrifts(db, i) {
        assert Slip(db, s, i.property, i.roomType, FirstDay(i)) == 1;
      }
    case CancelStep(r) => CancelSlipsIff(db, r);
    case MoveStep(r, ci, co) => MoveSlipsIff(db, r, ci, co);
    case _ =>
  }

  /** A step keeps the ledger conserved if and only if it is none of the drifting ones. */
  lemma StepConservesIff(db: Db, s: Step)
    requires WellFormed(db.rows) && Conserved(db)
    ensures WellFormed(Perform(db, s).db.rows)
    ensures Conserved(Perform(db, s).db) <==> !Drifts(db, s)
  {
    StepKeepsWellFormed(db, s);
    StepSlipsIff(db, s);
    forall p, t, d
      ensures Gap(Perform(db, s).db, p, t, d) == Slip(db, s, p, t, d)
    {
      StepGap(db, s, p, t, d);
      assert Gap(db, p, t, d) == 0;
    }
  }

  // ---------------------------------------------------------------- whole runs

  /** All the slips of a run on one night. */
  ghost function Slips(db: Db, steps: seq<Step>, p: Id, t: Id, d: int): int {
    if |steps| == 0 then 0
    else
      var front := steps[..|steps| - 1];
      Slips(db, front, p, t, d) + Slip(Run(db, front), steps[|steps| - 1], p, t, d)
  }

  lemma {:induction false} RunKeepsWellFormed(db: Db, steps: seq<Step>)
    requires WellFormed(db.rows)
    ensures WellFormed(Run(db, steps).rows)
  {
    if |steps| > 0 {
      RunKeepsWellFormed(db, steps[..|steps| - 1]);
      StepKeepsWellFormed(Run(db, steps[..|steps| - 1]), steps[|steps| - 1]);
    }
  }

  /** The books of any run, drifting or not: each night ends off by exactly what its steps
      slipped. */
  lemma {:induction false} RunGap(db: Db, steps: seq<Step>, p: Id, t: Id, d: int)
    requires WellFormed(db.rows)
    ensures Gap(Run(db, steps), p, t, d) == Gap(db, p, t, d) + Slips(db, steps, p, t, d)
  {
    if |steps| > 0 {
      var front := steps[..|steps| - 1];
      RunGap(db, front, p, t, d);
      RunKeepsWellFormed(db, front);
      StepGap(Run(db, front), steps[|steps| - 1], p, t, d);
    }
  }

  lemma FreshIsConserved(db: Db)
    requires Fresh(db)
    ensures WellFormed(db.rows) && Conserved(db)
  {
  }

  ghost predicate ConservedAfter(db: Db, steps: seq<Step>, k: nat)
    requires k <= |steps|
  {
    Conserved(Run(db, steps[..k]))
  }

  ghost predicate DriftsAt(db: Db, steps: seq<Step>, k: nat)
    requires k < |steps|
  {
    Drifts(Run(db, steps[..k]), steps[k])
  }

  ghost predicate NeverDrifts(db: Db, steps: seq<Step>) {
    forall k :: 0 <= k < |steps| ==> !DriftsAt(db, steps, k)
  }

  /** Conservation over whole runs, exactly: from a conserved calendar, such as that of a hotel
      that has sold nothing, it is conserved at every point of a run if and only if none of its
      steps drifts. */
  lemma RunConservesIff(db: Db, steps: seq<Step>)
    requires WellFormed(db.rows) && Conserved(db)
    ensures (forall k :: 0 <= k <= |steps| ==> ConservedAfter(db, steps, k)) <==> NeverDrifts(db, steps)
  {
    var good := k => 0 <= k <= |steps| && ConservedAfter(db, steps, k);
    var fits := k => 0 <= k < |steps| && !DriftsAt(db, steps, k);
    forall k | 0 <= k < |steps| && good(k)
      ensures good(k + 1) <==> fits(k)
    {
      Engine.RunOneMore(db, steps, k);
      RunKeepsWellFormed(db, steps[..k]);
      StepConservesIff(Run(db, steps[..k]), steps[k]);
    }
    Throughout.GoodThroughoutIff(good, fits, |steps|);
    assert forall k :: 0 <= k <= |steps| ==> (good(k) <==> ConservedAfter(db, steps, k));
    assert forall k :: 0 <= k < |steps| ==> (fits(k) <==> !DriftsAt(db, steps, k));
  }

  // ---------------------------------------------------------------- every drift is within reach

  /** A hotel without calendar rows sells any stay of at least a night. */
  lemma UnsoldHotelSells(db: Db, i: CreateInput)
    requires Fresh(db) && db.rows == [] && FirstDay(i) < LastDay(i)
    requires i.roomType in db.roomTypes && db.roomTypes[i.roomType].property == i.property
    ensures Create(db, i).Done?
  {
  }

  lemma Appended(db: Db, steps: seq<Step>, s: Step)
    ensures Run(db, steps + [s]) == Perform(Run(db, steps), s).db
  {
    assert (steps + [s])[..|steps|] == steps;
  }

  lemma RunTwo(db: Db, a: Step, b: Step)
    ensures Run(db, [a, b]) == Perform(Perform(db, a).db, b).db
  {
    Appended(db, [], a);
    Appended(db, [a], b);
    assert [] + [a] == [a] && [a] + [b] == [a, b];
  }

  lemma RunThree(db: Db, a: Step, b: Step, c: Step)
    ensures Run(db, [a, b, c]) == Perform(Perform(Perform(db, a).db, b).db, c).db
  {
    RunTwo(db, a, b);
    Appended(db, [a, b], c);
    assert [a, b] + [c] == [a, b, c];
  }

  /** The first sale of an unsold hotel is conserved. */
  lemma FirstSale(db: Db, i: CreateInput)
    requires Fresh(db) && Create(db, i).Done?
    ensures WellFormed(Create(db, i).db.rows) && Conserved(Create(db, i).db)
    ensures Create(db, i).db.bookings == map[i.reference := NewBooking(db, i)]
  {
    FreshIsConserved(db);
    StepConservesIff(db, CreateStep(i));
  }

  lemma PinFirstSale(sold: Db, i: CreateInput, m: Id, b: Booking)
    requires WellFormed(sold.rows) && Conserved(sold) && sold.bookings == map[i.reference := b]
    requires b.status == Pending && b.property == i.property && b.roomType == Some(i.roomType)
    requires m in sold.rooms && sold.rooms[m] == Room(i.property, i.roomType)
    ensures var pinned := AssignRoom(sold, i.reference, Some(m));
            && pinned.Done? && WellFormed(pinned.db.rows) && Conserved(pinned.db)
            && pinned.db.bookings == map[i.reference := b.(room := Some(m))]
  {
    StepConservesIff(sold, AssignStep(i.reference, Some(m)));
  }

  lemma PinnedSaleCancelled(pinned: Db, r: Id)
    requires WellFormed(pinned.rows) && Conserved(pinned) && CancelDrifts(pinned, r)
    ensures !Conserved(Cancel(pinned, r).db)
  {
    StepConservesIff(pinned, CancelStep(r));
  }

  /** Selling a stay, giving it a room that fits it and cancelling it always drifts. */
  lemma PinnedCancelDrifts(db: Db, i: CreateInput, m: Id)
    requires Fresh(db) && Create(db, i).Done?
    requires m in db.rooms && db.rooms[m] == Room(i.property, i.roomType)
    ensures !Conserved(Run(db, [CreateStep(i), AssignStep(i.reference, Some(m)), CancelStep(i.reference)]))
  {
    FirstSale(db, i);
    var sold := Create(db, i).db;
    PinFirstSale(sold, i, m, NewBooking(db, i));
    PinnedSaleCancelled(AssignRoom(sold, i.reference, Some(m)).db, i.reference);
    RunThree(db, CreateStep(i), AssignStep(i.reference, Some(m)), CancelStep(i.reference));
  }

  lemma FirstSaleMoves(sold: Db, r: Id, b: Booking, checkIn: int, checkOut: int)
    requires WellFormed(sold.rows) && Conserved(sold) && sold.bookings == map[r := b]
    requires b.status == Pending && b.roomType.Some? && b.room.None?
    requires checkIn < checkOut && (checkIn != b.checkIn || checkOut != b.checkOut)
    ensures !Conserved(MoveDates(sold, r, Some(checkIn), Some(checkOut)).db)
  {
    StepConservesIff(sold, MoveStep(r, Some(checkIn), Some(checkOut)));
  }

  /** So does selling a stay and moving it to any other dates. */
  lemma MovedStayDrifts(db: Db, i: CreateInput, checkIn: int, checkOut: int)
    requires Fresh(db) && Create(db, i).Done?
    requires checkIn < checkOut && (checkIn != FirstDay(i) || checkOut != LastDay(i))
    ensures !Conserved(Run(db, [CreateStep(i), MoveStep(i.reference, Some(checkIn), Some(checkOut))]))
  {
    FirstSale(db, i);
    FirstSaleMoves(Create(db, i).db, i.reference, NewBooking(db, i), checkIn, checkOut);
    RunTwo(db, CreateStep(i), MoveStep(i.reference, Some(checkIn), Some(checkOut)));
  }

  lemma LaterIsFree(db: Db, i: CreateInput, d: int)
    requires Fresh(db) && db.rows == [] && Create(db, i).Done? && LastDay(i) <= d
    requires WellFormed(Create(db, i).db.rows)
    ensures Free(Create(db, i).db.rows, GuestSelector(i.property, i.roomType), d) == 1
  {
    CommitEntry(db.rows, i.property, i.roomType, FirstDay(i), LastDay(i), 1, i.property, i.roomType, d);
    GuestSeesTypeRow(Create(db, i).db.rows, i.property, i.roomType, d);
  }

  /** And so does selling another stay, later in a calendar still empty, under the same reference. */
  lemma ReusedReferenceDrifts(db: Db, i: CreateInput, j: CreateInput)
    requires Fresh(db) && db.rows == [] && FirstDay(i) < LastDay(i)
    requires i.roomType in db.roomTypes && db.roomTypes[i.roomType].property == i.property
    requires j.reference == i.reference && j.property == i.property && j.roomType == i.roomType
    requires LastDay(i) <= FirstDay(j) < LastDay(j)
    ensures Create(Create(db, i).db, j) == Refused(Run(db, [CreateStep(i), CreateStep(j)]), DuplicateReference)
    ensures !Conserved(Run(db, [CreateStep(i), CreateStep(j)]))
  {
    UnsoldHotelSells(db, i);
    FirstSale(db, i);
    forall d | FirstDay(j) <= d < LastDay(j)
      ensures Free(Create(db, i).db.rows, GuestSelector(i.property, i.roomType), d) >= 1
    {
      LaterIsFree(db, i, d);
    }
    StepConservesIff(Create(db, i).db, CreateStep(j));
    RunTwo(db, CreateStep(i), CreateStep(j));
  }

  // ---------------------------------------------------------------- reading the rows

  /** In a conserved state what a row says is reserved is a number of bookings, so it is never
      negative, and it is zero once every booking of that night is cancelled. */
  lemma RowsCountBookings(db: Db, i: nat)
    requires WellFormed(db.rows) && Conserved(db) && i < |db.rows|
    ensures db.rows[i].roomType.Some?
    ensures db.rows[i].reserved == |Holders(db.bookings, db.rows[i].property, db.rows[i].roomType.value, db.rows[i].day)|
  {
    var row := db.rows[i];
    EntryIsRow(db.rows, i, row.property, row.roomType.value);
    assert Gap(db, row.property, row.roomType.value, row.day) == 0;
  }

  /** A booking is released at most once: after it has been cancelled, and whatever happens
      next, cancelling it again changes nothing. */
  lemma ReleasedAtMostOnce(db: Db, r: Id, steps: seq<Step>)
    requires r in db.bookings
    ensures var later := Run(Cancel(db, r).db, steps);
            Cancel(later, r) == Done(later)
  {
    Lifecycle.BookingsOnlyMoveOn(Cancel(db, r).db, steps, r);
  }
}
