/** No run of the reservation engine puts two parties in one room on one night. */
module NoOverlap {
  import opened Wrappers
  import opened HotelModel
  import opened Engine

  ghost predicate Clash(a: Booking, b: Booking) {
    Active(a) && Active(b) && a.room.Some? && a.room == b.room && a.checkIn < b.checkOut && b.checkIn < a.checkOut
  }

  ghost predicate ClashFree(bookings: map<Id, Booking>) {
    forall r, s :: r in bookings && s in bookings && r != s ==> !Clash(bookings[r], bookings[s])
  }

  ghost predicate WellPinned(db: Db, b: Booking) {
    b.room.Some? ==>
      && b.room.value in db.rooms
      && db.rooms[b.room.value].property == b.property
      && Some(db.rooms[b.room.value].roomType) == b.roomType
  }

  /** The stay is not empty and its night count says how long it is. */
  ghost predicate WellDated(b: Booking) {
    b.checkIn < b.checkOut && b.nights == b.checkOut - b.checkIn
  }

  ghost predicate Sound(db: Db, b: Booking) {
    WellDated(b) && WellPinned(db, b)
  }

  ghost predicate RoomsSound(db: Db) {
    && (forall r :: r in db.bookings ==> Sound(db, db.bookings[r]))
    && ClashFree(db.bookings)
  }

  // ---------------------------------------------------------------- replacing one booking

  /** The overlap query says a booking may stand where it stands: it holds no room, keeps
      nobody out, or no other active booking of its room meets its dates. */
  predicate Clear(bookings: map<Id, Booking>, reference: Id, b: Booking) {
    !Active(b) || b.room.None? || !Conflicts(bookings, reference, b.room.value, b.checkIn, b.checkOut)
  }

  /** The query is exact: putting a booking under a reference keeps the bookings free of
      clashes if and only if it answers that the booking may. */
  lemma PlacedIff(bookings: map<Id, Booking>, reference: Id, b: Booking)
    requires ClashFree(bookings)
    ensures ClashFree(bookings[reference := b]) <==> Clear(bookings, reference, b)
  {
    if Clear(bookings, reference, b) {
      ClearKeepsFree(bookings, reference, b);
    } else {
      var s :| s in bookings && s != reference && ClashesWith(bookings[s], b.room.value, b.checkIn, b.checkOut);
      var after := bookings[reference := b];
      assert Clash(after[reference], after[s]);
    }
  }

  lemma ClearKeepsFree(bookings: map<Id, Booking>, reference: Id, b: Booking)
    requires ClashFree(bookings) && Clear(bookings, reference, b)
    ensures ClashFree(bookings[reference := b])
  {
    forall s | s in bookings && s != reference
      ensures !Clash(b, bookings[s]) && !Clash(bookings[s], b)
    {
      if Clash(b, bookings[s]) || Clash(bookings[s], b) {
        assert ClashesWith(bookings[s], b.room.value, b.checkIn, b.checkOut);
      }
    }
  }

  /** A change of one booking keeps the rooms sound exactly when the changed booking is sound
      itself and the overlap query lets it stand. */
  lemma ChangeIsSoundIff(db: Db, reference: Id, b: Booking)
    requires RoomsSound(db)
    ensures RoomsSound(db.(bookings := db.bookings[reference := b])) <==> Sound(db, b) && Clear(db.bookings, reference, b)
  {
    var after := db.(bookings := db.bookings[reference := b]);
    PlacedIff(db.bookings, reference, b);
    assert Sound(after, after.bookings[reference]) <==> Sound(db, b);
    forall r | r in db.bookings && r != reference
      ensures Sound(after, after.bookings[r])
    {
      assert Sound(db, db.bookings[r]);
    }
  }

  // ---------------------------------------------------------------- no step makes a clash

  /** A booking that no longer keeps anyone out, or stands where an active one stood, is clear. */
  lemma SamePlaceIsClear(bookings: map<Id, Booking>, r: Id, b: Booking)
    requires ClashFree(bookings) && r in bookings
    requires Active(b) ==> Active(bookings[r]) && b.room == bookings[r].room
                           && b.checkIn == bookings[r].checkIn && b.checkOut == bookings[r].checkOut
    ensures ClashFree(bookings[r := b])
  {
    if Active(b) {
      assert bookings[r := bookings[r]] == bookings;
      PlacedIff(bookings, r, bookings[r]);
    }
    PlacedIff(bookings, r, b);
  }

  lemma CreateKeepsClashFree(db: Db, i: CreateInput)
    requires ClashFree(db.bookings)
    ensures ClashFree(Create(db, i).db.bookings)
  {
    if Create(db, i).Done? {
      PlacedIff(db.bookings, i.reference, NewBooking(db, i));
    }
  }

  lemma AssignKeepsClashFree(db: Db, r: Id, room: Option<Id>)
    requires ClashFree(db.bookings)
    ensures ClashFree(AssignRoom(db, r, room).db.bookings)
  {
    if AssignRoom(db, r, room).Done? {
      PlacedIff(db.bookings, r, db.bookings[r].(room := room));
    }
  }

  lemma MoveKeepsClashFree(db: Db, r: Id, checkIn: Option<int>, checkOut: Option<int>)
    requires ClashFree(db.bookings)
    ensures ClashFree(MoveDates(db, r, checkIn, checkOut).db.bookings)
  {
    if MoveDates(db, r, checkIn, checkOut).Done? {
      PlacedIff(db.bookings, r, MoveDates(db, r, checkIn, checkOut).db.bookings[r]);
    }
  }

  /** Cancelling, checking in or out and claiming leave a booking where it stands. */
  lemma StandingKeepsClashFree(db: Db, s: Step, r: Id)
    requires ClashFree(db.bookings)
    requires (s.CancelStep? && s.reference == r) || (s.CheckInStep? && s.reference == r)
             || (s.ClaimStep? && s.reference == r) || (s.CheckOutStep? && s.reference == r)
    ensures ClashFree(Perform(db, s).db.bookings)
  {
    if Perform(db, s).db != db {
      StepOnBooking(db, s, r);
      SamePlaceIsClear(db.bookings, r, Perform(db, s).db.bookings[r]);
    }
  }

  /** Every step, whatever its arguments, keeps the bookings free of clashes, even when the
      dates and rooms of some bookings were set by others. */
  lemma StepKeepsClashFree(db: Db, s: Step)
    requires ClashFree(db.bookings)
    ensures ClashFree(Perform(db, s).db.bookings)
  {
    match s
    case CreateStep(i) => CreateKeepsClashFree(db, i);
    case CancelStep(r) => StandingKeepsClashFree(db, s, r);
    case AssignStep(r, room) => AssignKeepsClashFree(db, r, room);
    case MoveStep(r, ci, co) => MoveKeepsClashFree(db, r, ci, co);
    case CheckInStep(r, _) => StandingKeepsClashFree(db, s, r);
    case ClaimStep(r, _, _) => StandingKeepsClashFree(db, s, r);
    case CheckOutStep(_, r, _) => StandingKeepsClashFree(db, s, r);
    case UpsertStep(_, _) =>
    case BlockStep(_, _, _, _, _, _) =>
    case UnblockStep(_) =>
  }

  ghost predicate PinsFit(db: Db) {
    forall r :: r in db.bookings ==> WellPinned(db, db.bookings[r])
  }

  /** Every step leaves every booking in a room that fits it, whoever gave it its room before. */
  lemma StepKeepsPinsFit(db: Db, s: Step)
    requires PinsFit(db)
    ensures PinsFit(Perform(db, s).db)
  {
    var after := Perform(db, s).db;
    StepKeepsCatalogue(db, s);
    forall r | r in after.bookings
      ensures WellPinned(after, after.bookings[r])
    {
      StepOnBooking(db, s, r);
      assert r in db.bookings ==> WellPinned(db, db.bookings[r]);
      if s.AssignStep? && s.reference == r && AssignRoom(db, r, s.room).Done? {
        AssignedRoomFits(db, r, s.room);
      }
    }
  }

  lemma AssignedRoomFits(db: Db, r: Id, room: Option<Id>)
    requires AssignRoom(db, r, room).Done?
    ensures WellPinned(db, AssignRoom(db, r, room).db.bookings[r])
  {
  }

  /** Every step leaves every booking well dated. */
  lemma StepKeepsDates(db: Db, s: Step, r: Id)
    requires forall x :: x in db.bookings ==> WellDated(db.bookings[x])
    requires r in Perform(db, s).db.bookings
    ensures WellDated(Perform(db, s).db.bookings[r])
  {
    StepOnBooking(db, s, r);
  }

  /** Every step, whatever its arguments and whether or not it is refused, keeps the rooms sound. */
  lemma StepKeepsRoomsSound(db: Db, s: Step)
    requires RoomsSound(db)
    ensures RoomsSound(Perform(db, s).db)
  {
    assert forall r :: r in db.bookings ==> Sound(db, db.bookings[r]);
    StepKeepsClashFree(db, s);
    StepKeepsPinsFit(db, s);
    forall r | r in Perform(db, s).db.bookings
      ensures Sound(Perform(db, s).db, Perform(db, s).db.bookings[r])
    {
      StepKeepsDates(db, s, r);
    }
  }

  lemma {:induction false} RunKeepsRoomsSound(db: Db, steps: seq<Step>)
    requires RoomsSound(db)
    ensures RoomsSound(Run(db, steps))
  {
    if |steps| > 0 {
      RunKeepsRoomsSound(db, steps[..|steps| - 1]);
      StepKeepsRoomsSound(Run(db, steps[..|steps| - 1]), steps[|steps| - 1]);
    }
  }

  // ---------------------------------------------------------------- night by night

  /** A room houses at most one active booking a night, and it is a room of the booking's own
      property and type. */
  ghost predicate OnePartyPerRoomNight(db: Db) {
    && (forall r, s, d | r in db.bookings && s in db.bookings && HousedOn(db.bookings[r], d) && HousedOn(db.bookings[s], d) ::
          db.bookings[r].room == db.bookings[s].room ==> r == s)
    && PinsFit(db)
  }

  ghost predicate HousedOn(b: Booking, d: int) {
    Active(b) && b.room.Some? && Covers(b, d)
  }

  /** Freedom from clashes, with pins that fit, is the night-by-night promise, whatever the dates. */
  lemma ClashFreeHousesOneParty(db: Db)
    requires ClashFree(db.bookings) && PinsFit(db)
    ensures OnePartyPerRoomNight(db)
  {
    forall r, s, d | r in db.bookings && s in db.bookings && HousedOn(db.bookings[r], d) && HousedOn(db.bookings[s], d)
                     && db.bookings[r].room == db.bookings[s].room
      ensures r == s
    {
      assert r != s ==> !Clash(db.bookings[r], db.bookings[s]);
    }
  }

  lemma SoundRoomsHouseOneParty(db: Db)
    requires RoomsSound(db)
    ensures OnePartyPerRoomNight(db)
  {
    assert forall r :: r in db.bookings ==> Sound(db, db.bookings[r]);
    ClashFreeHousesOneParty(db);
  }

  /** Safety over whole runs: every state reached from an empty hotel keeps the catalogue of
      rooms and has at most one party per room and night. */
  lemma RunsNeverDoubleBookARoom(db: Db, steps: seq<Step>)
    requires Fresh(db)
    ensures OnePartyPerRoomNight(Run(db, steps))
    ensures Run(db, steps).rooms == db.rooms
  {
    RunKeepsRoomsSound(db, steps);
    RunKeepsCatalogue(db, steps);
    SoundRoomsHouseOneParty(Run(db, steps));
  }

  lemma StepKeepsCatalogue(db: Db, s: Step)
    ensures Perform(db, s).db.rooms == db.rooms && Perform(db, s).db.roomTypes == db.roomTypes
  {
    match s
    case CreateStep(_) =>
    case CancelStep(_) =>
    case AssignStep(_, _) =>
    case MoveStep(_, _, _) =>
    case CheckInStep(_, _) =>
    case ClaimStep(_, _, _) =>
    case CheckOutStep(_, _, _) =>
    case UpsertStep(_, _) =>
    case BlockStep(_, _, _, _, _, _) =>
    case UnblockStep(_) =>
  }

  lemma {:induction false} RunKeepsCatalogue(db: Db, steps: seq<Step>)
    ensures Run(db, steps).rooms == db.rooms && Run(db, steps).roomTypes == db.roomTypes
  {
    if |steps| > 0 {
      RunKeepsCatalogue(db, steps[..|steps| - 1]);
      StepKeepsCatalogue(Run(db, steps[..|steps| - 1]), steps[|steps| - 1]);
    }
  }

  // ---------------------------------------------------------------- the checks are exact

  /** Another party sleeps in the room on a night between the dates. */
  ghost predicate TakenOn(bookings: map<Id, Booking>, reference: Id, room: Id, d: int) {
    exists s :: s in bookings && s != reference && bookings[s].room == Some(room) && HousedOn(bookings[s], d)
  }

  /** The overlap query compares dates; over sound rooms it finds a conflict exactly when the
      two stays would share a night. */
  lemma ConflictIsSharedNight(db: Db, r: Id, room: Id, checkIn: int, checkOut: int)
    requires RoomsSound(db) && checkIn < checkOut
    ensures Conflicts(db.bookings, r, room, checkIn, checkOut) <==>
            exists d :: checkIn <= d < checkOut && TakenOn(db.bookings, r, room, d)
  {
    if Conflicts(db.bookings, r, room, checkIn, checkOut) {
      var s :| s in db.bookings && s != r && ClashesWith(db.bookings[s], room, checkIn, checkOut);
      assert Sound(db, db.bookings[s]);
      var d := if checkIn < db.bookings[s].checkIn then db.bookings[s].checkIn else checkIn;
      assert HousedOn(db.bookings[s], d);
      assert TakenOn(db.bookings, r, room, d);
    }
    if d :| checkIn <= d < checkOut && TakenOn(db.bookings, r, room, d) {
      var s :| s in db.bookings && s != r && db.bookings[s].room == Some(room) && HousedOn(db.bookings[s], d);
      assert ClashesWith(db.bookings[s], room, checkIn, checkOut);
    }
  }

  /** A booking as the checks see it: they make no exception for one that did not show up. */
  function Expected(b: Booking): Booking {
    if b.status == NoShow then b.(status := Confirmed) else b
  }

  /** assignRoom is exact: a booking that is not closed gets the room it asks for exactly when
      the rooms stay sound with the booking, expected to arrive, in that room. */
  lemma AssignRoomIsExact(db: Db, r: Id, room: Id)
    requires RoomsSound(db) && r in db.bookings && !Terminal(db.bookings[r])
    ensures AssignRoom(db, r, Some(room)).Done? <==>
            RoomsSound(db.(bookings := db.bookings[r := Expected(db.bookings[r].(room := Some(room)))]))
  {
    assert Sound(db, db.bookings[r]);
    ChangeIsSoundIff(db, r, Expected(db.bookings[r].(room := Some(room))));
  }

  /** Likewise moveDates: the only moves it refuses are those that leave no night or would
      break the rooms, were the booking expected to arrive. */
  lemma MoveDatesIsExact(db: Db, r: Id, checkIn: int, checkOut: int)
    requires RoomsSound(db) && r in db.bookings && !Terminal(db.bookings[r])
    ensures MoveDates(db, r, Some(checkIn), Some(checkOut)).Done? <==>
            RoomsSound(db.(bookings := db.bookings[r := Expected(Moved(db.bookings[r], checkIn, checkOut))]))
  {
    assert Sound(db, db.bookings[r]);
    ChangeIsSoundIff(db, r, Expected(Moved(db.bookings[r], checkIn, checkOut)));
  }

  function Moved(b: Booking, checkIn: int, checkOut: int): Booking {
    b.(checkIn := checkIn, checkOut := checkOut, nights := checkOut - checkIn)
  }

  /** For a guest who did not show up both checks are too strict: the booking keeps nobody out,
      so the rooms would stay sound with it in any room that fits it and on any dates that leave
      a night, yet it is refused exactly when another party is expected there. */
  lemma NoShowIsRefusedNeedlessly(db: Db, r: Id, room: Id, checkIn: int, checkOut: int)
    requires RoomsSound(db) && r in db.bookings && db.bookings[r].status == NoShow
    ensures var b := db.bookings[r].(room := Some(room));
            WellPinned(db, b) ==>
              && RoomsSound(db.(bookings := db.bookings[r := b]))
              && (AssignRoom(db, r, Some(room)).Refused? <==> Conflicts(db.bookings, r, room, b.checkIn, b.checkOut))
    ensures var b := Moved(db.bookings[r], checkIn, checkOut);
            checkIn < checkOut ==>
              && RoomsSound(db.(bookings := db.bookings[r := b]))
              && (MoveDates(db, r, Some(checkIn), Some(checkOut)).Refused? <==>
                  b.room.Some? && Conflicts(db.bookings, r, b.room.value, checkIn, checkOut))
  {
    assert Sound(db, db.bookings[r]);
    ChangeIsSoundIff(db, r, db.bookings[r].(room := Some(room)));
    ChangeIsSoundIff(db, r, Moved(db.bookings[r], checkIn, checkOut));
  }
}
