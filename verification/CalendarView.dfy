/** The reservations calendar: rooms by nights, and why its bars always fit. */
module CalendarView {
  import opened Wrappers
  import opened HotelModel
  import opened Engine
  import NoOverlap
  import Numbers

  datatype Grid = Grid(rooms: set<Id>, pinned: set<Id>, unassigned: set<Id>)

  const MAX_WINDOW := 90

  predicate Touches(b: Booking, p: Id, from: int, to: int) {
    b.property == p && Active(b) && b.checkIn < to && b.checkOut > from
  }

  /** The window is given in whole days. */
  function Calendar(db: Db, p: Id, from: int, to: int): Result<Grid, Error> {
    if to - from <= 0 then Err(BadDates)
    else if to - from > MAX_WINDOW then Err(WindowTooWide)
    else
      var touching := set r | r in db.bookings && Touches(db.bookings[r], p, from, to);
      Ok(Grid(set m | m in db.rooms && db.rooms[m].property == p,
              set r | r in touching && db.bookings[r].room.Some?,
              set r | r in touching && db.bookings[r].room.None?))
  }

  // ---------------------------------------------------------------- nights of a window

  /** Nights of the booking that fall in the window. */
  function ClippedNights(b: Booking, from: int, to: int): int {
    Numbers.Max(0, Numbers.Min(b.checkOut, to) - Numbers.Max(b.checkIn, from))
  }

  /** The total over a set of bookings; the choice of order does not matter to the result. */
  ghost function TotalNights(bookings: map<Id, Booking>, rs: set<Id>, from: int, to: int): int
    requires rs <= bookings.Keys
  {
    if rs == {} then 0
    else
      var r :| r in rs;
      ClippedNights(bookings[r], from, to) + TotalNights(bookings, rs - {r}, from, to)
  }

  /** One key paired with each day of a range. */
  ghost function Line(key: Id, from: int, to: int): (line: set<(Id, int)>)
    ensures forall x :: x in line <==> x.0 == key && from <= x.1 < to
    ensures |line| == Numbers.Max(0, to - from)
    decreases Numbers.Max(0, to - from)
  {
    if to <= from then {} else Line(key, from, to - 1) + {(key, to - 1)}
  }

  /** Each booking paired with each of its nights in the window. */
  ghost function NightPairs(bookings: map<Id, Booking>, rs: set<Id>, from: int, to: int): (pairs: set<(Id, int)>)
    requires rs <= bookings.Keys
    ensures forall x :: x in pairs <==> x.0 in rs && from <= x.1 < to && Covers(bookings[x.0], x.1)
  {
    set r, x | r in rs && x in Line(r, from, to) && Covers(bookings[r], x.1) :: x
  }

  /** The cells of the grid: as many as rooms times days. */
  ghost function Cells(rooms: set<Id>, from: int, to: int): (cells: set<(Id, int)>)
    requires from <= to
    ensures forall x :: x in cells <==> x.0 in rooms && from <= x.1 < to
    ensures |cells| == |rooms| * (to - from)
  {
    if rooms == {} then {}
    else
      var m :| m in rooms;
      var others := Cells(rooms - {m}, from, to);
      DisjointSum(others + Line(m, from, to), Line(m, from, to), others);
      OneMoreRow(rooms, m, to - from);
      others + Line(m, from, to)
  }

  lemma OneMoreRow(rooms: set<Id>, m: Id, width: int)
    requires m in rooms
    ensures |rooms| * width == |rooms - {m}| * width + width
  {
    assert |rooms| == |rooms - {m}| + 1;
  }

  lemma DisjointSum(all: set<(Id, int)>, some: set<(Id, int)>, others: set<(Id, int)>)
    requires forall x :: x in all <==> x in some || x in others
    requires forall x :: x in some ==> x !in others
    ensures |all| == |some| + |others|
  {
    assert all == some + others;
  }

  lemma {:induction false} TotalIsPairs(bookings: map<Id, Booking>, rs: set<Id>, from: int, to: int)
    requires rs <= bookings.Keys
    ensures TotalNights(bookings, rs, from, to) == |NightPairs(bookings, rs, from, to)|
  {
    if rs == {} {
      assert NightPairs(bookings, rs, from, to) == {};
    } else {
      var r :| r in rs && TotalNights(bookings, rs, from, to) ==
                          ClippedNights(bookings[r], from, to) + TotalNights(bookings, rs - {r}, from, to);
      TotalIsPairs(bookings, rs - {r}, from, to);
      OneMoreBooking(bookings, rs, r, from, to);
    }
  }

  lemma OneMoreBooking(bookings: map<Id, Booking>, rs: set<Id>, r: Id, from: int, to: int)
    requires rs <= bookings.Keys && r in rs
    ensures |NightPairs(bookings, rs, from, to)| ==
            ClippedNights(bookings[r], from, to) + |NightPairs(bookings, rs - {r}, from, to)|
  {
    var b := bookings[r];
    var mine := Line(r, Numbers.Max(b.checkIn, from), Numbers.Min(b.checkOut, to));
    var all, others := NightPairs(bookings, rs, from, to), NightPairs(bookings, rs - {r}, from, to);
    forall x
      ensures x in all <==> x in mine || x in others
      ensures x in mine ==> x !in others
    {
    }
    DisjointSum(all, mine, others);
  }

  /** Pairs whose rooms are distinct night by night are no more than the cells they land in. */
  lemma {:induction false} PairsFitCells(bookings: map<Id, Booking>, pairs: set<(Id, int)>, cells: set<(Id, int)>)
    requires forall x :: x in pairs ==> x.0 in bookings && bookings[x.0].room.Some? && (bookings[x.0].room.value, x.1) in cells
    requires forall x, y :: x in pairs && y in pairs && x.1 == y.1 && bookings[x.0].room == bookings[y.0].room ==> x == y
    ensures |pairs| <= |cells|
  {
    if pairs != {} {
      var x :| x in pairs;
      var cell := (bookings[x.0].room.value, x.1);
      PairsFitCells(bookings, pairs - {x}, cells - {cell});
      assert |pairs - {x}| == |pairs| - 1;
      assert |cells - {cell}| == |cells| - 1;
    }
  }

  lemma SoundNightsFit(db: Db, p: Id, from: int, to: int)
    requires NoOverlap.OnePartyPerRoomNight(db) && Calendar(db, p, from, to).Ok?
    ensures var grid := Calendar(db, p, from, to).value;
            TotalNights(db.bookings, grid.pinned, from, to) <= |grid.rooms| * (to - from)
  {
    var grid := Calendar(db, p, from, to).value;
    var pairs := NightPairs(db.bookings, grid.pinned, from, to);
    forall x, y | x in pairs && y in pairs && x.1 == y.1 && db.bookings[x.0].room == db.bookings[y.0].room
      ensures x == y
    {
      assert NoOverlap.HousedOn(db.bookings[x.0], x.1) && NoOverlap.HousedOn(db.bookings[y.0], x.1);
    }
    forall x | x in pairs
      ensures (db.bookings[x.0].room.value, x.1) in Cells(grid.rooms, from, to)
    {
      assert NoOverlap.WellPinned(db, db.bookings[x.0]);
    }
    TotalIsPairs(db.bookings, grid.pinned, from, to);
    PairsFitCells(db.bookings, pairs, Cells(grid.rooms, from, to));
  }

  /** In any state reached from an empty hotel, the nights of the room-assigned bookings, cut
      to the window, number at most rooms times days. */
  lemma NightsFitTheGrid(start: Db, steps: seq<Step>, p: Id, from: int, to: int)
    requires Fresh(start) && Calendar(Run(start, steps), p, from, to).Ok?
    ensures var now := Run(start, steps);
            var grid := Calendar(now, p, from, to).value;
            TotalNights(now.bookings, grid.pinned, from, to) <= |grid.rooms| * (to - from)
  {
    NoOverlap.RunsNeverDoubleBookARoom(start, steps);
    SoundNightsFit(Run(start, steps), p, from, to);
  }

  /** The two lists split the bookings the window should show: those of the property that are
      active and spend a night in it. */
  lemma ListsPartition(db: Db, p: Id, from: int, to: int)
    requires NoOverlap.RoomsSound(db) && Calendar(db, p, from, to).Ok?
    ensures var grid := Calendar(db, p, from, to).value;
            && grid.pinned !! grid.unassigned
            && forall r :: r in grid.pinned + grid.unassigned <==>
                 r in db.bookings && db.bookings[r].property == p && Active(db.bookings[r])
                 && ClippedNights(db.bookings[r], from, to) > 0
  {
    forall r | r in db.bookings
      ensures db.bookings[r].checkIn < db.bookings[r].checkOut
    {
      assert NoOverlap.Sound(db, db.bookings[r]);
    }
  }

  /** A booking that is not cancelled or a no-show sleeps in the house on a night of the window. */
  ghost predicate StaysInWindow(b: Booking, p: Id, from: int, to: int) {
    b.property == p && b.status != Cancelled && b.status != NoShow && exists d :: from <= d < to && SleepsOn(b, d)
  }

  predicate SleepsOn(b: Booking, d: int) {
    b.checkIn <= d < b.checkOut
  }

  /** The answer, entry by entry: a window must have a day and no more than ninety; the rows are
      the rooms of the property; a stay in the window is on the grid if it has a room and in the
      lane of the unassigned if it has none. */
  lemma CalendarTellsTables(db: Db, p: Id, from: int, to: int)
    requires NoOverlap.RoomsSound(db)
    ensures to <= from ==> Calendar(db, p, from, to) == Err(BadDates)
    ensures to > from + 90 ==> Calendar(db, p, from, to) == Err(WindowTooWide)
    ensures from < to <= from + 90 ==>
              var answer := Calendar(db, p, from, to);
              && answer.Ok?
              && (forall m :: m in answer.value.rooms <==> m in db.rooms && db.rooms[m].property == p)
              && (forall r :: r in answer.value.pinned <==>
                    r in db.bookings && StaysInWindow(db.bookings[r], p, from, to) && db.bookings[r].room.Some?)
              && (forall r :: r in answer.value.unassigned <==>
                    r in db.bookings && StaysInWindow(db.bookings[r], p, from, to) && db.bookings[r].room.None?)
  {
    forall r | r in db.bookings
      ensures StaysInWindow(db.bookings[r], p, from, to) <==> from < to && Touches(db.bookings[r], p, from, to)
    {
      var b := db.bookings[r];
      assert NoOverlap.Sound(db, b);
      if from < to && Touches(b, p, from, to) {
        var d := if b.checkIn < from then from else b.checkIn;
        assert from <= d < to && SleepsOn(b, d);
      }
    }
  }
}
