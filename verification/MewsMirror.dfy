/** A property sync: mirroring fetched reservations into the bookings table, and what it means for the engine. */
module MewsMirror {
  import opened Wrappers
  import opened HotelModel
  import opened MewsFetch
  import Engine
  import Conservation
  import NoOverlap
  import Ledger
  import Days
  import Text
  import Numbers
  import Throughout

  /** What one sync works with besides the reservations themselves. */
  datatype Context = Context(property: Id, customers: map<Id, Customer>, spaces: map<Id, Space>, roomByNumber: map<string, Id>)

  function MapState(state: string): Status {
    if state == "Started" then CheckedIn
    else if state == "Processed" then CheckedOut
    else if state == "Canceled" || state == "Cancelled" then Cancelled
    else if state == "Confirmed" || state == "Requested" then Confirmed
    else Pending
  }

  /** `a || b` on optional strings: the first that is present and not empty. */
  function FirstNonEmpty(a: Option<string>, b: Option<string>): string {
    if a.Some? && a.value != "" then a.value else b.GetOr("")
  }

  function Reference(r: Reservation): string {
    Text.Trim(FirstNonEmpty(r.number, Some(r.id)))
  }

  function StartOf(r: Reservation): Option<int> {
    if r.startUtc.Some? then r.startUtc else r.scheduledStart
  }

  function EndOf(r: Reservation): Option<int> {
    if r.endUtc.Some? then r.endUtc else r.scheduledEnd
  }

  /** Rows without a reference or without dates are passed over. */
  predicate Usable(r: Reservation) {
    Reference(r) != "" && StartOf(r).Some? && EndOf(r).Some?
  }

  function RoomKey(s: Space): string {
    var number := Text.Trim(s.number.GetOr(""));
    if number != "" then number else Text.Trim(s.name.GetOr(""))
  }

  function ResolveRoom(ctx: Context, r: Reservation): Option<Id> {
    match SpaceOf(r)
    case None => None
    case Some(id) =>
      if id == "" || id !in ctx.spaces then None
      else
        var key := RoomKey(ctx.spaces[id]);
        if key != "" && key in ctx.roomByNumber then Some(ctx.roomByNumber[key]) else None
  }

  function GuestOf(ctx: Context, r: Reservation): Guest {
    var cust := if r.customer.Some? && r.customer.value != "" && r.customer.value in ctx.customers then Some(ctx.customers[r.customer.value]) else None;
    Guest(if cust.Some? then cust.value.firstName else None,
          if cust.Some? then cust.value.lastName else None,
          if cust.Some? then cust.value.email else None,
          if cust.Some? then cust.value.phone else None,
          r.adults.GetOr(1), r.children.GetOr(0))
  }

  predicate Advanced(s: Status) {
    s == CheckedIn || s == CheckedOut
  }

  /** The fields every sync overwrites. */
  function WithCommon(ctx: Context, b: Booking, r: Reservation): Booking
    requires Usable(r)
  {
    var checkIn, checkOut := Days.DayOf(StartOf(r).value), Days.DayOf(EndOf(r).value);
    b.(guest := GuestOf(ctx, r), checkIn := checkIn, checkOut := checkOut,
       nights := Numbers.Max(1, checkOut - checkIn), externalId := Some(r.id))
  }

  /** A booking the mirror starts: nothing owed, no room type, no room yet. */
  function Blank(ctx: Context): Booking {
    Booking(ctx.property, None, None, 0, 0, 0, 0, 0, "USD", Pending,
            Guest(None, None, None, None, 1, 0), None, None)
  }

  function Get(bookings: map<Id, Booking>, ref: Id): Option<Booking> {
    if ref in bookings then Some(bookings[ref]) else None
  }

  /** What one usable row makes of the booking it names. */
  function Mirrored(ctx: Context, before: Option<Booking>, r: Reservation): Booking
    requires Usable(r)
  {
    var b := before.GetOr(Blank(ctx));
    var room := ResolveRoom(ctx, r);
    WithCommon(ctx, b, r).(
      room := if room.Some? then room else b.room,
      status := if Advanced(b.status) then b.status else MapState(r.state))
  }

  function Upsert(ctx: Context, bookings: map<Id, Booking>, r: Reservation): map<Id, Booking> {
    if !Usable(r) then bookings
    else bookings[Reference(r) := Mirrored(ctx, Get(bookings, Reference(r)), r)]
  }

  function UpsertAll(ctx: Context, bookings: map<Id, Booking>, rs: seq<Reservation>): map<Id, Booking> {
    if |rs| == 0 then bookings
    else Upsert(ctx, UpsertAll(ctx, bookings, rs[..|rs| - 1]), rs[|rs| - 1])
  }

  function CountUsable(rs: seq<Reservation>): nat {
    if |rs| == 0 then 0 else CountUsable(rs[..|rs| - 1]) + if Usable(rs[|rs| - 1]) then 1 else 0
  }

  class Mirror {
    var bookings: map<Id, Booking>

    constructor (bookings: map<Id, Booking>)
      ensures this.bookings == bookings
    {
      this.bookings := bookings;
    }

    method SyncRows(ctx: Context, rs: seq<Reservation>) returns (upserted: nat)
      modifies this
      ensures bookings == UpsertAll(ctx, old(bookings), rs)
      ensures upserted == CountUsable(rs)
    {
      upserted := 0;
      for n := 0 to |rs|
        invariant bookings == UpsertAll(ctx, old(bookings), rs[..n])
        invariant upserted == CountUsable(rs[..n])
      {
        assert rs[..n + 1][..n] == rs[..n];
        var done := SyncRow(ctx, rs[n]);
        if done {
          upserted := upserted + 1;
        }
      }
      assert rs[..|rs|] == rs;
    }

    /** One turn of the loop; false when the row is passed over. */
    method SyncRow(ctx: Context, r: Reservation) returns (done: bool)
      modifies this
      ensures bookings == Upsert(ctx, old(bookings), r)
      ensures done <==> Usable(r)
    {
      var ref := Reference(r);
      var start, end := StartOf(r), EndOf(r);
      if ref == "" || start.None? || end.None? {
        return false;
      }
      var checkIn, checkOut := Days.DayOf(start.value), Days.DayOf(end.value);
      var nights := Numbers.Max(1, checkOut - checkIn);
      var room := ResolveRoom(ctx, r);
      var guest := GuestOf(ctx, r);
      if ref in bookings {
        var existing := bookings[ref];
        var locallyAdvanced := existing.status == CheckedIn || existing.status == CheckedOut;
        var updated := existing.(guest := guest, checkIn := checkIn, checkOut := checkOut, nights := nights, externalId := Some(r.id));
        if room.Some? {
          updated := updated.(room := room);
        }
        if !locallyAdvanced {
          updated := updated.(status := MapState(r.state));
        }
        bookings := bookings[ref := updated];
      } else {
        bookings := bookings[ref :=
          Booking(ctx.property, None, room, checkIn, checkOut, nights, 0, 0, "USD", MapState(r.state), guest, None, Some(r.id))];
      }
      return true;
    }
  }

  // ---------------------------------------------------------------- what a sync leaves, in closed form

  predicate For(r: Reservation, ref: Id) {
    Usable(r) && Reference(r) == ref
  }

  /** The last row of the list with the reference decides dates and guest. */
  function LastFor(rs: seq<Reservation>, ref: Id): (last: Option<Reservation>)
    ensures last.Some? ==> For(last.value, ref) && last.value in rs
    ensures last.None? ==> forall r :: r in rs ==> !For(r, ref)
  {
    if |rs| == 0 then None
    else if For(rs[|rs| - 1], ref) then Some(rs[|rs| - 1])
    else LastFor(rs[..|rs| - 1], ref)
  }

  /** The last row that resolves to a room decides the room. */
  function LastRoom(ctx: Context, rs: seq<Reservation>, ref: Id): Option<Id> {
    if |rs| == 0 then None
    else
      var r := rs[|rs| - 1];
      if For(r, ref) && ResolveRoom(ctx, r).Some? then ResolveRoom(ctx, r) else LastRoom(ctx, rs[..|rs| - 1], ref)
  }

  /** The first row whose state means checked in or out fixes the status from there on. */
  function FirstAdvanced(rs: seq<Reservation>, ref: Id): Option<Status> {
    if |rs| == 0 then None
    else
      var earlier := FirstAdvanced(rs[..|rs| - 1], ref);
      var r := rs[|rs| - 1];
      if earlier.Some? then earlier
      else if For(r, ref) && Advanced(MapState(r.state)) then Some(MapState(r.state))
      else None
  }

  function StatusAfter(before: Status, rs: seq<Reservation>, ref: Id, last: Reservation): Status {
    if Advanced(before) then before
    else FirstAdvanced(rs, ref).GetOr(MapState(last.state))
  }

  /** What a sync leaves under one reference, as a function of what was there and the list. */
  function After(ctx: Context, before: Option<Booking>, rs: seq<Reservation>, ref: Id): Option<Booking> {
    match LastFor(rs, ref)
    case None => before
    case Some(last) =>
      var b := before.GetOr(Blank(ctx));
      var room := LastRoom(ctx, rs, ref);
      Some(WithCommon(ctx, b, last).(
        room := if room.Some? then room else b.room,
        status := StatusAfter(b.status, rs, ref, last)))
  }

  /** The loop, one row at a time over the whole table, leaves exactly the closed form. */
  lemma {:induction false} SyncInClosedForm(ctx: Context, bookings: map<Id, Booking>, rs: seq<Reservation>, ref: Id)
    ensures Get(UpsertAll(ctx, bookings, rs), ref) == After(ctx, Get(bookings, ref), rs, ref)
  {
    if |rs| > 0 {
      var front, r := rs[..|rs| - 1], rs[|rs| - 1];
      SyncInClosedForm(ctx, bookings, front, ref);
      UpsertTouchesOne(ctx, UpsertAll(ctx, bookings, front), r, ref);
      if For(r, ref) {
        OneMoreRow(ctx, Get(bookings, ref), rs, ref);
      } else {
        OtherRow(ctx, Get(bookings, ref), rs, ref);
      }
    }
  }

  lemma UpsertTouchesOne(ctx: Context, bookings: map<Id, Booking>, r: Reservation, ref: Id)
    ensures Get(Upsert(ctx, bookings, r), ref) ==
            if For(r, ref) then Some(Mirrored(ctx, Get(bookings, ref), r)) else Get(bookings, ref)
  {
  }

  lemma OtherRow(ctx: Context, before: Option<Booking>, rs: seq<Reservation>, ref: Id)
    requires |rs| > 0 && !For(rs[|rs| - 1], ref)
    ensures After(ctx, before, rs, ref) == After(ctx, before, rs[..|rs| - 1], ref)
  {
  }

  lemma OneMoreRow(ctx: Context, before: Option<Booking>, rs: seq<Reservation>, ref: Id)
    requires |rs| > 0 && For(rs[|rs| - 1], ref)
    ensures After(ctx, before, rs, ref) == Some(Mirrored(ctx, After(ctx, before, rs[..|rs| - 1], ref), rs[|rs| - 1]))
  {
    NothingBefore(ctx, rs[..|rs| - 1], ref);
  }

  lemma {:induction false} NothingBefore(ctx: Context, rs: seq<Reservation>, ref: Id)
    ensures LastFor(rs, ref).None? ==> LastRoom(ctx, rs, ref).None? && FirstAdvanced(rs, ref).None?
    ensures FirstAdvanced(rs, ref).Some? ==> Advanced(FirstAdvanced(rs, ref).value)
    ensures LastFor(rs, ref).Some? && FirstAdvanced(rs, ref).None? ==> !Advanced(MapState(LastFor(rs, ref).value.state))
  {
    if |rs| > 0 {
      NothingBefore(ctx, rs[..|rs| - 1], ref);
    }
  }

  /** Running the same sync again changes nothing, for any table and any list, repeated
      references and unusable rows included. */
  lemma ResyncIsIdempotent(ctx: Context, bookings: map<Id, Booking>, rs: seq<Reservation>)
    ensures var once := UpsertAll(ctx, bookings, rs);
            UpsertAll(ctx, once, rs) == once
  {
    var once := UpsertAll(ctx, bookings, rs);
    var twice := UpsertAll(ctx, once, rs);
    forall ref
      ensures Get(twice, ref) == Get(once, ref)
    {
      SyncInClosedForm(ctx, bookings, rs, ref);
      SyncInClosedForm(ctx, once, rs, ref);
      NothingBefore(ctx, rs, ref);
    }
    SameEverywhere(twice, once);
  }

  /** A sync deletes nothing, never takes a room away, and never changes what an existing
      booking costs, where it is, what was booked or whose account it is on; and bookings no
      fetched row names are left entirely alone. */
  lemma SyncPreserves(ctx: Context, bookings: map<Id, Booking>, rs: seq<Reservation>, ref: Id)
    requires ref in bookings
    ensures var now := UpsertAll(ctx, bookings, rs);
            && ref in now
            && (bookings[ref].room.Some? ==> now[ref].room.Some?)
            && now[ref].property == bookings[ref].property && now[ref].roomType == bookings[ref].roomType
            && now[ref].total == bookings[ref].total && now[ref].paid == bookings[ref].paid
            && now[ref].currency == bookings[ref].currency && now[ref].guestUser == bookings[ref].guestUser
            && (Advanced(bookings[ref].status) ==> now[ref].status == bookings[ref].status)
            && ((forall r :: r in rs ==> !For(r, ref)) ==> now[ref] == bookings[ref])
  {
    SyncInClosedForm(ctx, bookings, rs, ref);
  }

  /** A booking named by the list ends with the dates, guest and remote id of the last row that
      names it, and is never shorter than one night. */
  lemma SyncMirrorsLastRow(ctx: Context, bookings: map<Id, Booking>, rs: seq<Reservation>, ref: Id)
    requires LastFor(rs, ref).Some?
    ensures var now := UpsertAll(ctx, bookings, rs);
            var last := LastFor(rs, ref).value;
            && ref in now
            && Days.SameDay(Days.Midnight(now[ref].checkIn), StartOf(last).value)
            && Days.SameDay(Days.Midnight(now[ref].checkOut), EndOf(last).value)
            && now[ref].nights >= 1 && (now[ref].checkIn < now[ref].checkOut ==> now[ref].nights == now[ref].checkOut - now[ref].checkIn)
            && now[ref].guest == GuestOf(ctx, last) && now[ref].externalId == Some(last.id)
            && (ResolveRoom(ctx, last).Some? ==> now[ref].room == ResolveRoom(ctx, last))
  {
    SyncInClosedForm(ctx, bookings, rs, ref);
    LastRowsRoom(ctx, rs, ref);
    Days.MidnightOfDay(Days.DayOf(StartOf(LastFor(rs, ref).value).value));
    Days.MidnightOfDay(Days.DayOf(EndOf(LastFor(rs, ref).value).value));
  }

  lemma {:induction false} LastRowsRoom(ctx: Context, rs: seq<Reservation>, ref: Id)
    ensures LastFor(rs, ref).Some? && ResolveRoom(ctx, LastFor(rs, ref).value).Some? ==>
              LastRoom(ctx, rs, ref) == ResolveRoom(ctx, LastFor(rs, ref).value)
  {
    if |rs| > 0 {
      LastRowsRoom(ctx, rs[..|rs| - 1], ref);
    }
  }

  /** New bookings are exactly the usable rows' references; each starts in the synced property,
      owing nothing. */
  lemma SyncCreates(ctx: Context, bookings: map<Id, Booking>, rs: seq<Reservation>, ref: Id)
    requires ref !in bookings
    ensures var now := UpsertAll(ctx, bookings, rs);
            && (ref in now <==> exists r :: r in rs && For(r, ref))
            && (ref in now ==>
                  && now[ref].property == ctx.property && now[ref].roomType == None && now[ref].guestUser == None
                  && now[ref].total == 0 && now[ref].paid == 0 && now[ref].currency == "USD")
  {
    SyncInClosedForm(ctx, bookings, rs, ref);
  }

  // ---------------------------------------------------------------- in the remote's own words

  lemma StateWords(state: string)
    ensures state == "Started" ==> MapState(state) == CheckedIn
    ensures state == "Processed" ==> MapState(state) == CheckedOut
    ensures state == "Canceled" || state == "Cancelled" ==> MapState(state) == Cancelled
    ensures state == "Confirmed" || state == "Requested" ==> MapState(state) == Confirmed
    ensures state !in ["Started", "Processed", "Canceled", "Cancelled", "Confirmed", "Requested"] ==> MapState(state) == Pending
  {
  }

  /** The row can be mirrored, to the booking with the reference: its number if it has one, else
      its id, trimmed. */
  ghost predicate Names(r: Reservation, ref: Id) {
    && ref != "" && ref == Text.Trim(if r.number.Some? && r.number.value != "" then r.number.value else r.id)
    && (r.startUtc.Some? || r.scheduledStart.Some?) && (r.endUtc.Some? || r.scheduledEnd.Some?)
  }

  lemma NamesIff(r: Reservation, ref: Id)
    ensures Names(r, ref) <==> For(r, ref)
  {
  }

  /** Rows name the booking, and all that do say the state. */
  ghost predicate AllSay(rs: seq<Reservation>, ref: Id, state: string) {
    (exists r :: r in rs && Names(r, ref)) && forall r :: r in rs && Names(r, ref) ==> r.state == state
  }

  lemma {:induction false} SaidThroughout(rs: seq<Reservation>, ref: Id, state: string)
    requires forall r :: r in rs && Names(r, ref) ==> r.state == state
    ensures LastFor(rs, ref).Some? ==> LastFor(rs, ref).value.state == state
    ensures FirstAdvanced(rs, ref).Some? ==> FirstAdvanced(rs, ref).value == MapState(state)
    ensures LastFor(rs, ref).None? ==> forall r :: r in rs ==> !Names(r, ref)
  {
    if |rs| > 0 {
      var front, last := rs[..|rs| - 1], rs[|rs| - 1];
      NamesIff(last, ref);
      assert forall r :: r in front ==> r in rs;
      SaidThroughout(front, ref, state);
      assert rs == front + [last];
    }
  }

  /** The status a sync leaves: a guest the house has checked in or out stays so; any other
      booking whose rows agree on a state ends with the status that state stands for. */
  lemma StateIsMirrored(ctx: Context, bookings: map<Id, Booking>, rs: seq<Reservation>, ref: Id, state: string)
    requires AllSay(rs, ref, state)
    ensures var now := UpsertAll(ctx, bookings, rs);
            && ref in now
            && if ref in bookings && (bookings[ref].status == CheckedIn || bookings[ref].status == CheckedOut)
               then now[ref].status == bookings[ref].status
               else
                 && (state == "Started" ==> now[ref].status == CheckedIn)
                 && (state == "Processed" ==> now[ref].status == CheckedOut)
                 && (state == "Canceled" || state == "Cancelled" ==> now[ref].status == Cancelled)
                 && (state == "Confirmed" || state == "Requested" ==> now[ref].status == Confirmed)
                 && (state !in ["Started", "Processed", "Canceled", "Cancelled", "Confirmed", "Requested"] ==>
                       now[ref].status == Pending)
  {
    SyncInClosedForm(ctx, bookings, rs, ref);
    SaidThroughout(rs, ref, state);
    StateWords(state);
  }

  /** The row with the last word on the booking. */
  ghost predicate LastNames(rs: seq<Reservation>, i: nat, ref: Id) {
    i < |rs| && Names(rs[i], ref) && forall j :: i < j < |rs| ==> !Names(rs[j], ref)
  }

  lemma {:induction false} LastNamesIsLast(rs: seq<Reservation>, i: nat, ref: Id)
    requires LastNames(rs, i, ref)
    ensures LastFor(rs, ref) == Some(rs[i])
  {
    NamesIff(rs[|rs| - 1], ref);
    if i < |rs| - 1 {
      LastNamesIsLast(rs[..|rs| - 1], i, ref);
    }
  }

  /** The customer of a row gives the guest's name and contact, if the fetch brought it; the row
      gives the head count, one adult if it says nothing. */
  ghost predicate GuestFrom(g: Guest, ctx: Context, r: Reservation) {
    && (if r.customer.Some? && r.customer.value != "" && r.customer.value in ctx.customers
        then var c := ctx.customers[r.customer.value];
             g.firstName == c.firstName && g.lastName == c.lastName && g.email == c.email && g.phone == c.phone
        else g.firstName == None && g.lastName == None && g.email == None && g.phone == None)
    && g.adults == (if r.adults.Some? then r.adults.value else 1)
    && g.children == (if r.children.Some? then r.children.value else 0)
  }

  /** The dates of a row are the days of its actual times or, lacking those, its scheduled ones. */
  ghost predicate DatesFrom(b: Booking, r: Reservation)
    requires (r.startUtc.Some? || r.scheduledStart.Some?) && (r.endUtc.Some? || r.scheduledEnd.Some?)
  {
    && b.checkIn == Days.DayOf(if r.startUtc.Some? then r.startUtc.value else r.scheduledStart.value)
    && b.checkOut == Days.DayOf(if r.endUtc.Some? then r.endUtc.value else r.scheduledEnd.value)
    && b.nights == if b.checkIn < b.checkOut then b.checkOut - b.checkIn else 1
  }

  /** The row's space is one the fetch brought, and its number or, lacking that, its name is the
      number of the room. */
  ghost predicate PutsIn(ctx: Context, r: Reservation, room: Id) {
    exists id, key :: KeyedTo(ctx, r, id, key) && key in ctx.roomByNumber && ctx.roomByNumber[key] == room
  }

  ghost predicate KeyedTo(ctx: Context, r: Reservation, id: Id, key: string) {
    && (r.assignedResource == Some(id) || (r.assignedResource == None && r.assignedSpace == Some(id)))
    && id != "" && id in ctx.spaces && key != ""
    && var number := Text.Trim(ctx.spaces[id].number.GetOr(""));
       key == if number != "" then number else Text.Trim(ctx.spaces[id].name.GetOr(""))
  }

  lemma PutsInIff(ctx: Context, r: Reservation, room: Id)
    ensures PutsIn(ctx, r, room) <==> ResolveRoom(ctx, r) == Some(room)
  {
    if ResolveRoom(ctx, r) == Some(room) {
      var id := SpaceOf(r).value;
      assert KeyedTo(ctx, r, id, RoomKey(ctx.spaces[id]));
    }
  }

  /** What a sync writes of the last row that names a booking, column by column. */
  lemma SyncWritesLastRow(ctx: Context, bookings: map<Id, Booking>, rs: seq<Reservation>, i: nat, ref: Id)
    requires LastNames(rs, i, ref)
    ensures var now := UpsertAll(ctx, bookings, rs);
            && ref in now
            && DatesFrom(now[ref], rs[i]) && GuestFrom(now[ref].guest, ctx, rs[i]) && now[ref].externalId == Some(rs[i].id)
            && (forall m :: PutsIn(ctx, rs[i], m) ==> now[ref].room == Some(m))
            && ((forall r, m :: r in rs && Names(r, ref) ==> !PutsIn(ctx, r, m)) ==>
                  now[ref].room == if ref in bookings then bookings[ref].room else None)
  {
    var now := UpsertAll(ctx, bookings, rs);
    SyncInClosedForm(ctx, bookings, rs, ref);
    LastNamesIsLast(rs, i, ref);
    LastRowsRoom(ctx, rs, ref);
    forall m
      ensures PutsIn(ctx, rs[i], m) <==> ResolveRoom(ctx, rs[i]) == Some(m)
    {
      PutsInIff(ctx, rs[i], m);
    }
    if forall r, m :: r in rs && Names(r, ref) ==> !PutsIn(ctx, r, m) {
      NobodyPuts(ctx, rs, ref);
    }
  }

  lemma {:induction false} NobodyPuts(ctx: Context, rs: seq<Reservation>, ref: Id)
    requires forall r, m :: r in rs && Names(r, ref) ==> !PutsIn(ctx, r, m)
    ensures LastRoom(ctx, rs, ref) == None
  {
    if |rs| > 0 {
      var front, last := rs[..|rs| - 1], rs[|rs| - 1];
      assert forall r :: r in front ==> r in rs;
      NobodyPuts(ctx, front, ref);
      NamesIff(last, ref);
      if ResolveRoom(ctx, last).Some? {
        PutsInIff(ctx, last, ResolveRoom(ctx, last).value);
      }
    }
  }

  // ---------------------------------------------------------------- the order of the list

  ghost predicate OneRowEach(rs: seq<Reservation>) {
    forall r, q :: r in rs && q in rs && Usable(r) && Usable(q) && Reference(r) == Reference(q) ==> r == q
  }

  /** With a single row under the reference, that row alone decides. */
  lemma {:induction false} OnlyRowDecides(ctx: Context, rs: seq<Reservation>, ref: Id, x: Reservation)
    requires For(x, ref) && forall r :: r in rs && For(r, ref) ==> r == x
    ensures x in rs ==>
              && LastFor(rs, ref) == Some(x)
              && LastRoom(ctx, rs, ref) == ResolveRoom(ctx, x)
              && FirstAdvanced(rs, ref) == if Advanced(MapState(x.state)) then Some(MapState(x.state)) else None
    ensures x !in rs ==> LastRoom(ctx, rs, ref) == None && FirstAdvanced(rs, ref) == None
  {
    if |rs| > 0 {
      var front, last := rs[..|rs| - 1], rs[|rs| - 1];
      OnlyRowDecides(ctx, front, ref, x);
      assert rs == front + [last];
    }
  }

  /** When no two fetched reservations share a reference, the order they are processed in makes
      no difference. */
  lemma SyncOrderIsIrrelevant(ctx: Context, bookings: map<Id, Booking>, rs: seq<Reservation>, qs: seq<Reservation>)
    requires OneRowEach(rs) && forall r :: r in rs <==> r in qs
    ensures UpsertAll(ctx, bookings, rs) == UpsertAll(ctx, bookings, qs)
  {
    var a, b := UpsertAll(ctx, bookings, rs), UpsertAll(ctx, bookings, qs);
    forall ref
      ensures Get(a, ref) == Get(b, ref)
    {
      SyncInClosedForm(ctx, bookings, rs, ref);
      SyncInClosedForm(ctx, bookings, qs, ref);
      AfterEitherOrder(ctx, Get(bookings, ref), rs, qs, ref);
    }
    SameEverywhere(a, b);
  }

  lemma AfterEitherOrder(ctx: Context, before: Option<Booking>, rs: seq<Reservation>, qs: seq<Reservation>, ref: Id)
    requires OneRowEach(rs) && forall r :: r in rs <==> r in qs
    ensures After(ctx, before, rs, ref) == After(ctx, before, qs, ref)
  {
    if x :| x in rs && For(x, ref) {
      OnlyRowDecides(ctx, rs, ref, x);
      OnlyRowDecides(ctx, qs, ref, x);
    } else {
      assert LastFor(rs, ref) == None && LastFor(qs, ref) == None;
    }
  }

  lemma SameEverywhere(a: map<Id, Booking>, b: map<Id, Booking>)
    requires forall ref :: Get(a, ref) == Get(b, ref)
    ensures a == b
  {
    forall ref
      ensures ref in a <==> ref in b
      ensures ref in a ==> a[ref] == b[ref]
    {
      assert Get(a, ref) == Get(b, ref);
    }
  }

  ghost predicate DistinctIds(rs: seq<Reservation>) {
    forall i, j :: 0 <= i < j < |rs| ==> rs[i].id != rs[j].id
  }

  ghost predicate SameRows(qs: seq<Reservation>, rs: seq<Reservation>) {
    multiset(qs) == multiset(rs)
  }

  /** Every order of the rows leaves the same table. */
  ghost predicate AnyOrder(ctx: Context, bookings: map<Id, Booking>, rs: seq<Reservation>) {
    forall qs :: SameRows(qs, rs) ==> UpsertAll(ctx, bookings, qs) == UpsertAll(ctx, bookings, rs)
  }

  /** Exactly when the order matters: over a list in which ids do not repeat, as a fetch by id
      yields, every order leaves the same table if and only if no two rows share a reference. */
  lemma OrderIsIrrelevantIff(ctx: Context, bookings: map<Id, Booking>, rs: seq<Reservation>)
    requires DistinctIds(rs)
    ensures AnyOrder(ctx, bookings, rs) <==> OneRowEach(rs)
  {
    if OneRowEach(rs) {
      forall qs | SameRows(qs, rs)
        ensures UpsertAll(ctx, bookings, qs) == UpsertAll(ctx, bookings, rs)
      {
        assert forall r :: r in rs <==> r in multiset(rs);
        assert forall r :: r in qs <==> r in multiset(qs);
        SyncOrderIsIrrelevant(ctx, bookings, rs, qs);
      }
    }
    if AnyOrder(ctx, bookings, rs) {
      forall i, j | 0 <= i < |rs| && 0 <= j < |rs| && Usable(rs[i]) && Usable(rs[j]) && Reference(rs[i]) == Reference(rs[j])
        ensures i == j
      {
        MovedLast(ctx, bookings, rs, i);
        MovedLast(ctx, bookings, rs, j);
        MoveKeepsRows(rs, i);
        MoveKeepsRows(rs, j);
      }
    }
  }

  /** With a row moved to the end of the list, the booking it names ends with its remote id. */
  lemma MovedLast(ctx: Context, bookings: map<Id, Booking>, rs: seq<Reservation>, i: nat)
    requires i < |rs| && Usable(rs[i])
    ensures var now := UpsertAll(ctx, bookings, MovedToEnd(rs, i));
            Reference(rs[i]) in now && now[Reference(rs[i])].externalId == Some(rs[i].id)
  {
    var front := rs[..i] + rs[i + 1..];
    LastUpsert(ctx, bookings, front, rs[i]);
    UpsertedLast(ctx, UpsertAll(ctx, bookings, front), rs[i]);
  }

  function MovedToEnd(rs: seq<Reservation>, i: nat): seq<Reservation>
    requires i < |rs|
  {
    rs[..i] + rs[i + 1..] + [rs[i]]
  }

  lemma MoveKeepsRows(rs: seq<Reservation>, i: nat)
    requires i < |rs|
    ensures SameRows(MovedToEnd(rs, i), rs)
  {
    assert rs == rs[..i] + [rs[i]] + rs[i + 1..];
  }

  lemma LastUpsert(ctx: Context, bookings: map<Id, Booking>, front: seq<Reservation>, r: Reservation)
    ensures UpsertAll(ctx, bookings, front + [r]) == Upsert(ctx, UpsertAll(ctx, bookings, front), r)
  {
    assert (front + [r])[..|front|] == front;
  }

  lemma UpsertedLast(ctx: Context, bookings: map<Id, Booking>, r: Reservation)
    requires Usable(r)
    ensures var now := Upsert(ctx, bookings, r);
            Reference(r) in now && now[Reference(r)].externalId == Some(r.id)
  {
  }

  // ---------------------------------------------------------------- a fetch and its sync

  /** The values of the map, each once, in some order. */
  ghost predicate Lists(rs: seq<Reservation>, m: map<Id, Reservation>) {
    && DistinctIds(rs)
    && (forall r :: r in rs <==> r.id in m && m[r.id] == r)
  }

  /** What syncing a property over a window may make of the bookings: some way of fetching the
      window, listed in some order and mirrored row by row. */
  ghost predicate SyncedTo(
      before: map<Id, Booking>, after: map<Id, Booking>, s: Snapshot, from: int, to: int,
      property: Id, roomByNumber: map<string, Id>)
  {
    exists f, rs :: SyncedVia(f, rs, before, after, s, from, to, property, roomByNumber)
  }

  ghost predicate SyncedVia(
      f: Fetched, rs: seq<Reservation>, before: map<Id, Booking>, after: map<Id, Booking>, s: Snapshot, from: int, to: int,
      property: Id, roomByNumber: map<string, Id>)
  {
    && HoldsWindow(f, s, from, to) && Lists(rs, f.reservations)
    && after == UpsertAll(Context(property, f.customers, f.spaces, roomByNumber), before, rs)
  }

  /** No two reservations of the window carry the same reference. */
  ghost predicate ReferencesDiffer(s: Snapshot, from: int, to: int) {
    forall r, q :: Shown(s, r, from, to) && Shown(s, q, from, to) && Usable(r) && Usable(q) && Reference(r) == Reference(q) ==> r == q
  }

  /** A sync over chunks leaves the table a sync over the whole window leaves: with references
      that differ, neither the way of fetching nor the order of the list shows in the result. */
  lemma FetchingMakesNoDifference(
      before: map<Id, Booking>, a: map<Id, Booking>, b: map<Id, Booking>, s: Snapshot, from: int, to: int,
      property: Id, roomByNumber: map<string, Id>)
    requires ReferencesDiffer(s, from, to)
    requires SyncedTo(before, a, s, from, to, property, roomByNumber)
    requires SyncedTo(before, b, s, from, to, property, roomByNumber)
    ensures a == b
  {
    var f, rs :| SyncedVia(f, rs, before, a, s, from, to, property, roomByNumber);
    var g, qs :| SyncedVia(g, qs, before, b, s, from, to, property, roomByNumber);
    WindowDetermines(f, g, s, from, to);
    forall r | r in rs
      ensures Shown(s, r, from, to)
    {
      assert r.id in f.reservations;
    }
    assert OneRowEach(rs);
    assert forall r :: r in rs <==> r in qs;
    SyncOrderIsIrrelevant(Context(property, f.customers, f.spaces, roomByNumber), before, rs, qs);
  }

  /** The values of a map as a list; its order is the map's own business. */
  method Values(m: map<Id, Reservation>) returns (rs: seq<Reservation>)
    requires forall k :: k in m ==> m[k].id == k
    ensures Lists(rs, m)
  {
    rs := [];
    var left := m.Keys;
    while left != {}
      invariant left <= m.Keys
      invariant DistinctIds(rs)
      invariant forall r :: r in rs <==> r.id in m && r.id !in left && m[r.id] == r
      decreases |left|
    {
      var k :| k in left;
      assert m[k].id == k;
      forall i | 0 <= i < |rs|
        ensures rs[i].id != k
      {
        assert rs[i] in rs;
      }
      rs := rs + [m[k]];
      left := left - {k};
    }
  }

  /** The window's reservations that a sync does not pass over. */
  ghost function UsableShown(s: Snapshot, from: int, to: int): set<Reservation> {
    set r | r in s.reservations && Collides(r, from, to) && Usable(r)
  }

  ghost function UsableIn(rs: seq<Reservation>): set<Reservation> {
    set r | r in rs && Usable(r)
  }

  lemma OneMoreUsable(front: seq<Reservation>, last: Reservation)
    requires last !in front
    ensures |UsableIn(front + [last])| == |UsableIn(front)| + if Usable(last) then 1 else 0
  {
    assert UsableIn(front + [last]) == UsableIn(front) + if Usable(last) then {last} else {};
  }

  lemma {:induction false} CountIsUsable(rs: seq<Reservation>)
    requires DistinctIds(rs)
    ensures CountUsable(rs) == |UsableIn(rs)|
  {
    if |rs| > 0 {
      var front, last := rs[..|rs| - 1], rs[|rs| - 1];
      LastIsNew(rs);
      CountIsUsable(front);
      OneMoreUsable(front, last);
      assert rs == front + [last];
    }
  }

  lemma LastIsNew(rs: seq<Reservation>)
    requires DistinctIds(rs) && |rs| > 0
    ensures DistinctIds(rs[..|rs| - 1]) && rs[|rs| - 1] !in rs[..|rs| - 1]
  {
  }

  lemma CountShown(s: Snapshot, from: int, to: int, f: Fetched, rs: seq<Reservation>)
    requires HoldsWindow(f, s, from, to) && Lists(rs, f.reservations)
    ensures CountUsable(rs) == |UsableShown(s, from, to)|
  {
    CountIsUsable(rs);
    forall r
      ensures r in UsableIn(rs) <==> r in UsableShown(s, from, to)
    {
      HeldIffShown(f, s, from, to, r);
    }
    assert UsableIn(rs) == UsableShown(s, from, to);
  }

  /** syncProperty: fetch, list, mirror. A failed fetch leaves the bookings alone. */
  method SyncProperty(mirror: Mirror, ask: (int, int) -> Reply, ghost s: Snapshot, from: int, to: int, chunk: int,
                      property: Id, roomByNumber: map<string, Id>)
    returns (upserted: Option<nat>)
    requires Coherent(s) && Honest(ask, s) && from < to && chunk > 0
    modifies mirror
    ensures upserted.None? ==> mirror.bookings == old(mirror.bookings)
    ensures upserted.Some? ==> upserted.value == |UsableShown(s, from, to)|
    ensures upserted.Some? ==> SyncedTo(old(mirror.bookings), mirror.bookings, s, from, to, property, roomByNumber)
    ensures ask(from, to).Answer? ==> upserted.Some?
  {
    var fetched, _ := Fetch(ask, s, from, to, chunk);
    if fetched.None? {
      return None;
    }
    var f := fetched.value;
    var rows := Values(f.reservations);
    var n := mirror.SyncRows(Context(property, f.customers, f.spaces, roomByNumber), rows);
    CountShown(s, from, to, f, rows);
    assert SyncedVia(f, rows, old(mirror.bookings), mirror.bookings, s, from, to, property, roomByNumber);
    return Some(n);
  }

  // ---------------------------------------------------------------- the engine and the mirror together

  /** A call on the engine, or one row of some sync: other calls may come between two rows. */
  datatype Event = Local(step: Engine.Step) | Remote(ctx: Context, row: Reservation)

  function Happens(db: Db, e: Event): Db {
    match e
    case Local(step) => Engine.Perform(db, step).db
    case Remote(ctx, r) => db.(bookings := Upsert(ctx, db.bookings, r))
  }

  function History(db: Db, events: seq<Event>): Db {
    if |events| == 0 then db else Happens(History(db, events[..|events| - 1]), events[|events| - 1])
  }

  /** A sync is the history of its rows. */
  lemma {:induction false} SyncIsItsRows(db: Db, ctx: Context, rs: seq<Reservation>)
    ensures History(db, RowEvents(ctx, rs)) == db.(bookings := UpsertAll(ctx, db.bookings, rs))
  {
    if |rs| > 0 {
      SyncIsItsRows(db, ctx, rs[..|rs| - 1]);
      assert RowEvents(ctx, rs)[..|rs| - 1] == RowEvents(ctx, rs[..|rs| - 1]);
    }
  }

  function RowEvents(ctx: Context, rs: seq<Reservation>): seq<Event> {
    seq(|rs|, i requires 0 <= i < |rs| => Remote(ctx, rs[i]))
  }

  /** Through any interleaving of engine calls and sync rows, whatever the remote says, a
      checked-in booking that nobody cancels stays checked in or becomes checked out, a
      checked-out one stays so, and the check-in wizard is refused on both. */
  lemma {:induction false} ArrivalsAreNeverUndone(db: Db, events: seq<Event>, ref: Id, form: Engine.CheckInForm)
    requires ref in db.bookings && Advanced(db.bookings[ref].status)
    requires Local(Engine.CancelStep(ref)) !in events
    ensures var now := History(db, events);
            && ref in now.bookings && Advanced(now.bookings[ref].status)
            && (db.bookings[ref].status == CheckedOut ==> now.bookings[ref].status == CheckedOut)
            && Engine.CheckInSubmit(now, ref, form).Refused?
            && Engine.CheckInSubmit(now, ref, form).db == now
  {
    if |events| > 0 {
      ArrivalsAreNeverUndone(db, events[..|events| - 1], ref, form);
      var before := History(db, events[..|events| - 1]);
      match events[|events| - 1]
      case Local(step) =>
        assert Local(step) in events;
        Engine.StepOnBooking(before, step, ref);
      case Remote(_, _) =>
    }
  }

  // ---------------------------------------------------------------- when a sync double-books

  /** The query assignRoom runs and the sync omits: the booking the row would leave may stand. */
  predicate RowFits(ctx: Context, bookings: map<Id, Booking>, r: Reservation) {
    Usable(r) ==> NoOverlap.Clear(bookings, Reference(r), Mirrored(ctx, Get(bookings, Reference(r)), r))
  }

  /** A row keeps the bookings free of clashes if and only if that query would let it. */
  lemma RowKeepsClashFreeIff(ctx: Context, bookings: map<Id, Booking>, r: Reservation)
    requires NoOverlap.ClashFree(bookings)
    ensures NoOverlap.ClashFree(Upsert(ctx, bookings, r)) <==> RowFits(ctx, bookings, r)
  {
    if Usable(r) {
      NoOverlap.PlacedIff(bookings, Reference(r), Mirrored(ctx, Get(bookings, Reference(r)), r));
    }
  }

  lemma OneMoreEvent(db: Db, events: seq<Event>, k: nat)
    requires k < |events|
    ensures History(db, events[..k + 1]) == Happens(History(db, events[..k]), events[k])
  {
    assert events[..k + 1][..k] == events[..k];
  }

  ghost predicate FreeAt(db: Db, events: seq<Event>, k: nat)
    requires k <= |events|
  {
    NoOverlap.ClashFree(History(db, events[..k]).bookings)
  }

  ghost predicate FitsAt(db: Db, events: seq<Event>, k: nat)
    requires k < |events|
  {
    events[k].Remote? ==> RowFits(events[k].ctx, History(db, events[..k]).bookings, events[k].row)
  }

  lemma EventKeepsFreeIff(db: Db, e: Event)
    requires NoOverlap.ClashFree(db.bookings)
    ensures NoOverlap.ClashFree(Happens(db, e).bookings) <==> (e.Remote? ==> RowFits(e.ctx, db.bookings, e.row))
  {
    match e
    case Local(step) => NoOverlap.StepKeepsClashFree(db, step);
    case Remote(ctx, r) => RowKeepsClashFreeIff(ctx, db.bookings, r);
  }

  /** The engine with its mirror running: from bookings free of clashes, every state of a
      history is free of clashes if and only if every mirrored row fits when it comes. The
      engine's own calls never have to be asked. */
  lemma HistoryIsClashFreeIff(db: Db, events: seq<Event>)
    requires NoOverlap.ClashFree(db.bookings)
    ensures (forall k :: 0 <= k <= |events| ==> FreeAt(db, events, k)) <==>
            (forall k :: 0 <= k < |events| ==> FitsAt(db, events, k))
  {
    var good := k => 0 <= k <= |events| && FreeAt(db, events, k);
    var fits := k => 0 <= k < |events| && FitsAt(db, events, k);
    forall k | 0 <= k < |events| && good(k)
      ensures good(k + 1) <==> fits(k)
    {
      OneMoreEvent(db, events, k);
      EventKeepsFreeIff(History(db, events[..k]), events[k]);
    }
    Throughout.GoodThroughoutIff(good, fits, |events|);
    assert forall k :: 0 <= k <= |events| ==> (good(k) <==> FreeAt(db, events, k));
    assert forall k :: 0 <= k < |events| ==> (fits(k) <==> FitsAt(db, events, k));
  }

  ghost predicate OptionalClash(a: Option<Booking>, b: Option<Booking>) {
    a.Some? && b.Some? && NoOverlap.Clash(a.value, b.value)
  }

  /** One sync, asked of its inputs alone: the table it leaves is free of clashes if and only if
      the closed forms of no two references clash. */
  lemma SyncIsClashFreeIff(ctx: Context, bookings: map<Id, Booking>, rs: seq<Reservation>)
    ensures NoOverlap.ClashFree(UpsertAll(ctx, bookings, rs)) <==>
            forall p, q :: p != q ==> !OptionalClash(After(ctx, Get(bookings, p), rs, p), After(ctx, Get(bookings, q), rs, q))
  {
    var now := UpsertAll(ctx, bookings, rs);
    forall p
      ensures Get(now, p) == After(ctx, Get(bookings, p), rs, p)
    {
      SyncInClosedForm(ctx, bookings, rs, p);
    }
    if NoOverlap.ClashFree(now) {
      forall p, q | p != q
        ensures !OptionalClash(Get(now, p), Get(now, q))
      {
      }
    }
    if forall p, q :: p != q ==> !OptionalClash(After(ctx, Get(bookings, p), rs, p), After(ctx, Get(bookings, q), rs, q)) {
      forall p, q | p in now && q in now && p != q
        ensures !NoOverlap.Clash(now[p], now[q])
      {
        assert !OptionalClash(After(ctx, Get(bookings, p), rs, p), After(ctx, Get(bookings, q), rs, q));
      }
    }
  }

  /** A sync takes rooms from the remote unchecked: two active reservations the remote has in
      one room over the same night end up clashing here. */
  lemma SyncMayDoubleBook(ctx: Context, r: Reservation, q: Reservation, room: Id)
    requires Usable(r) && Usable(q) && Reference(r) != Reference(q)
    requires ResolveRoom(ctx, r) == Some(room) && ResolveRoom(ctx, q) == Some(room)
    requires MapState(r.state) != Cancelled && MapState(q.state) != Cancelled
    requires Days.DayOf(StartOf(r).value) < Days.DayOf(EndOf(q).value)
    requires Days.DayOf(StartOf(q).value) < Days.DayOf(EndOf(r).value)
    ensures var now := UpsertAll(ctx, map[], [r, q]);
            && Reference(r) in now && Reference(q) in now
            && NoOverlap.Clash(now[Reference(r)], now[Reference(q)])
  {
    LastUpsert(ctx, map[], [], r);
    LastUpsert(ctx, map[], [r], q);
    assert [] + [r] == [r] && [r] + [q] == [r, q];
    TwoRows(ctx, r, q);
    assert NoOverlap.Clash(Mirrored(ctx, None, r), Mirrored(ctx, None, q));
  }

  lemma TwoRows(ctx: Context, r: Reservation, q: Reservation)
    requires Usable(r) && Usable(q) && Reference(r) != Reference(q)
    ensures Upsert(ctx, Upsert(ctx, map[], r), q) ==
            map[Reference(r) := Mirrored(ctx, None, r), Reference(q) := Mirrored(ctx, None, q)]
  {
  }

  // ---------------------------------------------------------------- when a sync mismatches rooms

  /** The property and type checks of assignRoom, which the sync omits too: the row brings no
      room, or one that fits the booking it names. */
  predicate RoomSuits(ctx: Context, db: Db, r: Reservation) {
    Usable(r) && ResolveRoom(ctx, r).Some? ==>
      var (ref, m) := (Reference(r), ResolveRoom(ctx, r).value);
      && ref in db.bookings && m in db.rooms
      && db.rooms[m].property == db.bookings[ref].property && Some(db.rooms[m].roomType) == db.bookings[ref].roomType
  }

  /** A row keeps every booking in a room of its own property and type if and only if those
      checks would pass. A booking the mirror starts has no type, so with a room it never fits. */
  lemma RowKeepsPinsFitIff(ctx: Context, db: Db, r: Reservation)
    requires NoOverlap.PinsFit(db)
    ensures NoOverlap.PinsFit(db.(bookings := Upsert(ctx, db.bookings, r))) <==> RoomSuits(ctx, db, r)
  {
    var after := db.(bookings := Upsert(ctx, db.bookings, r));
    if Usable(r) {
      var ref := Reference(r);
      assert ref in db.bookings ==> NoOverlap.WellPinned(db, db.bookings[ref]);
      assert NoOverlap.WellPinned(after, after.bookings[ref]) <==> RoomSuits(ctx, db, r);
      forall x | x in db.bookings && x != ref
        ensures NoOverlap.WellPinned(after, after.bookings[x])
      {
        assert NoOverlap.WellPinned(db, db.bookings[x]);
      }
    }
  }

  ghost predicate PinsFitAt(db: Db, events: seq<Event>, k: nat)
    requires k <= |events|
  {
    NoOverlap.PinsFit(History(db, events[..k]))
  }

  ghost predicate SuitsAt(db: Db, events: seq<Event>, k: nat)
    requires k < |events|
  {
    events[k].Remote? ==> RoomSuits(events[k].ctx, History(db, events[..k]), events[k].row)
  }

  lemma EventKeepsPinsFitIff(db: Db, e: Event)
    requires NoOverlap.PinsFit(db)
    ensures NoOverlap.PinsFit(Happens(db, e)) <==> (e.Remote? ==> RoomSuits(e.ctx, db, e.row))
  {
    match e
    case Local(step) => NoOverlap.StepKeepsPinsFit(db, step);
    case Remote(ctx, r) => RowKeepsPinsFitIff(ctx, db, r);
  }

  /** Over histories: pins fit throughout if and only if every mirrored room suits when it comes. */
  lemma HistoryPinsFitIff(db: Db, events: seq<Event>)
    requires NoOverlap.PinsFit(db)
    ensures (forall k :: 0 <= k <= |events| ==> PinsFitAt(db, events, k)) <==>
            (forall k :: 0 <= k < |events| ==> SuitsAt(db, events, k))
  {
    var good := k => 0 <= k <= |events| && PinsFitAt(db, events, k);
    var fits := k => 0 <= k < |events| && SuitsAt(db, events, k);
    forall k | 0 <= k < |events| && good(k)
      ensures good(k + 1) <==> fits(k)
    {
      OneMoreEvent(db, events, k);
      EventKeepsPinsFitIff(History(db, events[..k]), events[k]);
    }
    Throughout.GoodThroughoutIff(good, fits, |events|);
    assert forall k :: 0 <= k <= |events| ==> (good(k) <==> PinsFitAt(db, events, k));
    assert forall k :: 0 <= k < |events| ==> (fits(k) <==> SuitsAt(db, events, k));
  }

  /** With the mirror running, the promise of one fitting party per room and night holds after any
      history whose rows pass the checks assignRoom would have made. */
  lemma HistoryHousesOneParty(db: Db, events: seq<Event>)
    requires NoOverlap.ClashFree(db.bookings) && NoOverlap.PinsFit(db)
    requires forall k :: 0 <= k < |events| ==> FitsAt(db, events, k) && SuitsAt(db, events, k)
    ensures NoOverlap.OnePartyPerRoomNight(History(db, events))
  {
    HistoryIsClashFreeIff(db, events);
    HistoryPinsFitIff(db, events);
    assert events[..|events|] == events;
    assert FreeAt(db, events, |events|) && PinsFitAt(db, events, |events|);
    NoOverlap.ClashFreeHousesOneParty(History(db, events));
  }

  // ---------------------------------------------------------------- when a sync drifts

  /** The row gives a typed booking other nights, cancels it or brings it back: the calendar is
      not told. */
  predicate RowDrifts(ctx: Context, bookings: map<Id, Booking>, r: Reservation) {
    && Usable(r) && Reference(r) in bookings
    && var b := bookings[Reference(r)];
       b.roomType.Some? && !Conservation.SameNights(b, Mirrored(ctx, Some(b), r))
  }

  /** By how many units a row moves a night's gap. */
  ghost function RowSlip(ctx: Context, bookings: map<Id, Booking>, r: Reservation, p: Id, t: Id, d: int): int {
    if !Usable(r) || Reference(r) !in bookings then 0
    else
      var b := bookings[Reference(r)];
      Conservation.One(Conservation.Holds(b, p, t, d)) - Conservation.One(Conservation.Holds(Mirrored(ctx, Some(b), r), p, t, d))
  }

  lemma RowGap(ctx: Context, db: Db, r: Reservation, p: Id, t: Id, d: int)
    ensures Conservation.Gap(db.(bookings := Upsert(ctx, db.bookings, r)), p, t, d) ==
            Conservation.Gap(db, p, t, d) + RowSlip(ctx, db.bookings, r, p, t, d)
  {
    if Usable(r) {
      var b := Mirrored(ctx, Get(db.bookings, Reference(r)), r);
      Conservation.ReplacedGap(db, db.(bookings := Upsert(ctx, db.bookings, r)), Reference(r), b, p, t, d);
    }
  }

  lemma RowSlipsIff(ctx: Context, bookings: map<Id, Booking>, r: Reservation)
    ensures (forall p, t, d :: RowSlip(ctx, bookings, r, p, t, d) == 0) <==> !RowDrifts(ctx, bookings, r)
  {
    if Usable(r) && Reference(r) in bookings {
      var b := bookings[Reference(r)];
      var n := Mirrored(ctx, Some(b), r);
      forall p, t, d
        ensures RowSlip(ctx, bookings, r, p, t, d) == 0 <==> Conservation.HoldAlike(b, n, p, t, d)
      {
      }
      if b.roomType.Some? {
        Conservation.SameNightsIff(b, n);
      }
    }
  }

  /** A row keeps the ledger conserved if and only if it leaves the booking it names, if typed,
      the nights it holds. */
  lemma RowConservesIff(ctx: Context, db: Db, r: Reservation)
    requires Conservation.Conserved(db)
    ensures Conservation.Conserved(db.(bookings := Upsert(ctx, db.bookings, r))) <==> !RowDrifts(ctx, db.bookings, r)
  {
    var after := db.(bookings := Upsert(ctx, db.bookings, r));
    forall p, t, d
      ensures Conservation.Gap(after, p, t, d) == RowSlip(ctx, db.bookings, r, p, t, d)
    {
      RowGap(ctx, db, r, p, t, d);
      assert Conservation.Gap(db, p, t, d) == 0;
    }
    RowSlipsIff(ctx, db.bookings, r);
  }

  predicate EventDrifts(db: Db, e: Event) {
    match e
    case Local(step) => Conservation.Drifts(db, step)
    case Remote(ctx, r) => RowDrifts(ctx, db.bookings, r)
  }

  lemma EventConservesIff(db: Db, e: Event)
    requires Ledger.WellFormed(db.rows) && Conservation.Conserved(db)
    ensures Conservation.Conserved(Happens(db, e)) <==> !EventDrifts(db, e)
  {
    match e
    case Local(step) => Conservation.StepConservesIff(db, step);
    case Remote(ctx, r) => RowConservesIff(ctx, db, r);
  }

  lemma {:induction false} HistoryKeepsWellFormed(db: Db, events: seq<Event>)
    requires Ledger.WellFormed(db.rows)
    ensures Ledger.WellFormed(History(db, events).rows)
  {
    if |events| > 0 {
      var before := History(db, events[..|events| - 1]);
      HistoryKeepsWellFormed(db, events[..|events| - 1]);
      match events[|events| - 1]
      case Local(step) => Conservation.StepKeepsWellFormed(before, step);
      case Remote(_, _) =>
    }
  }

  ghost predicate ConservedAt(db: Db, events: seq<Event>, k: nat)
    requires k <= |events|
  {
    Conservation.Conserved(History(db, events[..k]))
  }

  ghost predicate EventDriftsAt(db: Db, events: seq<Event>, k: nat)
    requires k < |events|
  {
    EventDrifts(History(db, events[..k]), events[k])
  }

  /** Over histories: the ledger is conserved throughout if and only if no call of the engine is
      one of its drifting ones and no row takes or gives back nights of a typed booking. */
  lemma HistoryConservesIff(db: Db, events: seq<Event>)
    requires Ledger.WellFormed(db.rows) && Conservation.Conserved(db)
    ensures (forall k :: 0 <= k <= |events| ==> ConservedAt(db, events, k)) <==>
            (forall k :: 0 <= k < |events| ==> !EventDriftsAt(db, events, k))
  {
    var good := k => 0 <= k <= |events| && ConservedAt(db, events, k);
    var fits := k => 0 <= k < |events| && !EventDriftsAt(db, events, k);
    forall k | 0 <= k < |events| && good(k)
      ensures good(k + 1) <==> fits(k)
    {
      OneMoreEvent(db, events, k);
      HistoryKeepsWellFormed(db, events[..k]);
      EventConservesIff(History(db, events[..k]), events[k]);
    }
    Throughout.GoodThroughoutIff(good, fits, |events|);
    assert forall k :: 0 <= k <= |events| ==> (good(k) <==> ConservedAt(db, events, k));
    assert forall k :: 0 <= k < |events| ==> (fits(k) <==> !EventDriftsAt(db, events, k));
  }
}
