/** What a stay costs, and that the guest was told so. */
module Pricing {
  import opened HotelModel
  import opened Engine
  import PublicView

  /** A stay split at any interior day costs what its two parts cost. */
  lemma {:induction false} StayPriceSplits(rows: seq<Row>, p: Id, t: Id, base: int, checkIn: int, middle: int, checkOut: int)
    requires checkIn <= middle <= checkOut
    ensures StayPrice(rows, p, t, base, checkIn, checkOut) ==
            StayPrice(rows, p, t, base, checkIn, middle) + StayPrice(rows, p, t, base, middle, checkOut)
    decreases checkOut - middle
  {
    if middle < checkOut {
      StayPriceSplits(rows, p, t, base, checkIn, middle, checkOut - 1);
    }
  }

  function ShownTotal(days: seq<PublicView.DayView>): int {
    if |days| == 0 then 0 else ShownTotal(days[..|days| - 1]) + days[|days| - 1].price
  }

  /** The total charged by create is the sum of the nightly prices the website shows for the
      same dates, and the stored nights are as many as the nights shown. */
  lemma ChargedAsShown(db: Db, i: CreateInput)
    requires Create(db, i).Done?
    ensures var view := PublicView.PublicAvailability(db, i.property, i.checkIn, i.checkOut);
            var b := Create(db, i).db.bookings[i.reference];
            && view.Ok? && i.roomType in view.value
            && b.total == ShownTotal(view.value[i.roomType])
            && b.nights == |view.value[i.roomType]|
  {
    assert Create(db, i).db.bookings[i.reference] == NewBooking(db, i);
    assert FirstDay(i) < LastDay(i) && i.roomType in db.roomTypes && db.roomTypes[i.roomType].property == i.property;
    ShownIsCharged(db, i);
  }

  lemma ShownIsCharged(db: Db, i: CreateInput)
    requires FirstDay(i) < LastDay(i) && i.roomType in db.roomTypes && db.roomTypes[i.roomType].property == i.property
    ensures var view := PublicView.PublicAvailability(db, i.property, i.checkIn, i.checkOut);
            && view.Ok? && i.roomType in view.value
            && NewBooking(db, i).total == ShownTotal(view.value[i.roomType])
            && NewBooking(db, i).nights == |view.value[i.roomType]|
  {
    PublicView.ViewIsPointwise(db, i.property, i.checkIn, i.checkOut);
    var days := PublicView.PublicAvailability(db, i.property, i.checkIn, i.checkOut).value[i.roomType];
    ShownIsStayPrice(db, i.property, i.roomType, FirstDay(i), days);
  }

  lemma {:induction false} ShownIsStayPrice(db: Db, p: Id, t: Id, first: int, days: seq<PublicView.DayView>)
    requires t in db.roomTypes
    requires forall k :: 0 <= k < |days| ==> days[k] == PublicView.DayAt(db, p, t, first + k)
    ensures ShownTotal(days) == StayPrice(db.rows, p, t, db.roomTypes[t].basePrice, first, first + |days|)
  {
    if |days| > 0 {
      ShownIsStayPrice(db, p, t, first, days[..|days| - 1]);
    }
  }

  /** When the nights shown are all in one currency, that is the currency charged. */
  lemma ChargedInShownCurrency(db: Db, i: CreateInput, c: string)
    requires Create(db, i).Done? && c != ""
    requires var view := PublicView.PublicAvailability(db, i.property, i.checkIn, i.checkOut);
             view.Ok? && i.roomType in view.value
             && forall k :: 0 <= k < |view.value[i.roomType]| ==> view.value[i.roomType][k].currency == c
    ensures Create(db, i).db.bookings[i.reference].currency == c
  {
    assert Create(db, i).db.bookings[i.reference] == NewBooking(db, i);
    NightsShowCurrency(db, i, c);
    CurrencyShown(db, i.property, i.roomType, c, FirstDay(i), LastDay(i));
  }

  lemma NightsShowCurrency(db: Db, i: CreateInput, c: string)
    requires FirstDay(i) < LastDay(i) && i.roomType in db.roomTypes
    requires var view := PublicView.PublicAvailability(db, i.property, i.checkIn, i.checkOut);
             view.Ok? && i.roomType in view.value
             && forall k :: 0 <= k < |view.value[i.roomType]| ==> view.value[i.roomType][k].currency == c
    ensures forall d :: FirstDay(i) <= d < LastDay(i) ==> PublicView.DayAt(db, i.property, i.roomType, d).currency == c
  {
    PublicView.ViewIsPointwise(db, i.property, i.checkIn, i.checkOut);
    var days := PublicView.PublicAvailability(db, i.property, i.checkIn, i.checkOut).value[i.roomType];
    forall d | FirstDay(i) <= d < LastDay(i)
      ensures PublicView.DayAt(db, i.property, i.roomType, d).currency == c
    {
      assert days[d - FirstDay(i)].currency == c;
    }
  }

  lemma {:induction false} CurrencyShown(db: Db, p: Id, t: Id, c: string, checkIn: int, checkOut: int)
    requires t in db.roomTypes && checkIn < checkOut && c != ""
    requires forall d :: checkIn <= d < checkOut ==> PublicView.DayAt(db, p, t, d).currency == c
    ensures StayCurrency(db.rows, p, t, db.roomTypes[t].currency, checkIn, checkOut) == c
    decreases checkOut - checkIn
  {
    assert PublicView.DayAt(db, p, t, checkOut - 1).currency == c;
    if checkIn < checkOut - 1 {
      CurrencyShown(db, p, t, c, checkIn, checkOut - 1);
    }
  }
}
