/** How a booking lives: its status only moves forward, and every arrival and departure was earned. */
module Lifecycle {
  import opened Wrappers
  import opened HotelModel
  import opened Engine
  import Throughout

  /** Where a status may get to, in any number of steps. */
  ghost predicate Reaches(a: Status, b: Status) {
    || a == b
    || (b == Cancelled)
    || ((a == Pending || a == Confirmed) && (b == CheckedIn || b == CheckedOut))
    || (a == CheckedIn && b == CheckedOut)
  }

  /** A booking's life goes one way. Through any run a status only moves forward; a cancelled
      booking never changes again, and a checked-out one can only be cancelled, keeping the rest.
      Only the account either is on may still change: a guest can claim a closed stay. */
  ghost predicate MovedOn(past: Booking, now: Booking) {
    && Reaches(past.status, now.status)
    && (past.guestUser.Some? ==> now.guestUser.Some?)
    && (past.status == Cancelled ==> now == past.(guestUser := now.guestUser))
    && (past.status == CheckedOut ==> now == past.(status := now.status, guestUser := now.guestUser))
  }

  lemma StepMovesOn(db: Db, s: Step, r: Id)
    requires r in db.bookings
    ensures r in Perform(db, s).db.bookings && MovedOn(db.bookings[r], Perform(db, s).db.bookings[r])
    ensures !Names(s, r) ==> Perform(db, s).db.bookings[r] == db.bookings[r]
  {
    StepOnBooking(db, s, r);
  }

  lemma {:induction false} BookingsOnlyMoveOn(db: Db, steps: seq<Step>, r: Id)
    requires r in db.bookings
    ensures r in Run(db, steps).bookings && MovedOn(db.bookings[r], Run(db, steps).bookings[r])
    ensures (forall s :: s in steps ==> !Names(s, r)) ==> Run(db, steps).bookings[r] == db.bookings[r]
  {
    if |steps| > 0 {
      BookingsOnlyMoveOn(db, steps[..|steps| - 1], r);
      StepMovesOn(Run(db, steps[..|steps| - 1]), steps[|steps| - 1], r);
    }
  }

  // ---------------------------------------------------------------- nothing happens unearned

  /** A complete check-in of a booking that was waiting for it. */
  ghost predicate Arrives(db: Db, s: Step, r: Id) {
    && s.CheckInStep? && s.reference == r && CheckInComplete(s.checkInForm)
    && r in db.bookings && (db.bookings[r].status == Pending || db.bookings[r].status == Confirmed)
  }

  /** A complete check-out, by someone entitled to it, of a booking that was checked in and is
      settled or has a payment method chosen. */
  ghost predicate Departs(db: Db, s: Step, r: Id) {
    && s.CheckOutStep? && s.reference == r && CheckOutComplete(s.checkOutForm)
    && r in db.bookings && db.bookings[r].status == CheckedIn
    && MayCheckOut(s.caller, r, db.bookings[r])
    && (db.bookings[r].total <= db.bookings[r].paid || s.checkOutForm.payment)
  }

  /** Somewhere along the run the guest arrived. */
  ghost predicate Arrived(db: Db, steps: seq<Step>, r: Id) {
    exists k :: 0 <= k < |steps| && Arrives(Run(db, steps[..k]), steps[k], r)
  }

  ghost predicate Departed(db: Db, steps: seq<Step>, r: Id) {
    exists k :: 0 <= k < |steps| && Departs(Run(db, steps[..k]), steps[k], r)
  }

  lemma StepIsEarned(db: Db, s: Step, r: Id)
    requires r in Perform(db, s).db.bookings
    ensures var now := Perform(db, s).db.bookings[r].status;
            && (now == CheckedIn ==> Arrives(db, s, r) || (r in db.bookings && db.bookings[r].status == CheckedIn))
            && (now == CheckedOut ==> Departs(db, s, r) || (r in db.bookings && db.bookings[r].status == CheckedOut))
  {
    StepOnBooking(db, s, r);
  }

  lemma Extends(db: Db, steps: seq<Step>, n: nat, r: Id)
    requires n <= |steps|
    ensures Arrived(db, steps[..n], r) ==> Arrived(db, steps, r)
    ensures Departed(db, steps[..n], r) ==> Departed(db, steps, r)
  {
    if k :| 0 <= k < n && Arrives(Run(db, steps[..n][..k]), steps[..n][k], r) {
      assert steps[..n][..k] == steps[..k];
    }
    if k :| 0 <= k < n && Departs(Run(db, steps[..n][..k]), steps[..n][k], r) {
      assert steps[..n][..k] == steps[..k];
    }
  }

  /** In any state reached from an empty hotel, a booking that is checked in, or out, arrived
      through a complete check-in; and one that is checked out left through a check-out it was
      entitled to. */
  lemma {:induction false} EveryArrivalAndDepartureWasEarned(db: Db, steps: seq<Step>, r: Id)
    requires Fresh(db) && r in Run(db, steps).bookings
    ensures var now := Run(db, steps).bookings[r].status;
            && (now == CheckedIn || now == CheckedOut ==> Arrived(db, steps, r))
            && (now == CheckedOut ==> Departed(db, steps, r))
  {
    if |steps| > 0 {
      var n := |steps| - 1;
      var before := Run(db, steps[..n]);
      StepIsEarned(before, steps[n], r);
      Extends(db, steps, n, r);
      if r in before.bookings {
        EveryArrivalAndDepartureWasEarned(db, steps[..n], r);
      }
    }
  }

  // ---------------------------------------------------------------- closed stays

  /** A claim that goes through and puts the booking on another account. */
  predicate TakenOver(b: Booking, s: Step, r: Id) {
    s.ClaimStep? && s.reference == r && b.guestUser != Some(s.user) && (b.guestUser.None? || s.emailMatches)
  }

  /** What a step would have to be to change a booking that is cancelled or checked out. */
  predicate Disturbs(b: Booking, s: Step, r: Id) {
    TakenOver(b, s, r) || (b.status == CheckedOut && s == CancelStep(r))
  }

  /** A closed stay is not quite frozen, and this is exactly when: a cancelled booking changes
      when a claim takes it over, a checked-out one also when it is cancelled, and neither
      through any other call. */
  lemma ClosedChangesIff(db: Db, s: Step, r: Id)
    requires r in db.bookings && Terminal(db.bookings[r])
    ensures r in Perform(db, s).db.bookings
    ensures Perform(db, s).db.bookings[r] != db.bookings[r] <==> Disturbs(db.bookings[r], s, r)
    ensures TakenOver(db.bookings[r], s, r) ==>
              Perform(db, s).db.bookings[r] == db.bookings[r].(guestUser := Some(s.user))
  {
    StepOnBooking(db, s, r);
  }

  ghost predicate SameAt(db: Db, steps: seq<Step>, k: nat, r: Id)
    requires k <= |steps| && r in db.bookings
  {
    var now := Run(db, steps[..k]);
    r in now.bookings && now.bookings[r] == db.bookings[r]
  }

  /** Over whole runs: a closed stay remains as it is throughout if and only if the run holds no
      step that would disturb it as it is. */
  lemma ClosedStaysIff(db: Db, steps: seq<Step>, r: Id)
    requires r in db.bookings && Terminal(db.bookings[r])
    ensures (forall k :: 0 <= k <= |steps| ==> SameAt(db, steps, k, r)) <==>
            (forall s :: s in steps ==> !Disturbs(db.bookings[r], s, r))
  {
    var good := k => 0 <= k <= |steps| && SameAt(db, steps, k, r);
    var fits := k => 0 <= k < |steps| && !Disturbs(db.bookings[r], steps[k], r);
    forall k | 0 <= k < |steps| && good(k)
      ensures good(k + 1) <==> fits(k)
    {
      RunOneMore(db, steps, k);
      ClosedChangesIff(Run(db, steps[..k]), steps[k], r);
    }
    Throughout.GoodThroughoutIff(good, fits, |steps|);
    assert forall k :: 0 <= k <= |steps| ==> (good(k) <==> SameAt(db, steps, k, r));
    assert forall k :: 0 <= k < |steps| ==> (fits(k) <==> !Disturbs(db.bookings[r], steps[k], r));
  }

  // ---------------------------------------------------------------- whose booking it is

  /** A complete check-in of a waiting booking on no account, with an email to go by. */
  predicate LinkedOnArrival(b: Booking, s: Step, r: Id) {
    && s.CheckInStep? && s.reference == r && CheckInComplete(s.checkInForm)
    && (b.status == Pending || b.status == Confirmed) && b.guestUser.None?
    && var email := s.checkInForm.email.OrElse(b.guest.email);
       email.Some? && email.value != ""
  }

  /** Exactly when the account of a booking changes, whatever its status. */
  lemma AccountChangesIff(db: Db, s: Step, r: Id)
    requires r in db.bookings
    ensures r in Perform(db, s).db.bookings
    ensures Perform(db, s).db.bookings[r].guestUser != db.bookings[r].guestUser <==>
            TakenOver(db.bookings[r], s, r) || LinkedOnArrival(db.bookings[r], s, r)
  {
    StepOnBooking(db, s, r);
  }

  ghost predicate SameAccountAt(db: Db, steps: seq<Step>, k: nat, r: Id)
    requires k <= |steps| && r in db.bookings
  {
    var now := Run(db, steps[..k]);
    r in now.bookings && now.bookings[r].guestUser == db.bookings[r].guestUser
  }

  /** A claim of the booking by another guest whose email is on it. */
  predicate ClaimedAway(b: Booking, s: Step, r: Id) {
    s.ClaimStep? && s.reference == r && b.guestUser != Some(s.user) && s.emailMatches
  }

  /** Once a booking is on an account it stays there throughout a run if and only if no other
      guest whose email is on the booking claims it: knowing the reference alone takes it from
      nobody. */
  lemma AccountIsKeptIff(db: Db, steps: seq<Step>, r: Id)
    requires r in db.bookings && db.bookings[r].guestUser.Some?
    ensures (forall k :: 0 <= k <= |steps| ==> SameAccountAt(db, steps, k, r)) <==>
            (forall s :: s in steps ==> !ClaimedAway(db.bookings[r], s, r))
  {
    var good := k => 0 <= k <= |steps| && SameAccountAt(db, steps, k, r);
    var fits := k => 0 <= k < |steps| && !ClaimedAway(db.bookings[r], steps[k], r);
    forall k | 0 <= k < |steps| && good(k)
      ensures good(k + 1) <==> fits(k)
    {
      RunOneMore(db, steps, k);
      AccountChangesIff(Run(db, steps[..k]), steps[k], r);
    }
    Throughout.GoodThroughoutIff(good, fits, |steps|);
    assert forall k :: 0 <= k <= |steps| ==> (good(k) <==> SameAccountAt(db, steps, k, r));
    assert forall k :: 0 <= k < |steps| ==> (fits(k) <==> !ClaimedAway(db.bookings[r], steps[k], r));
  }
}
