/**
 * Properties that relate several service operations: a window is claimed
 * at most once by the booking service however its calls are ordered, one
 * after another (concurrent calls are not covered, since the service takes
 * no lock on the window), deleting a booking strands its window, an administrator's
 * move is what releases one, and a spot created from a valid request
 * yields positive booking totals.
 */
module Properties {
  import opened Model
  import opened Store
  import BookingService
  import AvailabilityService
  import AdminService
  import Validation

  /** A call of one of the booking service's mutating operations, made at instant `at`. */
  datatype BookingOp =
    | Create(req: BookingRequest, at: Time)
    | SetStatus(bookingId: Id, status: string, at: Time)
    | Delete(bookingId: Id, at: Time)

  /** The database after one operation, run at the operation's own instant. */
  function Step(db: Db, op: BookingOp): (db': Db)
    requires Inv(db)
    ensures Inv(db')
  {
    match op
    case Create(req, at) => BookingService.CreateBookingSpec(db, req, at).db
    case SetStatus(id, status, at) => BookingService.UpdateStatusSpec(db, id, status, at).db
    case Delete(id, at) => BookingService.DeleteBookingSpec(db, id, at).db
  }

  /** Whether the operation is a successful `createBooking` of window `wid`. */
  predicate Claims(db: Db, op: BookingOp, wid: Id)
    requires Inv(db)
  {
    op.Create? && op.req.availabilityId == wid && BookingService.CreateBookingSpec(db, op.req, op.at).result.Ok?
  }

  /** How many operations of the sequence, run in order, claim window `wid`. */
  function ClaimCount(db: Db, ops: seq<BookingOp>, wid: Id): nat
    requires Inv(db)
    decreases |ops|
  {
    if ops == [] then 0
    else (if Claims(db, ops[0], wid) then 1 else 0) + ClaimCount(Step(db, ops[0]), ops[1..], wid)
  }

  /**
   * No booking operation adds or removes a window, changes a window's times,
   * or clears a booked flag.
   */
  lemma StepKeepsWindows(db: Db, op: BookingOp, wid: Id)
    requires Inv(db)
    ensures wid in db.windows <==> wid in Step(db, op).windows
    ensures wid in db.windows && db.windows[wid].isBooked ==> Step(db, op).windows[wid].isBooked
    ensures wid in db.windows && !Claims(db, op, wid) ==> Step(db, op).windows[wid] == db.windows[wid]
  {
  }

  /** Once booked, a window is never claimed again by the booking service. */
  lemma {:induction false} BookedWindowNeverClaimed(db: Db, ops: seq<BookingOp>, wid: Id)
    requires Inv(db) && wid in db.windows && db.windows[wid].isBooked
    ensures ClaimCount(db, ops, wid) == 0
    decreases |ops|
  {
    if ops != [] {
      StepKeepsWindows(db, ops[0], wid);
      BookedWindowNeverClaimed(Step(db, ops[0]), ops[1..], wid);
    }
  }

  /** A window that does not exist is never claimed by the booking service. */
  lemma {:induction false} MissingWindowNeverClaimed(db: Db, ops: seq<BookingOp>, wid: Id)
    requires Inv(db) && wid !in db.windows
    ensures ClaimCount(db, ops, wid) == 0
    decreases |ops|
  {
    if ops != [] {
      StepKeepsWindows(db, ops[0], wid);
      MissingWindowNeverClaimed(Step(db, ops[0]), ops[1..], wid);
    }
  }

  /**
   * Any sequence of `createBooking`, `updateStatus` and `deleteBooking`
   * calls, each at its own instant and run one after another, claims a
   * window at most once, and only a window that was present and free at the
   * start. Deleting the booking does not make it claimable again.
   */
  lemma {:induction false} ClaimedAtMostOnce(db: Db, ops: seq<BookingOp>, wid: Id)
    requires Inv(db)
    ensures ClaimCount(db, ops, wid) <= (if wid in db.windows && !db.windows[wid].isBooked then 1 else 0)
    decreases |ops|
  {
    if wid !in db.windows {
      MissingWindowNeverClaimed(db, ops, wid);
    } else if db.windows[wid].isBooked {
      BookedWindowNeverClaimed(db, ops, wid);
    } else if ops != [] {
      var next := Step(db, ops[0]);
      StepKeepsWindows(db, ops[0], wid);
      if Claims(db, ops[0], wid) {
        BookedWindowNeverClaimed(next, ops[1..], wid);
      } else {
        ClaimedAtMostOnce(next, ops[1..], wid);
      }
    }
  }

  /** A second `createBooking` of a window that was just claimed fails with "Already booked". */
  lemma SecondClaimFails(db: Db, req: BookingRequest, req2: BookingRequest, now: Time, later: Time)
    requires Inv(db)
    requires BookingService.CreateBookingSpec(db, req, now).result.Ok?
    requires req2.availabilityId == req.availabilityId
    ensures var o := BookingService.CreateBookingSpec(db, req, now);
      BookingService.CreateBookingSpec(o.db, req2, later) == Outcome(Err(AlreadyBooked), o.db)
  {
  }

  /**
   * After `deleteBooking` the window it held is still marked booked although
   * no booking holds it: it can be neither booked again nor deleted, by its
   * owner or by an administrator.
   */
  lemma DeletedBookingStrandsWindow(db: Db, bookingId: Id, now: Time, renter: Id, actor: Id)
    requires Inv(db) && bookingId in db.bookings
    ensures var wid := db.bookings[bookingId].windowId;
      var db' := BookingService.DeleteBookingSpec(db, bookingId, now).db;
      && wid in db'.windows && db'.windows[wid].isBooked
      && (forall b | b in db'.bookings :: db'.bookings[b].windowId != wid)
      && BookingService.CreateBookingSpec(db', BookingRequest(wid, renter), now).result == Err(AlreadyBooked)
      && AvailabilityService.DeleteAvailabilitySpec(db', actor, wid).result.Err?
      && AdminService.AdminDeleteAvailabilitySpec(db', wid).result == Err(WindowBooked)
  {
    var wid := db.bookings[bookingId].windowId;
    var db' := BookingService.DeleteBookingSpec(db, bookingId, now).db;
    forall b | b in db'.bookings ensures db'.bookings[b].windowId != wid {
      assert b in db.bookings && b != bookingId;
    }
  }

  /**
   * An administrator's move releases the old window: a renter can then claim
   * it through the booking service, provided it spans at least an hour and
   * its spot has a price.
   */
  lemma AdminMoveReleasesWindow(db: Db, bookingId: Id, req: BookingRequest, now: Time, renter: Id, later: Time)
    requires Inv(db) && bookingId in db.bookings
    requires req.availabilityId != db.bookings[bookingId].windowId
    requires AdminService.UpdateBookingSpec(db, bookingId, req, now).result.Ok?
    requires renter in db.users
    ensures var from := db.bookings[bookingId].windowId;
      var db' := AdminService.UpdateBookingSpec(db, bookingId, req, now).db;
      var w := db.windows[from];
      && from in db'.windows && !db'.windows[from].isBooked
      && (BookingService.CreateBookingSpec(db', BookingRequest(from, renter), later).result.Ok? <==>
            HoursBetween(w.start, w.end) > 0 && db.spots[w.spotId].pricePerHour.Some?)
  {
    assert BookingRefsOk(db, db.bookings[bookingId]);
  }

  /**
   * The price guard of a valid spot request rules out a non-positive total:
   * a window of at least one hour on such a spot costs more than nothing.
   */
  lemma ValidSpotPricesPositive(dto: SpotRequest, w: Window)
    requires Validation.ValidSpotRequest(dto)
    requires HoursBetween(w.start, w.end) > 0
    ensures BookingService.Price(dto.pricePerHour.value, w) > 0.0
  {
    var h := HoursBetween(w.start, w.end) as real;
    assert h >= 1.0;
    assert dto.pricePerHour.value * h >= dto.pricePerHour.value;
  }
}
