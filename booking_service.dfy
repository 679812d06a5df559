/**
 * BookingServiceImpl: claiming a window for a renter, overwriting a
 * booking's status, deleting a booking, and the read operations, each of
 * which snapshots bookings into response records.
 *
 * Every mutating operation is given twice: as a function from the database
 * before to the `Outcome` after (its contract states what the service
 * promises), and as a method that performs the same steps on a `ParkStore`
 * and is proved to agree with that function.
 */
module BookingService {
  import opened Model
  import opened Store

  /** The status every new booking starts in. */
  const Confirmed: string := "confirmed"

  /**
   * `toDto`: a booking as the API returns it. The owner is read from the
   * spot and the times from the window at the moment of the call, so they
   * follow later changes to either.
   */
  function ToDto(db: Db, id: Id, b: Booking): (r: BookingResponse)
    requires b.spotId in db.spots && b.windowId in db.windows
    ensures r.bookingId == id && r.spotId == b.spotId && r.renterId == b.renterId
    ensures r.ownerId == db.spots[b.spotId].ownerId
    ensures r.status == b.status && r.totalAmount == b.totalAmount
    ensures r.startTime == db.windows[b.windowId].start && r.endTime == db.windows[b.windowId].end
  {
    var w := db.windows[b.windowId];
    BookingResponse(id, b.spotId, b.renterId, db.spots[b.spotId].ownerId,
                    b.status, b.totalAmount, w.start, w.end)
  }

  /**
   * `log`: the audit snapshot of a booking. The duration is recomputed from
   * the booking's current window; amount and status are the booking's own.
   */
  function LogEntryOf(db: Db, id: Id, b: Booking, now: Time): (e: LogEntry)
    requires b.spotId in db.spots && b.windowId in db.windows
    ensures e.bookingId == id && e.spotId == b.spotId && e.renterId == b.renterId
    ensures e.ownerId == db.spots[b.spotId].ownerId
    ensures e.startTime == db.windows[b.windowId].start && e.endTime == db.windows[b.windowId].end
    ensures e.durationHours == HoursBetween(e.startTime, e.endTime)
    ensures e.durationHours > 0 <==> e.endTime - e.startTime >= NanosPerHour
    ensures e.totalAmount == b.totalAmount && e.bookingStatus == b.status && e.loggedAt == now
  {
    var w := db.windows[b.windowId];
    LogEntry(id, b.spotId, db.spots[b.spotId].ownerId, b.renterId, w.start, w.end,
             HoursBetween(w.start, w.end), b.totalAmount, b.status, now)
  }

  /** The price of a window: the hourly rate times its truncated whole hours. */
  function Price(rate: real, w: Window): real {
    rate * HoursBetween(w.start, w.end) as real
  }

  /** `createBooking`: the database after claiming a window for a renter. */
  function CreateBookingSpec(db: Db, req: BookingRequest, now: Time): (o: Outcome<BookingResponse>)
    requires Inv(db)
    ensures Inv(o.db)
    ensures o.result.Err? ==> o.db == db
    // the failures, in the order the service checks them
    ensures req.availabilityId !in db.windows ==> o.result == Err(AvailabilityNotFound)
    ensures req.availabilityId in db.windows ==>
      var w := db.windows[req.availabilityId];
      && (w.isBooked ==> o.result == Err(AlreadyBooked))
      && (!w.isBooked && req.renterId !in db.users ==> o.result == Err(RenterNotFound))
      && (!w.isBooked && req.renterId in db.users && HoursBetween(w.start, w.end) <= 0 ==>
            o.result == Err(InvalidTimeWindow))
      && ((!w.isBooked && req.renterId in db.users && HoursBetween(w.start, w.end) > 0
             && db.spots[w.spotId].pricePerHour.None?) ==> o.result == Err(NullPrice))
    ensures o.result.Ok? <==>
      && req.availabilityId in db.windows
      && !db.windows[req.availabilityId].isBooked
      && req.renterId in db.users
      && HoursBetween(db.windows[req.availabilityId].start, db.windows[req.availabilityId].end) > 0
      && db.spots[db.windows[req.availabilityId].spotId].pricePerHour.Some?
    // a success adds one confirmed booking, claims its window and logs it
    ensures o.result.Ok? ==>
      var w := db.windows[req.availabilityId];
      var spot := db.spots[w.spotId];
      var id := db.nextBookingId;
      var total := Price(spot.pricePerHour.value, w);
      && id !in db.bookings
      && o.db == db.(bookings := db.bookings[id := Booking(w.spotId, req.renterId, req.availabilityId,
                                                           Confirmed, total, now)],
                     windows := db.windows[req.availabilityId := w.(isBooked := true)],
                     log := db.log + [LogEntry(id, w.spotId, spot.ownerId, req.renterId, w.start, w.end,
                                               HoursBetween(w.start, w.end), total, Confirmed, now)],
                     nextBookingId := id + 1)
      && o.result.value == BookingResponse(id, w.spotId, req.renterId, spot.ownerId, Confirmed,
                                           total, w.start, w.end)
  {
    if req.availabilityId !in db.windows then Outcome(Err(AvailabilityNotFound), db)
    else
      var w := db.windows[req.availabilityId];
      if w.isBooked then Outcome(Err(AlreadyBooked), db)
      else if req.renterId !in db.users then Outcome(Err(RenterNotFound), db)
      else if HoursBetween(w.start, w.end) <= 0 then Outcome(Err(InvalidTimeWindow), db)
      else
        var spot := db.spots[w.spotId];
        if spot.pricePerHour.None? then Outcome(Err(NullPrice), db)
        else
          var id := db.nextBookingId;
          var booking := Booking(w.spotId, req.renterId, req.availabilityId, Confirmed,
                                 Price(spot.pricePerHour.value, w), now);
          var claimed := db.(windows := db.windows[req.availabilityId := w.(isBooked := true)],
                             bookings := db.bookings[id := booking],
                             nextBookingId := id + 1);
          var logged := claimed.(log := claimed.log + [LogEntryOf(claimed, id, booking, now)]);
          UnbookedWindowClaimable(db, req.availabilityId);
          Outcome(Ok(ToDto(logged, id, booking)), logged)
  }

  /** No booking holds an unbooked window, so claiming it keeps `Inv`. */
  lemma UnbookedWindowClaimable(db: Db, w: Id)
    requires Inv(db) && w in db.windows && !db.windows[w].isBooked
    ensures forall b | b in db.bookings :: db.bookings[b].windowId != w
  {
    forall b | b in db.bookings ensures db.bookings[b].windowId != w {
      UnbookedWindowIsFree(db, w, b);
    }
  }

  /**
   * `updateStatus`: overwrites the status with any string and logs the
   * booking. No other field of any table changes; in particular the
   * window's booked flag is left as it was.
   */
  function UpdateStatusSpec(db: Db, bookingId: Id, status: string, now: Time): (o: Outcome<()>)
    requires Inv(db)
    ensures Inv(o.db)
    ensures o.result.Err? ==> o.db == db
    ensures o.result == Err(BookingNotFound) <==> bookingId !in db.bookings
    ensures o.result.Ok? <==> bookingId in db.bookings
    ensures o.result.Ok? ==>
      var b := db.bookings[bookingId];
      var w := db.windows[b.windowId];
      && o.db == db.(bookings := db.bookings[bookingId := b.(status := status)],
                     log := db.log + [LogEntry(bookingId, b.spotId, db.spots[b.spotId].ownerId, b.renterId,
                                               w.start, w.end, HoursBetween(w.start, w.end),
                                               b.totalAmount, status, now)])
  {
    if bookingId !in db.bookings then Outcome(Err(BookingNotFound), db)
    else
      var b := db.bookings[bookingId].(status := status);
      var saved := db.(bookings := db.bookings[bookingId := b]);
      Outcome(Ok(()), saved.(log := saved.log + [LogEntryOf(saved, bookingId, b, now)]))
  }

  /**
   * `deleteBooking`: removes exactly that booking and logs its last state.
   * The window it held keeps its booked flag.
   */
  function DeleteBookingSpec(db: Db, bookingId: Id, now: Time): (o: Outcome<()>)
    requires Inv(db)
    ensures Inv(o.db)
    ensures o.result.Err? ==> o.db == db
    ensures o.result == Err(BookingNotFound) <==> bookingId !in db.bookings
    ensures o.result.Ok? <==> bookingId in db.bookings
    ensures o.result.Ok? ==>
      var b := db.bookings[bookingId];
      var w := db.windows[b.windowId];
      && b.windowId in o.db.windows && o.db.windows[b.windowId].isBooked
      && o.db == db.(bookings := db.bookings - {bookingId},
                     log := db.log + [LogEntry(bookingId, b.spotId, db.spots[b.spotId].ownerId, b.renterId,
                                               w.start, w.end, HoursBetween(w.start, w.end),
                                               b.totalAmount, b.status, now)])
  {
    if bookingId !in db.bookings then Outcome(Err(BookingNotFound), db)
    else
      var b := db.bookings[bookingId];
      assert BookingRefsOk(db, b);
      var deleted := db.(bookings := db.bookings - {bookingId});
      Outcome(Ok(()), deleted.(log := deleted.log + [LogEntryOf(deleted, bookingId, b, now)]))
  }

  /** `getBookingById`. */
  function GetBookingById(db: Db, id: Id): (r: Result<BookingResponse>)
    requires Inv(db)
    ensures r.Err? <==> id !in db.bookings
    ensures r.Err? ==> r.error == BookingNotFound
    ensures r.Ok? ==>
      var b := db.bookings[id];
      && b.spotId in db.spots && b.windowId in db.windows
      && r.value == BookingResponse(id, b.spotId, b.renterId, db.spots[b.spotId].ownerId, b.status,
                                    b.totalAmount, db.windows[b.windowId].start, db.windows[b.windowId].end)
  {
    if id !in db.bookings then Err(BookingNotFound)
    else
      assert BookingRefsOk(db, db.bookings[id]);
      Ok(ToDto(db, id, db.bookings[id]))
  }

  /** The response record of a stored booking. */
  function DtoOf(db: Db, id: Id): (r: BookingResponse)
    requires Inv(db) && id in db.bookings
    ensures db.bookings[id].spotId in db.spots && db.bookings[id].windowId in db.windows
    ensures r == ToDto(db, id, db.bookings[id])
  {
    assert BookingRefsOk(db, db.bookings[id]);
    ToDto(db, id, db.bookings[id])
  }

  /** `getBookingsByRenter`: the bookings whose renter is the given user. */
  function BookingsByRenter(db: Db, renterId: Id): (r: set<BookingResponse>)
    requires Inv(db)
    ensures forall d | d in r ::
      d.bookingId in db.bookings && db.bookings[d.bookingId].renterId == renterId && d == DtoOf(db, d.bookingId)
    ensures forall id | id in db.bookings && db.bookings[id].renterId == renterId :: DtoOf(db, id) in r
  {
    set id | id in db.bookings && db.bookings[id].renterId == renterId :: DtoOf(db, id)
  }

  /** `getBookingsByOwner`: the bookings on spots the given user currently owns. */
  function BookingsByOwner(db: Db, ownerId: Id): (r: set<BookingResponse>)
    requires Inv(db)
    ensures forall d | d in r ::
      && d.bookingId in db.bookings && db.bookings[d.bookingId].spotId in db.spots
      && db.spots[db.bookings[d.bookingId].spotId].ownerId == ownerId
      && d == DtoOf(db, d.bookingId)
    ensures forall id | id in db.bookings && db.spots[db.bookings[id].spotId].ownerId == ownerId ::
      DtoOf(db, id) in r
  {
    set id | id in db.bookings && db.spots[db.bookings[id].spotId].ownerId == ownerId :: DtoOf(db, id)
  }

  method CreateBooking(st: ParkStore, req: BookingRequest, now: Time) returns (r: Result<BookingResponse>)
    requires st.Valid()
    modifies st
    ensures st.Valid()
    ensures Outcome(r, st.State()) == CreateBookingSpec(old(st.State()), req, now)
  {
    if req.availabilityId !in st.windows {
      return Err(AvailabilityNotFound);
    }
    var w := st.windows[req.availabilityId];
    if w.isBooked {
      return Err(AlreadyBooked);
    }
    if req.renterId !in st.users {
      return Err(RenterNotFound);
    }
    var hours := HoursBetween(w.start, w.end);
    if hours <= 0 {
      return Err(InvalidTimeWindow);
    }
    var spot := st.spots[w.spotId];
    if spot.pricePerHour.None? {
      return Err(NullPrice);
    }
    ghost var before := st.State();
    var booking := Booking(w.spotId, req.renterId, req.availabilityId, Confirmed,
                           Price(spot.pricePerHour.value, w), now);
    var id := st.nextBookingId;
    w := w.(isBooked := true);
    st.bookings := st.bookings[id := booking];
    st.nextBookingId := id + 1;
    st.windows := st.windows[req.availabilityId := w];
    st.log := st.log + [LogEntryOf(st.State(), id, booking, now)];
    r := Ok(ToDto(st.State(), id, booking));
    assert Outcome(r, st.State()) == CreateBookingSpec(before, req, now);
  }

  method UpdateStatus(st: ParkStore, bookingId: Id, status: string, now: Time) returns (r: Result<()>)
    requires st.Valid()
    modifies st
    ensures st.Valid()
    ensures Outcome(r, st.State()) == UpdateStatusSpec(old(st.State()), bookingId, status, now)
  {
    if bookingId !in st.bookings {
      return Err(BookingNotFound);
    }
    ghost var before := st.State();
    var b := st.bookings[bookingId];
    b := b.(status := status);
    st.bookings := st.bookings[bookingId := b];
    st.log := st.log + [LogEntryOf(st.State(), bookingId, b, now)];
    r := Ok(());
    assert Outcome(r, st.State()) == UpdateStatusSpec(before, bookingId, status, now);
  }

  method DeleteBooking(st: ParkStore, bookingId: Id, now: Time) returns (r: Result<()>)
    requires st.Valid()
    modifies st
    ensures st.Valid()
    ensures Outcome(r, st.State()) == DeleteBookingSpec(old(st.State()), bookingId, now)
  {
    if bookingId !in st.bookings {
      return Err(BookingNotFound);
    }
    ghost var before := st.State();
    var b := st.bookings[bookingId];
    st.bookings := st.bookings - {bookingId};
    st.log := st.log + [LogEntryOf(st.State(), bookingId, b, now)];
    r := Ok(());
    assert Outcome(r, st.State()) == DeleteBookingSpec(before, bookingId, now);
  }
}
