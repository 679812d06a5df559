/**
 * AdminService: an administrator moves bookings between windows, edits
 * windows without the owner's checks, changes user roles, and creates or
 * reassigns spots for regular users.
 */
module AdminService {
  import opened Model
  import opened Store
  import BookingService
  import AvailabilityService
  import SpotService

  // ---------------- roles ----------------

  /**
   * `String.toUpperCase` on the characters that can become part of a role
   * name: ASCII letters, and the dotless i and long s, which upper-case to
   * 'I' and 'S'. Every other character is kept.
   */
  function UpperChar(c: char): (u: char)
    ensures 'a' <= c <= 'z' ==> u as int == c as int - 32
    ensures c == '\U{0131}' ==> u == 'I'
    ensures c == '\U{017F}' ==> u == 'S'
    ensures !('a' <= c <= 'z') && c != '\U{0131}' && c != '\U{017F}' ==> u == c
    ensures !('a' <= u <= 'z')
  {
    if 'a' <= c <= 'z' then (c as int - 32) as char
    else if c == '\U{0131}' then 'I'
    else if c == '\U{017F}' then 'S'
    else c
  }

  function UpperCase(s: string): (u: string)
    ensures |u| == |s|
    ensures forall i | 0 <= i < |s| :: u[i] == UpperChar(s[i])
  {
    if s == [] then [] else [UpperChar(s[0])] + UpperCase(s[1..])
  }

  /** Upper-casing twice is upper-casing once. */
  lemma {:induction false} UpperCaseIdempotent(s: string)
    ensures UpperCase(UpperCase(s)) == UpperCase(s)
  {
    var u := UpperCase(s);
    var uu := UpperCase(u);
    assert |uu| == |u|;
    forall i | 0 <= i < |u| ensures uu[i] == u[i] {
      assert uu[i] == UpperChar(u[i]);
      assert u[i] == UpperChar(s[i]);
    }
  }

  /** `UserRole.valueOf`: the role whose constant name is exactly `s`. */
  function ParseRole(s: string): (r: Option<Role>)
    ensures forall x :: r == Some(x) <==> s == RoleName(x)
  {
    if s == RoleName(RoleUser) then Some(RoleUser)
    else if s == RoleName(RoleAdmin) then Some(RoleAdmin)
    else None
  }

  /** A string without lower-case letters is its own upper case. */
  lemma UpperCaseOfUpper(s: string)
    requires forall i | 0 <= i < |s| :: UpperChar(s[i]) == s[i]
    ensures UpperCase(s) == s
  {
  }

  /** Every role's constant name parses back to that role. */
  lemma RoleNameParses(x: Role)
    ensures ParseRole(UpperCase(RoleName(x))) == Some(x)
  {
    UpperCaseOfUpper(RoleName(x));
  }

  /** The role names are matched whatever their case. */
  lemma LowerCaseRoleNameParses()
    ensures ParseRole(UpperCase("role_admin")) == Some(RoleAdmin)
  {
    var u := UpperCase("role_admin");
    forall i | 0 <= i < 10 ensures u[i] == "ROLE_ADMIN"[i] {
      assert u[i] == UpperChar("role_admin"[i]);
    }
    assert u == "ROLE_ADMIN";
  }

  /**
   * `changeUserRole`: the user must exist, and the upper-cased string must
   * be the name of a role.
   */
  function ChangeUserRoleSpec(db: Db, userId: Id, roleStr: string): (o: Outcome<()>)
    requires Inv(db)
    ensures Inv(o.db)
    ensures o.result.Err? ==> o.db == db
    ensures userId !in db.users ==> o.result == Err(UserNotFound)
    ensures userId in db.users && ParseRole(UpperCase(roleStr)).None? ==> o.result == Err(InvalidRole)
    ensures o.result.Ok? <==> userId in db.users && exists x :: UpperCase(roleStr) == RoleName(x)
    ensures o.result.Ok? ==>
      exists x :: UpperCase(roleStr) == RoleName(x)
        && o.db == db.(users := db.users[userId := db.users[userId].(role := x)])
  {
    if userId !in db.users then Outcome(Err(UserNotFound), db)
    else
      match ParseRole(UpperCase(roleStr))
      case None => Outcome(Err(InvalidRole), db)
      case Some(role) =>
        var users := db.users[userId := db.users[userId].(role := role)];
        assert UniqueEmails(users) by {
          forall a, b | a in users && b in users && users[a].email == users[b].email ensures a == b {
            assert users[a].email == db.users[a].email && users[b].email == db.users[b].email;
          }
        }
        Outcome(Ok(()), db.(users := users))
  }

  // ---------------- bookings ----------------

  /** The old window is released and the new one claimed. */
  function Rebook(windows: map<Id, Window>, from: Id, to: Id): map<Id, Window>
    requires from in windows && to in windows
  {
    windows[from := windows[from].(isBooked := false)][to := windows[to].(isBooked := true)]
  }

  /** No error comes out of the availability and renter steps of `updateBooking`. */
  predicate CanUpdateBooking(db: Db, b: Booking, req: BookingRequest) {
    && (b.windowId != req.availabilityId ==>
          req.availabilityId in db.windows && !db.windows[req.availabilityId].isBooked)
    && (b.renterId != req.renterId ==> req.renterId in db.users)
  }

  /**
   * `updateBooking`: moves a booking to another window when the id differs
   * (releasing the old one), replaces the renter when the id differs, then
   * re-prices the booking at its spot's rate times the whole hours of its
   * window. The spot of the booking is never changed, and no check is made
   * that the total is positive.
   */
  function UpdateBookingSpec(db: Db, bookingId: Id, req: BookingRequest, now: Time): (o: Outcome<BookingResponse>)
    requires Inv(db)
    ensures Inv(o.db)
    ensures o.result.Err? ==> o.db == db
    // the failures, in the order the service checks them
    ensures bookingId !in db.bookings ==> o.result == Err(BookingNotFound)
    ensures bookingId in db.bookings ==>
      var b := db.bookings[bookingId];
      var moving := b.windowId != req.availabilityId;
      && (moving && req.availabilityId !in db.windows ==> o.result == Err(AvailabilityNotFound))
      && (moving && req.availabilityId in db.windows && db.windows[req.availabilityId].isBooked ==>
            o.result == Err(NewWindowBooked))
      && (((!moving || (req.availabilityId in db.windows && !db.windows[req.availabilityId].isBooked))
             && b.renterId != req.renterId && req.renterId !in db.users) ==> o.result == Err(RenterNotFound))
      && (CanUpdateBooking(db, b, req) && db.spots[b.spotId].pricePerHour.None? ==> o.result == Err(NullPrice))
    ensures o.result.Ok? <==>
      && bookingId in db.bookings
      && CanUpdateBooking(db, db.bookings[bookingId], req)
      && db.spots[db.bookings[bookingId].spotId].pricePerHour.Some?
    ensures o.result.Ok? ==>
      var b := db.bookings[bookingId];
      var from := b.windowId;
      var to := req.availabilityId;
      var w := db.windows[to];
      var total := BookingService.Price(db.spots[b.spotId].pricePerHour.value, w);
      var b' := Booking(b.spotId, req.renterId, to, b.status, total, b.bookedAt);
      // the windows: same keys and times; only the two flags may change
      && o.db.windows.Keys == db.windows.Keys
      && (forall k | k in db.windows ::
            o.db.windows[k] == db.windows[k].(isBooked := o.db.windows[k].isBooked))
      && (from == to ==> o.db.windows == db.windows)
      && (from != to ==>
            && !o.db.windows[from].isBooked && o.db.windows[to].isBooked
            && forall k | k in db.windows && k != from && k != to :: o.db.windows[k] == db.windows[k])
      // the booking now holds the requested window and renter, at the new price
      && o.db.bookings == db.bookings[bookingId := b']
      && o.db.users == db.users && o.db.spots == db.spots
      && o.db.nextUserId == db.nextUserId && o.db.nextSpotId == db.nextSpotId
      && o.db.nextWindowId == db.nextWindowId && o.db.nextBookingId == db.nextBookingId
      && o.db.log == db.log + [LogEntry(bookingId, b.spotId, db.spots[b.spotId].ownerId, req.renterId,
                                        w.start, w.end, HoursBetween(w.start, w.end), total, b.status, now)]
      && o.result.value == BookingResponse(bookingId, b.spotId, req.renterId, db.spots[b.spotId].ownerId,
                                           b.status, total, w.start, w.end)
  {
    if bookingId !in db.bookings then Outcome(Err(BookingNotFound), db)
    else
      var b := db.bookings[bookingId];
      assert BookingRefsOk(db, b);
      var to := req.availabilityId;
      if b.windowId != to && to !in db.windows then Outcome(Err(AvailabilityNotFound), db)
      else if b.windowId != to && db.windows[to].isBooked then Outcome(Err(NewWindowBooked), db)
      else if b.renterId != req.renterId && req.renterId !in db.users then Outcome(Err(RenterNotFound), db)
      else if db.spots[b.spotId].pricePerHour.None? then Outcome(Err(NullPrice), db)
      else
        var windows := if b.windowId == to then db.windows else Rebook(db.windows, b.windowId, to);
        var b' := b.(windowId := to, renterId := req.renterId,
                     totalAmount := BookingService.Price(db.spots[b.spotId].pricePerHour.value, db.windows[to]));
        var saved := db.(windows := windows, bookings := db.bookings[bookingId := b']);
        MoveKeepsInv(db, bookingId, b');
        Outcome(Ok(BookingService.ToDto(saved, bookingId, b')),
                saved.(log := saved.log + [BookingService.LogEntryOf(saved, bookingId, b', now)]))
  }

  /**
   * Moving a booking to a window no other booking holds, and releasing the old
   * one, keeps every booking's window booked and held by that booking alone.
   */
  lemma MoveKeepsInv(db: Db, bookingId: Id, b': Booking)
    requires Inv(db) && bookingId in db.bookings
    requires b'.spotId == db.bookings[bookingId].spotId
    requires b'.renterId in db.users && b'.windowId in db.windows
    requires b'.windowId != db.bookings[bookingId].windowId ==> !db.windows[b'.windowId].isBooked
    ensures var from := db.bookings[bookingId].windowId;
      var windows := if from == b'.windowId then db.windows else Rebook(db.windows, from, b'.windowId);
      Inv(db.(windows := windows, bookings := db.bookings[bookingId := b']))
  {
    var from := db.bookings[bookingId].windowId;
    var to := b'.windowId;
    assert BookingRefsOk(db, db.bookings[bookingId]);
    var windows := if from == to then db.windows else Rebook(db.windows, from, to);
    var db' := db.(windows := windows, bookings := db.bookings[bookingId := b']);
    forall k | k in db'.bookings && k != bookingId
      ensures db'.bookings[k].windowId != to && db'.bookings[k].windowId != from
    {
      if from != to {
        UnbookedWindowIsFree(db, to, k);
      }
    }
    forall k | k in db'.bookings ensures k < db'.nextBookingId && BookingRefsOk(db', db'.bookings[k]) {
      if k != bookingId {
        assert BookingRefsOk(db, db.bookings[k]);
      }
    }
  }

  /** An admin move can leave a booking whose spot is not the spot of its window. */
  lemma MoveCanSplitSpotFromWindow()
    ensures var db := Db(map[1 := User(Regular, "a@b.c", None, None, "hash", RoleUser, 0)],
                         map[1 := Spot(1, None, None, None, None, None, None, Some(2.0), 0),
                             2 := Spot(1, None, None, None, None, None, None, Some(5.0), 0)],
                         map[1 := Window(1, 0, NanosPerHour, true), 2 := Window(2, 0, NanosPerHour, false)],
                         map[1 := Booking(1, 1, 1, "confirmed", 2.0, 0)],
                         [], 2, 3, 3, 2);
      && Inv(db)
      && var o := UpdateBookingSpec(db, 1, BookingRequest(2, 1), 0);
      && o.result.Ok?
      && o.db.bookings[1].spotId == 1
      && o.db.windows[o.db.bookings[1].windowId].spotId == 2
  {
  }

  // ---------------- spots ----------------

  /**
   * `toSpotDto`: the admin service's own copy of the spot mapper, which
   * leaves the creation time unset. It builds the same record as the owner
   * service's `toResponse`.
   */
  function ToSpotDto(id: Id, s: Spot): (r: SpotResponse)
    ensures r == SpotService.ToResponse(id, s)
  {
    SpotResponse(spotId := id, title := s.title, description := s.description, location := s.location,
                 latitude := s.latitude, longitude := s.longitude, slotType := s.slotType,
                 pricePerHour := s.pricePerHour, ownerId := s.ownerId, createdAt := None)
  }

  /**
   * `createParkingSpot`: the owner named in the request must be a stored
   * regular user.
   */
  function CreateParkingSpotSpec(db: Db, dto: SpotRequest, now: Time): (o: Outcome<SpotResponse>)
    requires Inv(db)
    ensures Inv(o.db)
    ensures o.result.Err? ==> o.db == db
    ensures dto.ownerId.None? ==> o.result == Err(NullOwnerId)
    ensures dto.ownerId.Some? && dto.ownerId.value !in db.users ==> o.result == Err(OwnerNotFound)
    ensures dto.ownerId.Some? && dto.ownerId.value in db.users && db.users[dto.ownerId.value].kind != Regular ==>
      o.result == Err(OwnerNotRegular)
    ensures o.result.Ok? <==>
      dto.ownerId.Some? && dto.ownerId.value in db.users && db.users[dto.ownerId.value].kind == Regular
    ensures o.result.Ok? ==>
      var id := db.nextSpotId;
      && id !in db.spots && id in o.db.spots
      && o.db == db.(spots := db.spots[id := o.db.spots[id]], nextSpotId := id + 1)
      && o.db.spots[id].ownerId == dto.ownerId.value
      && o.db.spots[id].createdAt == now
      && SpotService.RequestFields(o.db.spots[id]) == dto.(ownerId := None)
      && o.result.value == SpotService.ToResponse(id, o.db.spots[id])
  {
    if dto.ownerId.None? then Outcome(Err(NullOwnerId), db)
    else if dto.ownerId.value !in db.users then Outcome(Err(OwnerNotFound), db)
    else if db.users[dto.ownerId.value].kind != Regular then Outcome(Err(OwnerNotRegular), db)
    else
      var id := db.nextSpotId;
      var s := SpotService.NewSpot(dto.ownerId.value, dto, now);
      Outcome(Ok(ToSpotDto(id, s)), db.(spots := db.spots[id := s], nextSpotId := id + 1))
  }

  /** The owner `adminUpdateSpot` leaves on a spot: changed only by a different, non-null id. */
  predicate ReassignsOwner(s: Spot, dto: SpotRequest) {
    dto.ownerId.Some? && dto.ownerId.value != s.ownerId
  }

  /**
   * `adminUpdateSpot`: overwrites the seven descriptive fields and, when the
   * request names a different owner, reassigns the spot to that owner, who
   * must be a stored regular user.
   */
  function AdminUpdateSpotSpec(db: Db, spotId: Id, dto: SpotRequest): (o: Outcome<SpotResponse>)
    requires Inv(db)
    ensures Inv(o.db)
    ensures o.result.Err? ==> o.db == db
    ensures spotId !in db.spots ==> o.result == Err(SpotNotFound)
    ensures spotId in db.spots && ReassignsOwner(db.spots[spotId], dto) ==>
      && (dto.ownerId.value !in db.users ==> o.result == Err(OwnerNotFound))
      && (dto.ownerId.value in db.users && db.users[dto.ownerId.value].kind != Regular ==>
            o.result == Err(OwnerNotRegular))
    ensures o.result.Ok? <==>
      && spotId in db.spots
      && (ReassignsOwner(db.spots[spotId], dto) ==>
            dto.ownerId.value in db.users && db.users[dto.ownerId.value].kind == Regular)
    ensures o.result.Ok? ==>
      var s := db.spots[spotId];
      && spotId in o.db.spots
      && var s' := o.db.spots[spotId];
      && o.db == db.(spots := db.spots[spotId := s'])
      && s'.ownerId == (if ReassignsOwner(s, dto) then dto.ownerId.value else s.ownerId)
      && s'.createdAt == s.createdAt
      && SpotService.RequestFields(s') == dto.(ownerId := None)
      && o.result.value == SpotService.ToResponse(spotId, s')
  {
    if spotId !in db.spots then Outcome(Err(SpotNotFound), db)
    else
      var s := SpotService.ApplyDto(db.spots[spotId], dto);
      if ReassignsOwner(s, dto) && dto.ownerId.value !in db.users then Outcome(Err(OwnerNotFound), db)
      else if ReassignsOwner(s, dto) && db.users[dto.ownerId.value].kind != Regular then Outcome(Err(OwnerNotRegular), db)
      else
        var s' := if ReassignsOwner(s, dto) then s.(ownerId := dto.ownerId.value) else s;
        Outcome(Ok(ToSpotDto(spotId, s')), db.(spots := db.spots[spotId := s']))
  }

  // ---------------- availability ----------------

  /**
   * Admin `createAvailability`: only the spot must exist. Neither the order
   * of start and end, nor the start's being in the past, nor overlap with
   * the spot's other windows is checked.
   */
  function AdminCreateAvailabilitySpec(db: Db, req: WindowRequest): (o: Outcome<WindowResponse>)
    requires Inv(db)
    ensures Inv(o.db)
    ensures o.result.Err? ==> o.db == db
    ensures o.result.Err? <==> req.spotId !in db.spots
    ensures o.result.Err? ==> o.result.error == SpotNotFound
    ensures o.result.Ok? ==>
      var id := db.nextWindowId;
      && id !in db.windows
      && o.db == db.(windows := db.windows[id := Window(req.spotId, req.start, req.end, false)],
                     nextWindowId := id + 1)
      && o.result.value == WindowResponse(id, req.spotId, req.start, req.end, false)
  {
    if req.spotId !in db.spots then Outcome(Err(SpotNotFound), db)
    else
      var id := db.nextWindowId;
      var w := Window(req.spotId, req.start, req.end, false);
      Outcome(Ok(AvailabilityService.WindowDto(id, w)),
              db.(windows := db.windows[id := w], nextWindowId := id + 1))
  }

  /** Without the owner's checks, a window may overlap another of its spot. */
  lemma AdminCreateCanBreakNonOverlapping()
    ensures var db := Db(map[1 := User(Regular, "a@b.c", None, None, "hash", RoleUser, 0)],
                         map[1 := Spot(1, None, None, None, None, None, None, Some(1.0), 0)],
                         map[1 := Window(1, 0, 10, false)],
                         map[], [], 2, 2, 2, 1);
      && Inv(db) && AvailabilityService.NonOverlapping(db.windows)
      && var o := AdminCreateAvailabilitySpec(db, WindowRequest(1, 5, 20));
      && o.result.Ok?
      && !AvailabilityService.NonOverlapping(o.db.windows)
      && AvailabilityService.CreateAvailabilitySpec(db, 1, WindowRequest(1, 5, 20), 0).result == Err(OverlapsExisting)
  {
    var db := Db(map[1 := User(Regular, "a@b.c", None, None, "hash", RoleUser, 0)],
                 map[1 := Spot(1, None, None, None, None, None, None, Some(1.0), 0)],
                 map[1 := Window(1, 0, 10, false)],
                 map[], [], 2, 2, 2, 1);
    var o := AdminCreateAvailabilitySpec(db, WindowRequest(1, 5, 20));
    assert o.db.windows[1].spotId == o.db.windows[2].spotId;
    assert IsOverlapping(o.db.windows[1], o.db.windows[2].start, o.db.windows[2].end);
    assert AvailabilityService.AnyOverlap(db.windows, 1, 5, 20) by {
      assert db.windows[1].spotId == 1 && IsOverlapping(db.windows[1], 5, 20);
    }
  }

  /**
   * `updateAvailability`: overwrites start and end only. The window keeps
   * its spot (the request's spot id is ignored) and its booked flag, and a
   * booking that holds it keeps the total it was priced at.
   */
  function UpdateAvailabilitySpec(db: Db, windowId: Id, req: WindowRequest): (o: Outcome<WindowResponse>)
    requires Inv(db)
    ensures Inv(o.db)
    ensures o.result.Err? ==> o.db == db
    ensures o.result.Err? <==> windowId !in db.windows
    ensures o.result.Err? ==> o.result.error == AvailabilityNotFound
    ensures o.result.Ok? ==>
      var w := db.windows[windowId];
      && o.db == db.(windows := db.windows[windowId := Window(w.spotId, req.start, req.end, w.isBooked)])
      && o.result.value == WindowResponse(windowId, w.spotId, req.start, req.end, w.isBooked)
  {
    if windowId !in db.windows then Outcome(Err(AvailabilityNotFound), db)
    else
      var w := db.windows[windowId].(start := req.start, end := req.end);
      var db' := db.(windows := db.windows[windowId := w]);
      assert forall b | b in db'.bookings :: BookingRefsOk(db, db.bookings[b]);
      Outcome(Ok(AvailabilityService.WindowDto(windowId, w)), db')
  }

  /** Admin `deleteAvailability`: any unbooked window, whoever owns its spot. */
  function AdminDeleteAvailabilitySpec(db: Db, windowId: Id): (o: Outcome<()>)
    requires Inv(db)
    ensures Inv(o.db)
    ensures o.result.Err? ==> o.db == db
    ensures windowId !in db.windows ==> o.result == Err(AvailabilityNotFound)
    ensures windowId in db.windows && db.windows[windowId].isBooked ==> o.result == Err(WindowBooked)
    ensures o.result.Ok? <==> windowId in db.windows && !db.windows[windowId].isBooked
    ensures o.result.Ok? ==> o.db == db.(windows := db.windows - {windowId})
  {
    if windowId !in db.windows then Outcome(Err(AvailabilityNotFound), db)
    else if db.windows[windowId].isBooked then Outcome(Err(WindowBooked), db)
    else
      AvailabilityService.UnbookedWindowFreeForAll(db, windowId);
      Outcome(Ok(()), db.(windows := db.windows - {windowId}))
  }

  /** What the owner may delete, the admin may delete too. */
  lemma OwnerDeleteImpliesAdminDelete(db: Db, actor: Id, windowId: Id)
    requires Inv(db)
    requires AvailabilityService.DeleteAvailabilitySpec(db, actor, windowId).result.Ok?
    ensures AdminDeleteAvailabilitySpec(db, windowId) == AvailabilityService.DeleteAvailabilitySpec(db, actor, windowId)
  {
  }

  // ---------------- the methods on the store ----------------

  method ChangeUserRole(st: ParkStore, userId: Id, roleStr: string) returns (r: Result<()>)
    requires st.Valid()
    modifies st
    ensures st.Valid()
    ensures Outcome(r, st.State()) == ChangeUserRoleSpec(old(st.State()), userId, roleStr)
  {
    if userId !in st.users {
      return Err(UserNotFound);
    }
    var user := st.users[userId];
    var role := ParseRole(UpperCase(roleStr));
    if role.None? {
      return Err(InvalidRole);
    }
    ghost var before := st.State();
    user := user.(role := role.value);
    st.users := st.users[userId := user];
    r := Ok(());
    assert Outcome(r, st.State()) == ChangeUserRoleSpec(before, userId, roleStr);
  }

  /**
   * The service flips the flags and rewrites the booking before it knows
   * whether the renter exists or the spot has a price; the method stages the
   * same changes in local copies and stores them only once nothing can fail,
   * which is what the transaction's rollback achieves.
   */
  method UpdateBooking(st: ParkStore, bookingId: Id, req: BookingRequest, now: Time) returns (r: Result<BookingResponse>)
    requires st.Valid()
    modifies st
    ensures st.Valid()
    ensures Outcome(r, st.State()) == UpdateBookingSpec(old(st.State()), bookingId, req, now)
  {
    if bookingId !in st.bookings {
      return Err(BookingNotFound);
    }
    ghost var before := st.State();
    var booking := st.bookings[bookingId];
    assert BookingRefsOk(before, booking);
    var windows := st.windows;
    if booking.windowId != req.availabilityId {
      if req.availabilityId !in windows {
        return Err(AvailabilityNotFound);
      }
      var next := windows[req.availabilityId];
      if next.isBooked {
        return Err(NewWindowBooked);
      }
      windows := windows[booking.windowId := windows[booking.windowId].(isBooked := false)];
      windows := windows[req.availabilityId := next.(isBooked := true)];
      booking := booking.(windowId := req.availabilityId);
    }
    if booking.renterId != req.renterId {
      if req.renterId !in st.users {
        return Err(RenterNotFound);
      }
      booking := booking.(renterId := req.renterId);
    }
    var w := windows[booking.windowId];
    var hours := HoursBetween(w.start, w.end);
    var rate := st.spots[booking.spotId].pricePerHour;
    if rate.None? {
      return Err(NullPrice);
    }
    booking := booking.(totalAmount := rate.value * hours as real);
    assert BookingRefsOk(before, before.bookings[bookingId]);
    assert windows == (if before.bookings[bookingId].windowId == req.availabilityId then before.windows
                       else Rebook(before.windows, before.bookings[bookingId].windowId, req.availabilityId));
    assert booking == before.bookings[bookingId].(windowId := req.availabilityId, renterId := req.renterId,
      totalAmount := BookingService.Price(rate.value, before.windows[req.availabilityId]));
    st.windows := windows;
    st.bookings := st.bookings[bookingId := booking];
    st.log := st.log + [BookingService.LogEntryOf(st.State(), bookingId, booking, now)];
    r := Ok(BookingService.ToDto(st.State(), bookingId, booking));
    assert Outcome(r, st.State()) == UpdateBookingSpec(before, bookingId, req, now);
  }

  method CreateParkingSpot(st: ParkStore, dto: SpotRequest, now: Time) returns (r: Result<SpotResponse>)
    requires st.Valid()
    modifies st
    ensures st.Valid()
    ensures Outcome(r, st.State()) == CreateParkingSpotSpec(old(st.State()), dto, now)
  {
    if dto.ownerId.None? {
      return Err(NullOwnerId);
    }
    if dto.ownerId.value !in st.users {
      return Err(OwnerNotFound);
    }
    if st.users[dto.ownerId.value].kind != Regular {
      return Err(OwnerNotRegular);
    }
    ghost var before := st.State();
    var spot := Spot(dto.ownerId.value, None, None, None, None, None, None, None, now);
    spot := SpotService.ApplyDto(spot, dto);
    var id := st.nextSpotId;
    st.spots := st.spots[id := spot];
    st.nextSpotId := id + 1;
    r := Ok(ToSpotDto(id, spot));
    assert Outcome(r, st.State()) == CreateParkingSpotSpec(before, dto, now);
  }

  method AdminUpdateSpot(st: ParkStore, spotId: Id, dto: SpotRequest) returns (r: Result<SpotResponse>)
    requires st.Valid()
    modifies st
    ensures st.Valid()
    ensures Outcome(r, st.State()) == AdminUpdateSpotSpec(old(st.State()), spotId, dto)
  {
    if spotId !in st.spots {
      return Err(SpotNotFound);
    }
    ghost var before := st.State();
    var spot := SpotService.ApplyDto(st.spots[spotId], dto);
    if dto.ownerId.Some? && dto.ownerId.value != spot.ownerId {
      if dto.ownerId.value !in st.users {
        return Err(OwnerNotFound);
      }
      if st.users[dto.ownerId.value].kind != Regular {
        return Err(OwnerNotRegular);
      }
      spot := spot.(ownerId := dto.ownerId.value);
    }
    st.spots := st.spots[spotId := spot];
    r := Ok(ToSpotDto(spotId, spot));
    assert Outcome(r, st.State()) == AdminUpdateSpotSpec(before, spotId, dto);
  }

  method AdminCreateAvailability(st: ParkStore, req: WindowRequest) returns (r: Result<WindowResponse>)
    requires st.Valid()
    modifies st
    ensures st.Valid()
    ensures Outcome(r, st.State()) == AdminCreateAvailabilitySpec(old(st.State()), req)
  {
    if req.spotId !in st.spots {
      return Err(SpotNotFound);
    }
    ghost var before := st.State();
    var w := Window(req.spotId, req.start, req.end, false);
    var id := st.nextWindowId;
    st.windows := st.windows[id := w];
    st.nextWindowId := id + 1;
    r := Ok(AvailabilityService.WindowDto(id, w));
    assert Outcome(r, st.State()) == AdminCreateAvailabilitySpec(before, req);
  }

  method UpdateAvailability(st: ParkStore, windowId: Id, req: WindowRequest) returns (r: Result<WindowResponse>)
    requires st.Valid()
    modifies st
    ensures st.Valid()
    ensures Outcome(r, st.State()) == UpdateAvailabilitySpec(old(st.State()), windowId, req)
  {
    if windowId !in st.windows {
      return Err(AvailabilityNotFound);
    }
    ghost var before := st.State();
    var w := st.windows[windowId];
    w := w.(start := req.start, end := req.end);
    st.windows := st.windows[windowId := w];
    r := Ok(AvailabilityService.WindowDto(windowId, w));
    assert Outcome(r, st.State()) == UpdateAvailabilitySpec(before, windowId, req);
  }

  method AdminDeleteAvailability(st: ParkStore, windowId: Id) returns (r: Result<()>)
    requires st.Valid()
    modifies st
    ensures st.Valid()
    ensures Outcome(r, st.State()) == AdminDeleteAvailabilitySpec(old(st.State()), windowId)
  {
    if windowId !in st.windows {
      return Err(AvailabilityNotFound);
    }
    if st.windows[windowId].isBooked {
      return Err(WindowBooked);
    }
    ghost var before := st.State();
    st.windows := st.windows - {windowId};
    r := Ok(());
    assert Outcome(r, st.State()) == AdminDeleteAvailabilitySpec(before, windowId);
  }
}
