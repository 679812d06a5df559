/**
 * SpotAvailabilityServiceImpl: an owner publishes and withdraws the time
 * windows of a spot, and anyone lists them.
 */
module AvailabilityService {
  import opened Model
  import opened Store

  /** `toDto`: a window as the API returns it. */
  function WindowDto(id: Id, w: Window): (r: WindowResponse)
    ensures r.availabilityId == id && r.spotId == w.spotId
    ensures r.startTime == w.start && r.endTime == w.end && r.isBooked == w.isBooked
  {
    WindowResponse(id, w.spotId, w.start, w.end, w.isBooked)
  }

  /** Some window of the spot overlaps [start, end], booked or not. */
  predicate AnyOverlap(windows: map<Id, Window>, spotId: Id, start: Time, end: Time) {
    exists w | w in windows :: windows[w].spotId == spotId && IsOverlapping(windows[w], start, end)
  }

  /** No two windows of the same spot overlap. */
  predicate NonOverlapping(windows: map<Id, Window>) {
    forall a, b | a in windows && b in windows && a != b && windows[a].spotId == windows[b].spotId ::
      !IsOverlapping(windows[a], windows[b].start, windows[b].end)
  }

  /**
   * `createAvailability`: the acting user publishes [start, end] on one of
   * their spots. Only an end strictly before the start and a start strictly
   * before now are refused, and the range must not overlap (inclusively)
   * any window of the spot, booked or not.
   */
  function CreateAvailabilitySpec(db: Db, actor: Id, req: WindowRequest, now: Time): (o: Outcome<WindowResponse>)
    requires Inv(db)
    ensures Inv(o.db)
    ensures o.result.Err? ==> o.db == db
    // the failures, in the order the service checks them
    ensures actor !in db.users ==> o.result == Err(UserNotAuthenticated)
    ensures actor in db.users && req.spotId !in db.spots ==> o.result == Err(SpotNotFound)
    ensures actor in db.users && req.spotId in db.spots ==>
      && (db.spots[req.spotId].ownerId != actor ==> o.result == Err(NotSpotOwner))
      && (db.spots[req.spotId].ownerId == actor && req.end < req.start ==> o.result == Err(EndBeforeStart))
      && (db.spots[req.spotId].ownerId == actor && req.start <= req.end && req.start < now ==>
            o.result == Err(StartInPast))
      && ((db.spots[req.spotId].ownerId == actor && req.start <= req.end && now <= req.start
             && AnyOverlap(db.windows, req.spotId, req.start, req.end)) ==> o.result == Err(OverlapsExisting))
    ensures o.result.Ok? <==>
      && actor in db.users
      && req.spotId in db.spots
      && db.spots[req.spotId].ownerId == actor
      && req.start <= req.end
      && now <= req.start
      && !AnyOverlap(db.windows, req.spotId, req.start, req.end)
    // a success adds exactly one unbooked window under a fresh key
    ensures o.result.Ok? ==>
      var id := db.nextWindowId;
      && id !in db.windows
      && o.db.windows == db.windows[id := Window(req.spotId, req.start, req.end, false)]
      && o.db == db.(windows := o.db.windows, nextWindowId := id + 1)
      && o.result.value == WindowResponse(id, req.spotId, req.start, req.end, false)
  {
    if actor !in db.users then Outcome(Err(UserNotAuthenticated), db)
    else if req.spotId !in db.spots then Outcome(Err(SpotNotFound), db)
    else if db.spots[req.spotId].ownerId != actor then Outcome(Err(NotSpotOwner), db)
    else if req.end < req.start then Outcome(Err(EndBeforeStart), db)
    else if req.start < now then Outcome(Err(StartInPast), db)
    else if AnyOverlap(db.windows, req.spotId, req.start, req.end) then Outcome(Err(OverlapsExisting), db)
    else
      var id := db.nextWindowId;
      var w := Window(req.spotId, req.start, req.end, false);
      Outcome(Ok(WindowDto(id, w)), db.(windows := db.windows[id := w], nextWindowId := id + 1))
  }

  /** A window that an owner could publish never overlaps another of its spot. */
  lemma CreateAvailabilityKeepsNonOverlapping(db: Db, actor: Id, req: WindowRequest, now: Time)
    requires Inv(db) && NonOverlapping(db.windows)
    ensures NonOverlapping(CreateAvailabilitySpec(db, actor, req, now).db.windows)
  {
    var o := CreateAvailabilitySpec(db, actor, req, now);
    if o.result.Ok? {
      var id := db.nextWindowId;
      var ws := o.db.windows;
      forall a, b | a in ws && b in ws && a != b && ws[a].spotId == ws[b].spotId
        ensures !IsOverlapping(ws[a], ws[b].start, ws[b].end)
      {
        if a == id {
          OverlapSymmetric(ws[a], ws[b]);
        } else if b != id {
          assert ws[a] == db.windows[a] && ws[b] == db.windows[b];
        }
      }
    }
  }

  /**
   * `deleteAvailability`: the spot's owner withdraws an unbooked window.
   * The checks come in this order: the window exists, the actor is a
   * stored user who owns its spot, the window is not booked.
   */
  function DeleteAvailabilitySpec(db: Db, actor: Id, windowId: Id): (o: Outcome<()>)
    requires Inv(db)
    ensures Inv(o.db)
    ensures o.result.Err? ==> o.db == db
    ensures windowId !in db.windows ==> o.result == Err(AvailabilityNotFound)
    ensures windowId in db.windows ==>
      var w := db.windows[windowId];
      && (actor !in db.users ==> o.result == Err(UserNotAuthenticated))
      && (actor in db.users && db.spots[w.spotId].ownerId != actor ==> o.result == Err(NotSpotOwner))
      && (actor in db.users && db.spots[w.spotId].ownerId == actor && w.isBooked ==>
            o.result == Err(WindowBooked))
    ensures o.result.Ok? <==>
      && windowId in db.windows
      && actor in db.users
      && db.spots[db.windows[windowId].spotId].ownerId == actor
      && !db.windows[windowId].isBooked
    ensures o.result.Ok? ==> o.db == db.(windows := db.windows - {windowId})
  {
    if windowId !in db.windows then Outcome(Err(AvailabilityNotFound), db)
    else
      var w := db.windows[windowId];
      if actor !in db.users then Outcome(Err(UserNotAuthenticated), db)
      else if db.spots[w.spotId].ownerId != actor then Outcome(Err(NotSpotOwner), db)
      else if w.isBooked then Outcome(Err(WindowBooked), db)
      else
        UnbookedWindowFreeForAll(db, windowId);
        Outcome(Ok(()), db.(windows := db.windows - {windowId}))
  }

  /** No booking refers to an unbooked window, so removing one keeps `Inv`. */
  lemma UnbookedWindowFreeForAll(db: Db, w: Id)
    requires Inv(db) && w in db.windows && !db.windows[w].isBooked
    ensures Inv(db.(windows := db.windows - {w}))
  {
    forall b | b in db.bookings ensures db.bookings[b].windowId != w {
      UnbookedWindowIsFree(db, w, b);
    }
  }

  /** `getAvailabilityById`. */
  function GetAvailabilityById(db: Db, id: Id): (r: Result<WindowResponse>)
    ensures r.Err? <==> id !in db.windows
    ensures r.Err? ==> r.error == AvailabilityNotFound
    ensures r.Ok? ==>
      var w := db.windows[id];
      r.value == WindowResponse(id, w.spotId, w.start, w.end, w.isBooked)
  {
    if id !in db.windows then Err(AvailabilityNotFound) else Ok(WindowDto(id, db.windows[id]))
  }

  /** `getAvailabilitiesBySpot`: every window of an existing spot. */
  function AvailabilitiesBySpot(db: Db, spotId: Id): (r: Result<set<WindowResponse>>)
    ensures r.Err? <==> spotId !in db.spots
    ensures r.Err? ==> r.error == SpotNotFound
    ensures r.Ok? ==>
      && (forall d | d in r.value ::
            && d.availabilityId in db.windows && db.windows[d.availabilityId].spotId == spotId
            && d == WindowDto(d.availabilityId, db.windows[d.availabilityId]))
      && (forall w | w in db.windows && db.windows[w].spotId == spotId :: WindowDto(w, db.windows[w]) in r.value)
  {
    if spotId !in db.spots then Err(SpotNotFound)
    else Ok(set w | w in db.windows && db.windows[w].spotId == spotId :: WindowDto(w, db.windows[w]))
  }

  /**
   * `getAvailableSlotsBySpot`: the windows of an existing spot that are not
   * booked and start strictly after now.
   */
  function AvailableSlotsBySpot(db: Db, spotId: Id, now: Time): (r: Result<set<WindowResponse>>)
    ensures r.Err? <==> spotId !in db.spots
    ensures r.Err? ==> r.error == SpotNotFound
    ensures r.Ok? ==>
      && (forall d | d in r.value ::
            && d.availabilityId in db.windows
            && var w := db.windows[d.availabilityId];
            && w.spotId == spotId && !w.isBooked && w.start > now
            && d == WindowDto(d.availabilityId, w))
      && (forall w | w in db.windows && db.windows[w].spotId == spotId
                       && !db.windows[w].isBooked && db.windows[w].start > now ::
            WindowDto(w, db.windows[w]) in r.value)
  {
    if spotId !in db.spots then Err(SpotNotFound)
    else Ok(set w | w in db.windows && db.windows[w].spotId == spotId
                      && !db.windows[w].isBooked && db.windows[w].start > now ::
              WindowDto(w, db.windows[w]))
  }

  /** The free slots are exactly the listed windows that are unbooked and in the future. */
  lemma AvailableSlotsAreFilteredListing(db: Db, spotId: Id, now: Time)
    requires spotId in db.spots
    ensures AvailableSlotsBySpot(db, spotId, now).value ==
      set d | d in AvailabilitiesBySpot(db, spotId).value && !d.isBooked && d.startTime > now
  {
  }

  method CreateAvailability(st: ParkStore, actor: Id, req: WindowRequest, now: Time) returns (r: Result<WindowResponse>)
    requires st.Valid()
    modifies st
    ensures st.Valid()
    ensures Outcome(r, st.State()) == CreateAvailabilitySpec(old(st.State()), actor, req, now)
  {
    if actor !in st.users {
      return Err(UserNotAuthenticated);
    }
    if req.spotId !in st.spots {
      return Err(SpotNotFound);
    }
    if st.spots[req.spotId].ownerId != actor {
      return Err(NotSpotOwner);
    }
    if req.end < req.start {
      return Err(EndBeforeStart);
    }
    if req.start < now {
      return Err(StartInPast);
    }
    if AnyOverlap(st.windows, req.spotId, req.start, req.end) {
      return Err(OverlapsExisting);
    }
    ghost var before := st.State();
    var w := Window(req.spotId, req.start, req.end, false);
    var id := st.nextWindowId;
    st.windows := st.windows[id := w];
    st.nextWindowId := id + 1;
    r := Ok(WindowDto(id, w));
    assert Outcome(r, st.State()) == CreateAvailabilitySpec(before, actor, req, now);
  }

  method DeleteAvailability(st: ParkStore, actor: Id, windowId: Id) returns (r: Result<()>)
    requires st.Valid()
    modifies st
    ensures st.Valid()
    ensures Outcome(r, st.State()) == DeleteAvailabilitySpec(old(st.State()), actor, windowId)
  {
    if windowId !in st.windows {
      return Err(AvailabilityNotFound);
    }
    var w := st.windows[windowId];
    if actor !in st.users {
      return Err(UserNotAuthenticated);
    }
    if st.spots[w.spotId].ownerId != actor {
      return Err(NotSpotOwner);
    }
    if w.isBooked {
      return Err(WindowBooked);
    }
    ghost var before := st.State();
    st.windows := st.windows - {windowId};
    r := Ok(());
    assert Outcome(r, st.State()) == DeleteAvailabilitySpec(before, actor, windowId);
  }
}
