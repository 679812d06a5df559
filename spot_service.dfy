/**
 * ParkingSpotServiceImpl: a user creates spots they own; only the owner may
 * update or delete one; anyone reads them.
 */
module SpotService {
  import opened Model
  import opened Store

  /** `applyDto`: overwrite the seven descriptive fields of a spot. */
  function ApplyDto(s: Spot, dto: SpotRequest): (r: Spot)
    ensures r.ownerId == s.ownerId && r.createdAt == s.createdAt
    ensures RequestFields(r) == dto.(ownerId := None)
  {
    s.(title := dto.title, description := dto.description, location := dto.location,
       latitude := dto.latitude, longitude := dto.longitude, slotType := dto.slotType,
       pricePerHour := dto.pricePerHour)
  }

  /** The seven descriptive fields of a spot, as a request without an owner id. */
  function RequestFields(s: Spot): SpotRequest {
    SpotRequest(s.title, s.description, s.location, s.latitude, s.longitude, s.slotType,
                s.pricePerHour, None)
  }

  /** `toResponse`: the owner's id is filled in and the creation time is left unset. */
  function ToResponse(id: Id, s: Spot): (r: SpotResponse)
    ensures r.spotId == id && r.ownerId == s.ownerId && r.createdAt == None
    ensures r.title == s.title && r.description == s.description && r.location == s.location
    ensures r.latitude == s.latitude && r.longitude == s.longitude
    ensures r.slotType == s.slotType && r.pricePerHour == s.pricePerHour
  {
    SpotResponse(id, s.ownerId, s.title, s.description, s.location, s.latitude, s.longitude,
                 s.slotType, s.pricePerHour, None)
  }

  /** `assertOwner`: succeeds exactly when the user owns the spot. */
  function AssertOwner(s: Spot, userId: Id): (r: Result<()>)
    ensures r.Ok? <==> s.ownerId == userId
    ensures r.Err? ==> r.error == NotSpotOwner
  {
    if s.ownerId != userId then Err(NotSpotOwner) else Ok(())
  }

  /** A new spot owned by `ownerId`, created at `now`, with the request's fields. */
  function NewSpot(ownerId: Id, dto: SpotRequest, now: Time): Spot {
    ApplyDto(Spot(ownerId, None, None, None, None, None, None, None, now), dto)
  }

  /**
   * `createSpot`: the acting user becomes the owner, whatever owner id the
   * request carries; the acting user must be a RegularUser.
   */
  function CreateSpotSpec(db: Db, actor: Id, dto: SpotRequest, now: Time): (o: Outcome<SpotResponse>)
    requires Inv(db)
    ensures Inv(o.db)
    ensures o.result.Err? ==> o.db == db
    ensures actor !in db.users ==> o.result == Err(UserNotFound)
    ensures actor in db.users && db.users[actor].kind != Regular ==> o.result == Err(NotRegularUser)
    ensures o.result.Ok? <==> actor in db.users && db.users[actor].kind == Regular
    ensures o.result.Ok? ==>
      var id := db.nextSpotId;
      && id !in db.spots
      && id in o.db.spots
      && o.db.spots == db.spots[id := o.db.spots[id]]
      && o.db.spots[id].ownerId == actor
      && o.db.spots[id].createdAt == now
      && RequestFields(o.db.spots[id]) == dto.(ownerId := None)
      && o.db == db.(spots := o.db.spots, nextSpotId := id + 1)
      && o.result.value == ToResponse(id, o.db.spots[id])
  {
    if actor !in db.users then Outcome(Err(UserNotFound), db)
    else if db.users[actor].kind != Regular then Outcome(Err(NotRegularUser), db)
    else
      var id := db.nextSpotId;
      var s := NewSpot(actor, dto, now);
      Outcome(Ok(ToResponse(id, s)), db.(spots := db.spots[id := s], nextSpotId := id + 1))
  }

  /** `getSpotById` (through `findSpot`). */
  function GetSpotById(db: Db, id: Id): (r: Result<SpotResponse>)
    ensures r.Err? <==> id !in db.spots
    ensures r.Err? ==> r.error == SpotNotFound
    ensures r.Ok? ==> r.value == ToResponse(id, db.spots[id])
  {
    if id !in db.spots then Err(SpotNotFound) else Ok(ToResponse(id, db.spots[id]))
  }

  /** `getAllSpots`: every stored spot. */
  function AllSpots(db: Db): (r: set<SpotResponse>)
    ensures forall d | d in r :: d.spotId in db.spots && d == ToResponse(d.spotId, db.spots[d.spotId])
    ensures forall s | s in db.spots :: ToResponse(s, db.spots[s]) in r
  {
    set s | s in db.spots :: ToResponse(s, db.spots[s])
  }

  /** `getSpotsByOwner`: the spots whose owner is the given user. */
  function SpotsByOwner(db: Db, ownerId: Id): (r: set<SpotResponse>)
    ensures forall d | d in r ::
      d.spotId in db.spots && db.spots[d.spotId].ownerId == ownerId && d == ToResponse(d.spotId, db.spots[d.spotId])
    ensures forall s | s in db.spots && db.spots[s].ownerId == ownerId :: ToResponse(s, db.spots[s]) in r
  {
    set s | s in db.spots && db.spots[s].ownerId == ownerId :: ToResponse(s, db.spots[s])
  }

  /**
   * `updateSpot`: the owner overwrites the seven descriptive fields; owner
   * and creation time are kept. The spot must exist, then the actor, then
   * the actor must own it.
   */
  function UpdateSpotSpec(db: Db, actor: Id, spotId: Id, dto: SpotRequest): (o: Outcome<SpotResponse>)
    requires Inv(db)
    ensures Inv(o.db)
    ensures o.result.Err? ==> o.db == db
    ensures spotId !in db.spots ==> o.result == Err(SpotNotFound)
    ensures spotId in db.spots && actor !in db.users ==> o.result == Err(UserNotFound)
    ensures spotId in db.spots && actor in db.users && db.spots[spotId].ownerId != actor ==>
      o.result == Err(NotSpotOwner)
    ensures o.result.Ok? <==> spotId in db.spots && actor in db.users && db.spots[spotId].ownerId == actor
    ensures o.result.Ok? ==>
      spotId in o.db.spots &&
      var s := db.spots[spotId];
      var s' := o.db.spots[spotId];
      && o.db == db.(spots := db.spots[spotId := s'])
      && s'.ownerId == s.ownerId && s'.createdAt == s.createdAt
      && RequestFields(s') == dto.(ownerId := None)
      && o.result.value == ToResponse(spotId, s')
  {
    if spotId !in db.spots then Outcome(Err(SpotNotFound), db)
    else if actor !in db.users then Outcome(Err(UserNotFound), db)
    else
      var s := db.spots[spotId];
      match AssertOwner(s, actor)
      case Err(e) => Outcome(Err(e), db)
      case Ok(_) =>
        var s' := ApplyDto(s, dto);
        Outcome(Ok(ToResponse(spotId, s')), db.(spots := db.spots[spotId := s']))
  }

  /** Some window or booking still refers to the spot. */
  predicate SpotReferenced(db: Db, spotId: Id) {
    || (exists w | w in db.windows :: db.windows[w].spotId == spotId)
    || (exists b | b in db.bookings :: db.bookings[b].spotId == spotId)
  }

  /**
   * `deleteSpot`: only the owner may delete, and only that spot goes. The
   * database's foreign keys refuse the delete while a window or booking
   * still refers to the spot.
   */
  function DeleteSpotSpec(db: Db, actor: Id, spotId: Id): (o: Outcome<()>)
    requires Inv(db)
    ensures Inv(o.db)
    ensures o.result.Err? ==> o.db == db
    ensures spotId !in db.spots ==> o.result == Err(SpotNotFound)
    ensures spotId in db.spots && actor !in db.users ==> o.result == Err(UserNotFound)
    ensures spotId in db.spots && actor in db.users && db.spots[spotId].ownerId != actor ==>
      o.result == Err(NotSpotOwner)
    ensures (spotId in db.spots && actor in db.users && db.spots[spotId].ownerId == actor
             && SpotReferenced(db, spotId)) ==> o.result == Err(SpotInUse)
    ensures o.result.Ok? <==>
      && spotId in db.spots && actor in db.users && db.spots[spotId].ownerId == actor
      && !SpotReferenced(db, spotId)
    ensures o.result.Ok? ==> o.db == db.(spots := db.spots - {spotId})
  {
    if spotId !in db.spots then Outcome(Err(SpotNotFound), db)
    else if actor !in db.users then Outcome(Err(UserNotFound), db)
    else
      match AssertOwner(db.spots[spotId], actor)
      case Err(e) => Outcome(Err(e), db)
      case Ok(_) =>
        if SpotReferenced(db, spotId) then Outcome(Err(SpotInUse), db)
        else Outcome(Ok(()), db.(spots := db.spots - {spotId}))
  }

  method CreateSpot(st: ParkStore, actor: Id, dto: SpotRequest, now: Time) returns (r: Result<SpotResponse>)
    requires st.Valid()
    modifies st
    ensures st.Valid()
    ensures Outcome(r, st.State()) == CreateSpotSpec(old(st.State()), actor, dto, now)
  {
    if actor !in st.users {
      return Err(UserNotFound);
    }
    var spot := Spot(actor, None, None, None, None, None, None, None, now);
    spot := ApplyDto(spot, dto);
    if st.users[actor].kind != Regular {
      return Err(NotRegularUser);
    }
    ghost var before := st.State();
    var id := st.nextSpotId;
    st.spots := st.spots[id := spot];
    st.nextSpotId := id + 1;
    r := Ok(ToResponse(id, spot));
    assert Outcome(r, st.State()) == CreateSpotSpec(before, actor, dto, now);
  }

  method UpdateSpot(st: ParkStore, actor: Id, spotId: Id, dto: SpotRequest) returns (r: Result<SpotResponse>)
    requires st.Valid()
    modifies st
    ensures st.Valid()
    ensures Outcome(r, st.State()) == UpdateSpotSpec(old(st.State()), actor, spotId, dto)
  {
    if spotId !in st.spots {
      return Err(SpotNotFound);
    }
    var spot := st.spots[spotId];
    if actor !in st.users {
      return Err(UserNotFound);
    }
    var owned := AssertOwner(spot, actor);
    if owned.Err? {
      return Err(owned.error);
    }
    ghost var before := st.State();
    spot := ApplyDto(spot, dto);
    st.spots := st.spots[spotId := spot];
    r := Ok(ToResponse(spotId, spot));
    assert Outcome(r, st.State()) == UpdateSpotSpec(before, actor, spotId, dto);
  }

  method DeleteSpot(st: ParkStore, actor: Id, spotId: Id) returns (r: Result<()>)
    requires st.Valid()
    modifies st
    ensures st.Valid()
    ensures Outcome(r, st.State()) == DeleteSpotSpec(old(st.State()), actor, spotId)
  {
    if spotId !in st.spots {
      return Err(SpotNotFound);
    }
    var spot := st.spots[spotId];
    if actor !in st.users {
      return Err(UserNotFound);
    }
    var owned := AssertOwner(spot, actor);
    if owned.Err? {
      return Err(owned.error);
    }
    if SpotReferenced(st.State(), spotId) {
      return Err(SpotInUse);
    }
    ghost var before := st.State();
    st.spots := st.spots - {spotId};
    r := Ok(());
    assert Outcome(r, st.State()) == DeleteSpotSpec(before, actor, spotId);
  }
}
