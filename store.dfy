/**
 * The database behind the services: one table per entity, the append-only
 * booking log, and the identity counters that hand out fresh keys.
 *
 * `Db` is the value of the whole database at one moment; `ParkStore` is the
 * mutable store the service methods change in place. The booking,
 * availability, spot and admin services are transactional, so an operation
 * that throws leaves the `Db` as it was; AuthService is not, but its
 * `register` makes a single save. Each operation is one step from one `Db`
 * to the next, taken while no other operation runs: the services take no
 * lock, so concurrent calls are not modelled.
 */
module Store {
  import opened Model

  datatype Db = Db(
    users: map<Id, User>,
    spots: map<Id, Spot>,
    windows: map<Id, Window>,
    bookings: map<Id, Booking>,
    log: seq<LogEntry>,
    nextUserId: Id,
    nextSpotId: Id,
    nextWindowId: Id,
    nextBookingId: Id)

  /** What a service operation returns, with the database it leaves behind. */
  datatype Outcome<+T> = Outcome(result: Result<T>, db: Db)

  /** No two stored users share an email (the column is unique). */
  predicate UniqueEmails(users: map<Id, User>) {
    forall a, b | a in users && b in users && users[a].email == users[b].email :: a == b
  }

  /** The rows a booking refers to exist, and its window is marked as booked. */
  predicate BookingRefsOk(db: Db, b: Booking) {
    && b.spotId in db.spots
    && b.renterId in db.users
    && b.windowId in db.windows
    && db.windows[b.windowId].isBooked
  }

  /**
   * The consistency of the database that every service operation keeps:
   * generated keys lie below their counters, every reference resolves, every
   * booking holds a booked window that no other booking holds, and emails
   * are unique.
   */
  predicate Inv(db: Db) {
    && (forall u | u in db.users :: u < db.nextUserId)
    && (forall s | s in db.spots :: s < db.nextSpotId && db.spots[s].ownerId in db.users)
    && (forall w | w in db.windows :: w < db.nextWindowId && db.windows[w].spotId in db.spots)
    && (forall b | b in db.bookings :: b < db.nextBookingId && BookingRefsOk(db, db.bookings[b]))
    && (forall b1, b2 | b1 in db.bookings && b2 in db.bookings
          && db.bookings[b1].windowId == db.bookings[b2].windowId :: b1 == b2)
    && UniqueEmails(db.users)
  }

  /** The empty database, with the identity counters at their first value 1. */
  function EmptyDb(): (db: Db)
    ensures Inv(db) && db.log == []
  {
    Db(map[], map[], map[], map[], [], 1, 1, 1, 1)
  }

  /** A booking whose window is not booked does not exist. */
  lemma UnbookedWindowIsFree(db: Db, w: Id, b: Id)
    requires Inv(db) && w in db.windows && !db.windows[w].isBooked && b in db.bookings
    ensures db.bookings[b].windowId != w
  {
    assert BookingRefsOk(db, db.bookings[b]);
  }

  /** The in-memory store: the tables and counters of a `Db`, updated in place. */
  class ParkStore {
    var users: map<Id, User>
    var spots: map<Id, Spot>
    var windows: map<Id, Window>
    var bookings: map<Id, Booking>
    var log: seq<LogEntry>
    var nextUserId: Id
    var nextSpotId: Id
    var nextWindowId: Id
    var nextBookingId: Id

    /** The database this store currently holds. */
    function State(): Db
      reads this
    {
      Db(users, spots, windows, bookings, log, nextUserId, nextSpotId, nextWindowId, nextBookingId)
    }

    ghost predicate Valid()
      reads this
    {
      Inv(State())
    }

    constructor ()
      ensures Valid() && State() == EmptyDb()
    {
      users, spots, windows, bookings, log := map[], map[], map[], map[], [];
      nextUserId, nextSpotId, nextWindowId, nextBookingId := 1, 1, 1, 1;
    }
  }
}
