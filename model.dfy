/**
 * The entities, request and response records of the ParkUs backend, the
 * error conditions its services raise, and the time arithmetic that the
 * booking price depends on.
 *
 * Identifiers are the database's generated `Long` keys, timestamps are
 * `LocalDateTime` values counted in nanoseconds on the local time line, and
 * `BigDecimal` amounts and coordinates are exact reals.
 */
module Model {

  type Id = int

  /** A `LocalDateTime`, as nanoseconds from an arbitrary origin. */
  type Time = int

  /** Nanoseconds in one hour: 60 * 60 * 10^9. */
  const NanosPerHour: int := 3_600_000_000_000

  datatype Option<+T> = None | Some(value: T)

  /** The exceptions the services throw, one constructor per message. */
  datatype Error =
    | AvailabilityNotFound   // "Availability not found"
    | AlreadyBooked          // "Already booked"
    | RenterNotFound         // "Renter not found"
    | InvalidTimeWindow      // "Invalid time window"
    | NullPrice              // a spot without a price reaches BigDecimal.multiply
    | BookingNotFound        // "Booking not found"
    | UserNotAuthenticated   // "User not authenticated"
    | SpotNotFound           // "Parking spot not found"
    | NotSpotOwner           // the spot belongs to another user
    | EndBeforeStart         // "End time must be after start time"
    | StartInPast            // "Start time must be in the future"
    | OverlapsExisting       // "This time slot overlaps with existing availability"
    | WindowBooked           // "Cannot delete ... booked availability"
    | UserNotFound           // "User not found" / "user not found"
    | InvalidRole            // "Invalid role: ..."
    | NewWindowBooked        // "New availability slot is already booked"
    | OwnerNotFound          // "Owner not found"
    | OwnerNotRegular        // "Owner must be a regular user"
    | NullOwnerId            // the repository refuses findById(null)
    | NotRegularUser         // the cast to RegularUser fails
    | SpotInUse              // a window or booking still references the spot
    | UserAlreadyExists      // "User with this email already exists"
    | InvalidCredentials     // "Invalid username or password"
    | NullEmail              // "Email cannot be null"
    | InvalidPassword        // "Password must be atleast 8 characters"
    | NullRole               // "Role cannot be null"
    | NullPassword           // the password encoder refuses a null password
    | NullName               // the users table refuses a null first or last name

  datatype Result<+T> = Ok(value: T) | Err(error: Error)

  datatype Role = RoleUser | RoleAdmin

  /** The enum constant's name, which is what `UserRole.valueOf` matches. */
  function RoleName(r: Role): string {
    match r
    case RoleUser => "ROLE_USER"
    case RoleAdmin => "ROLE_ADMIN"
  }

  /** The concrete subclass of UserEntity a stored user belongs to. */
  datatype UserKind = Regular | OtherKind

  datatype User = User(
    kind: UserKind,
    email: string,
    firstName: Option<string>,
    lastName: Option<string>,
    password: string,
    role: Role,
    registrationDate: Time)

  datatype Spot = Spot(
    ownerId: Id,
    title: Option<string>,
    description: Option<string>,
    location: Option<string>,
    latitude: Option<real>,
    longitude: Option<real>,
    slotType: Option<string>,
    pricePerHour: Option<real>,
    createdAt: Time)

  /** A SpotAvailability row: one bookable time window of a spot. */
  datatype Window = Window(spotId: Id, start: Time, end: Time, isBooked: bool)

  datatype Booking = Booking(
    spotId: Id,
    renterId: Id,
    windowId: Id,
    status: string,
    totalAmount: real,
    bookedAt: Time)

  /** One row of the append-only booking log. */
  datatype LogEntry = LogEntry(
    bookingId: Id,
    spotId: Id,
    ownerId: Id,
    renterId: Id,
    startTime: Time,
    endTime: Time,
    durationHours: int,
    totalAmount: real,
    bookingStatus: string,
    loggedAt: Time)

  // Requests

  datatype BookingRequest = BookingRequest(availabilityId: Id, renterId: Id)

  datatype WindowRequest = WindowRequest(spotId: Id, start: Time, end: Time)

  datatype SpotRequest = SpotRequest(
    title: Option<string>,
    description: Option<string>,
    location: Option<string>,
    latitude: Option<real>,
    longitude: Option<real>,
    slotType: Option<string>,
    pricePerHour: Option<real>,
    ownerId: Option<Id>)

  datatype RegisterRequest = RegisterRequest(
    firstName: Option<string>,
    lastName: Option<string>,
    email: Option<string>,
    password: Option<string>)

  datatype LoginRequest = LoginRequest(email: string, password: string)

  // Responses

  datatype BookingResponse = BookingResponse(
    bookingId: Id,
    spotId: Id,
    renterId: Id,
    ownerId: Id,
    status: string,
    totalAmount: real,
    startTime: Time,
    endTime: Time)

  datatype WindowResponse = WindowResponse(
    availabilityId: Id,
    spotId: Id,
    startTime: Time,
    endTime: Time,
    isBooked: bool)

  datatype SpotResponse = SpotResponse(
    spotId: Id,
    ownerId: Id,
    title: Option<string>,
    description: Option<string>,
    location: Option<string>,
    latitude: Option<real>,
    longitude: Option<real>,
    slotType: Option<string>,
    pricePerHour: Option<real>,
    createdAt: Option<Time>)

  datatype UserResponse = UserResponse(
    firstName: Option<string>,
    lastName: Option<string>,
    email: string,
    role: Role,
    registrationDate: Time)

  /**
   * `ChronoUnit.HOURS.between(start, end)`: the number of whole hours from
   * start to end, truncated toward zero (negative when end is before start).
   */
  function HoursBetween(start: Time, end: Time): (h: int)
    ensures start <= end ==>
      0 <= h && h * 3_600_000_000_000 <= end - start < (h + 1) * 3_600_000_000_000
    ensures end < start ==>
      h <= 0 && -h * 3_600_000_000_000 <= start - end < (-h + 1) * 3_600_000_000_000
    ensures h > 0 <==> end - start >= NanosPerHour
  {
    if start <= end then (end - start) / NanosPerHour
    else -((start - end) / NanosPerHour)
  }

  /** Truncation makes the hour count antisymmetric in its two instants. */
  lemma HoursBetweenAntisymmetric(start: Time, end: Time)
    ensures HoursBetween(end, start) == -HoursBetween(start, end)
  {
  }

  /** A window of 1 h 59 min is billed as one hour; one of 59 min as none. */
  lemma HoursBetweenTruncates(start: Time)
    ensures HoursBetween(start, start + 119 * 60 * 1_000_000_000) == 1
    ensures HoursBetween(start, start + 59 * 60 * 1_000_000_000) == 0
    ensures HoursBetween(start, start + 2 * NanosPerHour) == 2
  {
  }

  /**
   * `isOverlapping` of SpotAvailabilityServiceImpl: the new range
   * [newStart, newEnd] overlaps the existing window unless it ends strictly
   * before the window starts or starts strictly after it ends. Both ends are
   * inclusive, so ranges that only share an endpoint overlap.
   */
  function IsOverlapping(existing: Window, newStart: Time, newEnd: Time): (r: bool)
    ensures newStart <= newEnd && existing.start <= existing.end ==>
      (r <==> exists t :: InRange(t, newStart, newEnd) && InRange(t, existing.start, existing.end))
  {
    var overlapping := !(newEnd < existing.start || newStart > existing.end);
    assert overlapping && newStart <= newEnd && existing.start <= existing.end ==>
      var t := if newStart < existing.start then existing.start else newStart;
      InRange(t, newStart, newEnd) && InRange(t, existing.start, existing.end);
    overlapping
  }

  /** The closed range from lo to hi contains t. */
  predicate InRange(t: Time, lo: Time, hi: Time) {
    lo <= t <= hi
  }

  /** The overlap test does not depend on which of two windows is the new one. */
  lemma OverlapSymmetric(a: Window, b: Window)
    ensures IsOverlapping(a, b.start, b.end) == IsOverlapping(b, a.start, a.end)
  {
  }

  /** A range that only touches the window at one endpoint still overlaps it. */
  lemma TouchingWindowsOverlap(existing: Window, newStart: Time, newEnd: Time)
    requires newStart <= newEnd && existing.start <= existing.end
    requires newEnd == existing.start || newStart == existing.end
    ensures IsOverlapping(existing, newStart, newEnd)
  {
  }

  /**
   * The strict test of SpotAvailabilityRepository.findOverlapping
   * (a.start < newEnd and a.end > newStart), which no service calls.
   */
  function StrictlyOverlapping(existing: Window, newStart: Time, newEnd: Time): (r: bool)
    ensures r ==> IsOverlapping(existing, newStart, newEnd)
  {
    existing.start < newEnd && existing.end > newStart
  }

  /**
   * The inclusive test rejects exactly the ranges the strict one rejects,
   * plus those that touch the window at one of its endpoints.
   */
  lemma InclusiveIsStrictPlusTouching(existing: Window, newStart: Time, newEnd: Time)
    requires newStart < newEnd && existing.start < existing.end
    ensures IsOverlapping(existing, newStart, newEnd) <==>
      StrictlyOverlapping(existing, newStart, newEnd)
      || newEnd == existing.start || newStart == existing.end
  {
  }
}
