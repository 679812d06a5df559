# ParkUs reservations and availability, in Dafny

This project models the service layer of the ParkUs parking backend: owners
publish time windows ("availabilities") on their parking spots, renters book
a free window at the spot's hourly rate, administrators move bookings and
edit windows and spots, and users register and log in. It proves what each
operation promises.

The database is a value `Store.Db`. It holds:

- one map per table: users, spots, windows, bookings;
- the append-only booking log;
- the four identity counters.

`Store.ParkStore` is the mutable store that holds these tables as fields.
BookingServiceImpl, SpotAvailabilityServiceImpl, ParkingSpotServiceImpl and AdminService are transactional, so a call that throws commits nothing. AuthService is not, but its `register` makes a single save, so it is one step too. Each call is modelled as one step taken with no other call running (see "## Left out"), and each mutating operation is modelled twice:

- a function `XSpec(db, ...)` returns the `Outcome`, that is, the result and the database afterwards. Its contract names the error of every failing check in the order the service checks them, says exactly when the operation succeeds, gives the whole new state, and says that an error leaves the database unchanged.
- a method on `ParkStore` performs the service's steps in place. Its postcondition is that it agrees with the function.

Every operation on the database keeps the store invariant `Store.Inv`:

- keys lie below their counters;
- references resolve;
- every booking holds a booked window that no other booking holds;
- emails are unique.

Modelling decisions:

- **Time.** A `LocalDateTime` is an integer count of nanoseconds. `now` is a parameter.
- **Money.** `BigDecimal` amounts and coordinates are `real`.
- **Current user.** The user the security context yields is an explicit actor id. Its lookup failing is the actor id missing from the user table.
- **Password encoder.** It is a pair of function parameters, `encode` and `matches`.
- **Email format.** `@Email` is a predicate parameter.
- **Listings.** They return sets.

## Model

| member | source | states |
|---|---|---|
| Model.HoursBetween | src/main/java/com/gazi/ParkUs/services/BookingServiceImpl.java:48-51 | the whole hours between two instants, truncated toward zero: h hours when the span is at least h and under h+1 hours, negative when end is before start; positive exactly when the span reaches one hour |
| Model.HoursBetweenAntisymmetric | src/main/java/com/gazi/ParkUs/services/BookingServiceImpl.java:48-51 | swapping the instants negates the hour count |
| Model.HoursBetweenTruncates | src/main/java/com/gazi/ParkUs/services/BookingServiceImpl.java:48-55 | 1 h 59 min counts as 1 hour, 59 min as 0 (and is rejected), 2 h as 2 |
| Model.IsOverlapping | src/main/java/com/gazi/ParkUs/services/SpotAvailabilityServiceImpl.java:143-146 | for well-formed ranges, the test holds exactly when some instant lies in both closed ranges |
| Model.OverlapSymmetric | src/main/java/com/gazi/ParkUs/services/SpotAvailabilityServiceImpl.java:143-146 | the test gives the same answer with the two windows swapped |
| Model.TouchingWindowsOverlap | src/main/java/com/gazi/ParkUs/services/SpotAvailabilityServiceImpl.java:143-146 | ranges that only share an endpoint count as overlapping |
| Model.StrictlyOverlapping | src/main/java/com/gazi/ParkUs/repositories/SpotAvailabilityRepository.java:29-40 | the repository's strict query implies the service's inclusive test |
| Model.InclusiveIsStrictPlusTouching | src/main/java/com/gazi/ParkUs/services/SpotAvailabilityServiceImpl.java:143-146 | for non-empty ranges, inclusive overlap is strict overlap or touching at an endpoint |
| Store.EmptyDb | src/main/java/com/gazi/ParkUs/entities/SpotAvailability.java:19-20 | the empty database satisfies the invariant and has an empty log; identity keys start at 1, as every entity's `@GeneratedValue` identity id (UserEntity, ParkingSpot, SpotAvailability, Booking) does; the window entity is cited |
| Store.UnbookedWindowIsFree | src/main/java/com/gazi/ParkUs/services/BookingServiceImpl.java:68 | in a consistent database no booking holds a window whose flag is unset |
| Store.ParkStore.constructor | src/main/java/com/gazi/ParkUs/entities/Booking.java:20-21 | a new store holds the empty database, with identity keys starting at 1 as every entity's `@GeneratedValue` id does, and is consistent; the booking entity is cited |
| BookingService.ToDto | src/main/java/com/gazi/ParkUs/services/BookingServiceImpl.java:128-141 | the response carries the booking's id, spot, renter, status and total, the owner its spot has now, and the times its window has now |
| BookingService.LogEntryOf | src/main/java/com/gazi/ParkUs/services/BookingServiceImpl.java:143-163 | the log entry copies the booking, its spot's current owner and its window's current times, and recomputes the duration as the truncated whole hours, positive exactly when the window spans an hour |
| BookingService.CreateBookingSpec | src/main/java/com/gazi/ParkUs/services/BookingServiceImpl.java:35-76 | errors in order, each named: window missing, already booked, renter missing, under one whole hour, spot without a price; success adds one "confirmed" booking under the next booking key on the window's spot for the renter at rate × whole hours, sets the window booked, appends one log entry with the truncated hours and the same total, advances only the booking counter and changes nothing else; any error leaves the database unchanged |
| BookingService.UnbookedWindowClaimable | src/main/java/com/gazi/ParkUs/services/BookingServiceImpl.java:41-43 | an unbooked window is held by no booking, so claiming it keeps every booking's window unique |
| BookingService.UpdateStatusSpec | src/main/java/com/gazi/ParkUs/services/BookingServiceImpl.java:101-111 | fails exactly on a missing booking; otherwise stores any status string in that booking and appends one log entry with the new status; no other table, field, window flag or counter changes |
| BookingService.DeleteBookingSpec | src/main/java/com/gazi/ParkUs/services/BookingServiceImpl.java:113-122 | fails exactly on a missing booking; otherwise removes exactly that booking, leaves its window booked, appends one log entry of its last state and changes nothing else |
| BookingService.GetBookingById | src/main/java/com/gazi/ParkUs/services/BookingServiceImpl.java:78-83 | fails exactly on a missing id; otherwise the booking's id, spot, renter, status and total, its spot's current owner and its window's current times |
| BookingService.BookingsByRenter | src/main/java/com/gazi/ParkUs/services/BookingServiceImpl.java:85-91 | exactly the response records of that renter's bookings: every one is listed, and every listed record is the response of a stored booking of that renter |
| BookingService.BookingsByOwner | src/main/java/com/gazi/ParkUs/services/BookingServiceImpl.java:93-99 | exactly the response records of the bookings on spots that user currently owns, in both directions |
| BookingService.CreateBooking | src/main/java/com/gazi/ParkUs/services/BookingServiceImpl.java:35-76 | the in-place steps agree with `CreateBookingSpec` and keep the store invariant |
| BookingService.UpdateStatus | src/main/java/com/gazi/ParkUs/services/BookingServiceImpl.java:101-111 | the in-place steps agree with `UpdateStatusSpec` |
| BookingService.DeleteBooking | src/main/java/com/gazi/ParkUs/services/BookingServiceImpl.java:113-122 | the in-place steps agree with `DeleteBookingSpec` |
| AvailabilityService.WindowDto | src/main/java/com/gazi/ParkUs/services/SpotAvailabilityServiceImpl.java:148-156 | the response carries the window's id, spot, start, end and booked flag |
| AvailabilityService.CreateAvailabilitySpec | src/main/java/com/gazi/ParkUs/services/SpotAvailabilityServiceImpl.java:39-84 | errors in order, each named: actor unknown, spot missing, actor not owner, end strictly before start, start strictly before now, overlap with any window of the spot; equal start and end and a start equal to now are accepted; success adds exactly one unbooked window under the next window key, advances that counter and changes nothing else |
| AvailabilityService.CreateAvailabilityKeepsNonOverlapping | src/main/java/com/gazi/ParkUs/services/SpotAvailabilityServiceImpl.java:64-81 | when the windows of each spot are pairwise non-overlapping, they still are after the call |
| AvailabilityService.DeleteAvailabilitySpec | src/main/java/com/gazi/ParkUs/services/SpotAvailabilityServiceImpl.java:119-140 | errors in order: window missing, actor unknown, actor not owner, window booked; success removes exactly that window |
| AvailabilityService.UnbookedWindowFreeForAll | src/main/java/com/gazi/ParkUs/services/SpotAvailabilityServiceImpl.java:134-139 | removing an unbooked window keeps the invariant |
| AvailabilityService.GetAvailabilityById | src/main/java/com/gazi/ParkUs/services/SpotAvailabilityServiceImpl.java:86-91 | fails exactly on a missing id; otherwise that window's id, spot, start, end and flag |
| AvailabilityService.AvailabilitiesBySpot | src/main/java/com/gazi/ParkUs/services/SpotAvailabilityServiceImpl.java:93-103 | fails exactly on a missing spot; otherwise exactly the response records of that spot's stored windows, in both directions |
| AvailabilityService.AvailableSlotsBySpot | src/main/java/com/gazi/ParkUs/services/SpotAvailabilityServiceImpl.java:105-117 | fails exactly on a missing spot; otherwise exactly the response records of its stored windows that are unbooked and start strictly after now, in both directions |
| AvailabilityService.AvailableSlotsAreFilteredListing | src/main/java/com/gazi/ParkUs/services/SpotAvailabilityServiceImpl.java:105-117 | the free slots are the full listing filtered by unbooked and future start |
| AvailabilityService.CreateAvailability | src/main/java/com/gazi/ParkUs/services/SpotAvailabilityServiceImpl.java:39-84 | the in-place steps agree with `CreateAvailabilitySpec` |
| AvailabilityService.DeleteAvailability | src/main/java/com/gazi/ParkUs/services/SpotAvailabilityServiceImpl.java:119-140 | the in-place steps agree with `DeleteAvailabilitySpec` |
| SpotService.ApplyDto | src/main/java/com/gazi/ParkUs/services/ParkingSpotServiceImpl.java:115-123 | the seven descriptive fields become the request's; owner and creation time are kept |
| SpotService.ToResponse | src/main/java/com/gazi/ParkUs/services/ParkingSpotServiceImpl.java:125-137 | copies the fields and the owner's id; the creation time is left unset |
| SpotService.AssertOwner | src/main/java/com/gazi/ParkUs/services/ParkingSpotServiceImpl.java:107-113 | succeeds exactly when the user owns the spot |
| SpotService.CreateSpotSpec | src/main/java/com/gazi/ParkUs/services/ParkingSpotServiceImpl.java:33-44 | fails when the actor is unknown or not a regular user; success adds one spot under a fresh key owned by the actor (the request's owner id is ignored), with the request's fields and creation time now |
| SpotService.GetSpotById | src/main/java/com/gazi/ParkUs/services/ParkingSpotServiceImpl.java:47-50 | fails exactly on a missing id with "Parking spot not found"; otherwise the whole response record of the stored spot |
| SpotService.AllSpots | src/main/java/com/gazi/ParkUs/services/ParkingSpotServiceImpl.java:56-62 | exactly the stored spots |
| SpotService.SpotsByOwner | src/main/java/com/gazi/ParkUs/services/ParkingSpotServiceImpl.java:64-70 | exactly the response records of the stored spots of that owner, in both directions |
| SpotService.UpdateSpotSpec | src/main/java/com/gazi/ParkUs/services/ParkingSpotServiceImpl.java:73-85 | errors in order: spot missing, actor unknown, actor not owner; success overwrites exactly the seven fields and keeps owner and creation time |
| SpotService.DeleteSpotSpec | src/main/java/com/gazi/ParkUs/services/ParkingSpotServiceImpl.java:88-98 | errors in order, each named: spot missing, actor unknown, actor not owner, spot still referenced by a window or booking; success removes exactly that spot |
| SpotService.CreateSpot | src/main/java/com/gazi/ParkUs/services/ParkingSpotServiceImpl.java:33-44 | the in-place steps agree with `CreateSpotSpec` |
| SpotService.UpdateSpot | src/main/java/com/gazi/ParkUs/services/ParkingSpotServiceImpl.java:73-85 | the in-place steps agree with `UpdateSpotSpec` |
| SpotService.DeleteSpot | src/main/java/com/gazi/ParkUs/services/ParkingSpotServiceImpl.java:88-98 | the in-place steps agree with `DeleteSpotSpec` |
| AdminService.UpperChar | src/main/java/com/gazi/ParkUs/services/AdminService.java:80 | lower-case ASCII letters map to their capitals, dotless i to I, long s to S, every other character to itself; no result is a lower-case letter |
| AdminService.UpperCase | src/main/java/com/gazi/ParkUs/services/AdminService.java:80 | same length, upper-cased character by character |
| AdminService.UpperCaseIdempotent | src/main/java/com/gazi/ParkUs/services/AdminService.java:80 | upper-casing twice is upper-casing once |
| AdminService.ParseRole | src/main/java/com/gazi/ParkUs/services/AdminService.java:80-83 | yields a role exactly when the string is that role's constant name |
| AdminService.UpperCaseOfUpper | src/main/java/com/gazi/ParkUs/services/AdminService.java:80 | a string with no lower-case letter is its own upper case |
| AdminService.RoleNameParses | src/main/java/com/gazi/ParkUs/services/AdminService.java:80-83 | every role's constant name is accepted |
| AdminService.LowerCaseRoleNameParses | src/main/java/com/gazi/ParkUs/services/AdminService.java:80-83 | "role_admin" is accepted as ROLE_ADMIN |
| AdminService.ChangeUserRoleSpec | src/main/java/com/gazi/ParkUs/services/AdminService.java:74-87 | fails on a missing user, then on a string whose upper case is no role name, leaving the user unchanged; success changes only that user's role |
| AdminService.UpdateBookingSpec | src/main/java/com/gazi/ParkUs/services/AdminService.java:91-131 | errors in order: booking missing, new window missing, new window booked (both only when the window id differs), new renter missing (only when the renter id differs), spot without a price; success keeps every window's key and times, leaves all flags as they were when the window id is the same, otherwise releases the old window and books the new one; the booking gets the requested window and renter and total = its own spot's rate × hours of that window, without a positivity check; spot, status and booking time are kept; one log entry is appended |
| AdminService.MoveKeepsInv | src/main/java/com/gazi/ParkUs/services/AdminService.java:104-109 | releasing the old window and booking a free one keeps every booking's window booked and unique |
| AdminService.MoveCanSplitSpotFromWindow | src/main/java/com/gazi/ParkUs/services/AdminService.java:96-110 | a move to a window of another spot succeeds and leaves the booking on its old spot |
| AdminService.ToSpotDto | src/main/java/com/gazi/ParkUs/services/AdminService.java:252-264 | the admin service's field-by-field mapper builds the same record as the owner service's `toResponse` |
| AdminService.CreateParkingSpotSpec | src/main/java/com/gazi/ParkUs/services/AdminService.java:135-155 | errors in order: no owner id, owner missing, owner not a regular user; success adds one spot owned by that user with the request's fields |
| AdminService.AdminUpdateSpotSpec | src/main/java/com/gazi/ParkUs/services/AdminService.java:157-181 | fails on a missing spot; overwrites the seven fields; reassigns the owner only when the request's owner id is present and differs, and then that owner must exist and be a regular user |
| AdminService.AdminCreateAvailabilitySpec | src/main/java/com/gazi/ParkUs/services/AdminService.java:191-203 | fails only on a missing spot; success adds one unbooked window with the requested times, unchecked |
| AdminService.AdminCreateCanBreakNonOverlapping | src/main/java/com/gazi/ParkUs/services/AdminService.java:191-203 | an overlapping window the owner service refuses is accepted here and breaks pairwise non-overlap |
| AdminService.UpdateAvailabilitySpec | src/main/java/com/gazi/ParkUs/services/AdminService.java:205-214 | fails only on a missing window; success changes only its start and end, keeping spot and flag |
| AdminService.AdminDeleteAvailabilitySpec | src/main/java/com/gazi/ParkUs/services/AdminService.java:216-225 | errors in order: window missing, window booked; no ownership check; success removes exactly that window |
| AdminService.OwnerDeleteImpliesAdminDelete | src/main/java/com/gazi/ParkUs/services/AdminService.java:216-225 | whatever the owner may delete, the admin deletion removes with the same outcome |
| AdminService.ChangeUserRole | src/main/java/com/gazi/ParkUs/services/AdminService.java:74-87 | the in-place steps agree with `ChangeUserRoleSpec` |
| AdminService.UpdateBooking | src/main/java/com/gazi/ParkUs/services/AdminService.java:91-131 | the in-place steps agree with `UpdateBookingSpec` |
| AdminService.CreateParkingSpot | src/main/java/com/gazi/ParkUs/services/AdminService.java:135-155 | the in-place steps agree with `CreateParkingSpotSpec` |
| AdminService.AdminUpdateSpot | src/main/java/com/gazi/ParkUs/services/AdminService.java:157-181 | the in-place steps agree with `AdminUpdateSpotSpec` |
| AdminService.AdminCreateAvailability | src/main/java/com/gazi/ParkUs/services/AdminService.java:191-203 | the in-place steps agree with `AdminCreateAvailabilitySpec` |
| AdminService.UpdateAvailability | src/main/java/com/gazi/ParkUs/services/AdminService.java:205-214 | the in-place steps agree with `UpdateAvailabilitySpec` |
| AdminService.AdminDeleteAvailability | src/main/java/com/gazi/ParkUs/services/AdminService.java:216-225 | the in-place steps agree with `AdminDeleteAvailabilitySpec` |
| Validation.TrimStart | src/main/java/com/gazi/ParkUs/dto/ParkingSpotRequestDto.java:13 | a suffix of the string that starts with a kept character, all dropped characters being at most U+0020 |
| Validation.TrimEnd | src/main/java/com/gazi/ParkUs/dto/ParkingSpotRequestDto.java:13 | a prefix that ends with a kept character, all dropped characters being at most U+0020 |
| Validation.TrimEmptyIff | src/main/java/com/gazi/ParkUs/dto/ParkingSpotRequestDto.java:13 | a string trims to nothing exactly when all its characters are at most U+0020 |
| Validation.NotBlankIff | src/main/java/com/gazi/ParkUs/dto/RegisterUserDto.java:9 | `@NotBlank` holds exactly for a present string with a character above U+0020 |
| Validation.ValidSpotRequest | src/main/java/com/gazi/ParkUs/dto/ParkingSpotRequestDto.java:13-41 | title non-blank and at most 100 characters; description at most 500 and location at most 255 when present; latitude present in [-90, 90]; longitude present in [-180, 180]; slot type non-blank; price present and strictly positive; owner id unconstrained |
| Validation.ValidRegistration | src/main/java/com/gazi/ParkUs/dto/RegisterUserDto.java:9-21 | first and last name non-blank, email non-blank and of valid format, password non-blank and at least 8 characters |
| Validation.SpotRequestBoundaries | src/main/java/com/gazi/ParkUs/dto/ParkingSpotRequestDto.java:23-38 | coordinates at the range ends are accepted, a zero price, a latitude of 90.5 and a title of spaces are refused |
| Users.NewUserRow | src/main/java/com/gazi/ParkUs/entities/UserEntity.java:42-50 | fails on a null email, then on a null or short password, then on a null role; a built user has the given email, names, password (at least 8 characters), role and registration time now |
| Users.RegularUserRow | src/main/java/com/gazi/ParkUs/entities/RegularUser.java:13-19 | always role ROLE_USER; each argument reaches its own field despite the superclass's parameter order; fails exactly on a null email or a password under 8 characters, never on the role |
| Users.UserEntity.Blank | src/main/java/com/gazi/ParkUs/entities/UserEntity.java:52 | every field starts null |
| Users.UserEntity.SetEmail | src/main/java/com/gazi/ParkUs/entities/UserEntity.java:62-67 | null is refused and the email kept; otherwise stored; no other field changes |
| Users.UserEntity.SetFirstName | src/main/java/com/gazi/ParkUs/entities/UserEntity.java:73-75 | any value is stored; no other field changes |
| Users.UserEntity.SetLastName | src/main/java/com/gazi/ParkUs/entities/UserEntity.java:81-83 | any value is stored; no other field changes |
| Users.UserEntity.SetPassword | src/main/java/com/gazi/ParkUs/entities/UserEntity.java:89-94 | null or under 8 characters is refused and the password kept; otherwise stored |
| Users.UserEntity.SetRole | src/main/java/com/gazi/ParkUs/entities/UserEntity.java:101-106 | null is refused and the role kept; otherwise stored |
| Users.UserEntity.Create | src/main/java/com/gazi/ParkUs/entities/UserEntity.java:42-50 | running the setters in order fails or succeeds as `NewUserRow` says, and a fresh entity holds exactly its row |
| Users.UserEntity.NewRegularUser | src/main/java/com/gazi/ParkUs/entities/RegularUser.java:13-19 | the subclass constructor agrees with `RegularUserRow` |
| AuthService.FindByEmail | src/main/java/com/gazi/ParkUs/services/AuthService.java:31 | the stored user with that email, or none exactly when no user has it |
| AuthService.RegisterSpec | src/main/java/com/gazi/ParkUs/services/AuthService.java:30-46 | errors in order, each named: email taken, null password, null email, encoded password under 8 characters, null first or last name; success stores one regular user with the encoded password and ROLE_USER under the next user key and advances that counter; emails stay unique |
| AuthService.Login | src/main/java/com/gazi/ParkUs/services/AuthService.java:48-58 | one error for an unknown email and for a wrong password; success exactly when the password matches the stored hash of the user with that email, whose record is returned; nothing changes |
| AuthService.RegisterThenLogin | src/main/java/com/gazi/ParkUs/services/AuthService.java:30-58 | with a consistent encoder, logging in right after registering succeeds and returns the registered record |
| AuthService.RegisterTwiceFails | src/main/java/com/gazi/ParkUs/services/AuthService.java:31-34 | a second registration with the same email fails and changes nothing |
| AuthService.Register | src/main/java/com/gazi/ParkUs/services/AuthService.java:30-46 | building the entity through its constructor and inserting its row agrees with `RegisterSpec` |
| Properties.Step | src/main/java/com/gazi/ParkUs/services/BookingServiceImpl.java:35-122 | every booking operation, run at its own instant, keeps the store invariant |
| Properties.StepKeepsWindows | src/main/java/com/gazi/ParkUs/services/BookingServiceImpl.java:68 | booking operations add and remove no window and never clear a booked flag; only a successful claim changes a window |
| Properties.BookedWindowNeverClaimed | src/main/java/com/gazi/ParkUs/services/BookingServiceImpl.java:41-43 | after any sequence of booking operations, each at its own instant and run one after another, a window booked at the start has never been claimed |
| Properties.MissingWindowNeverClaimed | src/main/java/com/gazi/ParkUs/services/BookingServiceImpl.java:38-39 | a window missing at the start is never claimed by any sequence of booking operations, each at its own instant |
| Properties.ClaimedAtMostOnce | src/main/java/com/gazi/ParkUs/services/BookingServiceImpl.java:35-122 | any sequence of create, status and delete calls, each at its own instant and run one after another, claims a window at most once, and only a window that was present and free |
| Properties.SecondClaimFails | src/main/java/com/gazi/ParkUs/services/BookingServiceImpl.java:41-43 | a second booking of a just-claimed window fails with "Already booked" and changes nothing |
| Properties.DeletedBookingStrandsWindow | src/main/java/com/gazi/ParkUs/services/BookingServiceImpl.java:113-122 | after a delete the window is booked but held by no booking, and neither booking it nor deleting it (by its owner or an admin) succeeds |
| Properties.AdminMoveReleasesWindow | src/main/java/com/gazi/ParkUs/services/AdminService.java:104-109 | once an admin moves a booking away, the old window can be booked again exactly when it spans an hour and its spot has a price |
| Properties.ValidSpotPricesPositive | src/main/java/com/gazi/ParkUs/dto/ParkingSpotRequestDto.java:36-38 | a spot priced by a valid request bills a window of at least one hour more than zero |

## Left out

- Controllers, Spring Security wiring, and `SecurityUtils`: routing and ambient context only. The current user is an actor id.
- Concurrency and locking: each service call is one step taken while no other call runs. The source takes no lock: `createBooking` reads the booked flag through a plain `findById`, the pessimistic `lockById` is never called, no entity has a `@Version`, and a booking's window has no unique constraint. So two concurrent `createBooking` calls on one window can both pass the check and both commit. Properties.ClaimedAtMostOnce and the other sequence properties hold only for calls made one after another.
- Null ids in requests: the repositories refuse `findById(null)`, but requests carry plain ids here. The exceptions are the owner ids of the admin `createParkingSpot` and `adminUpdateSpot` requests, which are optional: a missing one fails the first, and the second keeps the current owner.
- Listing order: listings are sets, because the repositories promise no order.
- Password hashing, the `@Email` format check and the clock: parameters.
- String lengths count Unicode scalar values, where Java counts UTF-16 code units. The two differ only for characters outside the Basic Multilingual Plane.
- `getUserById`, `updateUser`, `deleteUser` and `adminDeleteSpot` of AdminService: outside the modelled core. Deleting users and admin spot deletion depend on the database's cascades.
- The `userAction` print methods: output only. `setRegistrationDate`: called by no service.
- The UserRole enum file is not part of this model. Its constants are taken to be exactly ROLE_USER and ROLE_ADMIN, the two names the security configuration uses.
- AdminService.UpperChar: upper-cases only the characters that can become part of a role name. These are ASCII letters, dotless i and long s. Locale-specific rules are not modelled; under a Turkish default locale "i" becomes a dotted capital and no lower-case ASCII spelling of ROLE_ADMIN parses.
- SpotService.DeleteSpotSpec: refuses to delete a spot that a window or booking still references, with `SpotInUse`. The service itself issues a plain delete; the refusal models the foreign keys of the spotavailability and booking tables.
- AuthService.RegisterSpec: the `NullName` error models the users table's not-null first and last name columns. The service does not check the names itself.
