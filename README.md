# GameHub reservation engine, tournaments and shop setup in Dafny

This project models the rules at the centre of the GameHub backend, which rents
gaming stations by the hour and runs tournaments. Dafny proves properties of
each rule. The modelled rules are:

- **Reservation lifecycle** (module `Reservations`, class `ReservationBook`).
  - Creating a booking: interval validation, station lookup, the five-minute
    in-use guard, the half-open overlap check and the choice of the conflict
    reported back.
  - Pricing, with 50 loyalty points redeemable for two free hours (module `Pricing`).
  - Cancelling and completing a booking. Completing awards 10 points for a
    booking of two hours or more.
  - A customer's own list of bookings.
  - The central invariant: no two non-cancelled reservations of one station
    overlap. It is part of `ReservationBook.Valid()`, which every operation
    preserves (module `Availability`).
- **Station live status** (module `StationListings`). The two read-only station
  listings derive a displayed status and a "next available" time from the
  reservations and the clock. One is per shop; the other is the availability
  search, with its precedence chain and its availability flag.
- **Tournaments** (module `Tournaments`, class `TournamentBoard`).
  - The public listing, with its case-insensitive status filter.
  - Registration, which keeps the participant count within capacity and allows
    at most one live registration per user and tournament.
  - A user's own registrations.
  - The administrator's creation and deletion of tournaments.
- **Shop setup and user listing** (module `Admin`).
  - The deterministic default equipment of a shop: five PCs, and three
    PlayStations at the shop rate plus 1.00.
  - Opening a shop.
  - Adding the default stations to a shop that has none.
  - The listing of regular users.

The LINQ operators the controllers use are generic functions in module
`Queries`: `Where`, `Select`, `OrderBy(...).FirstOrDefault()`,
`FirstOrDefault(predicate)` and `OrderBy`/`OrderByDescending`. Each has a
contract.

Conventions of the model:

- Time is whole minutes (`Models.Time`). The two-hour thresholds are 120
  minutes.
- Money is an exact `real`, standing for C#'s `decimal`. "Hours" are minutes
  divided by 60, computed exactly.
- Each request is one atomic step on the stored state. The clock (`now`) is a
  parameter.
- Stores are fields of the classes:
  - reservations: a `seq`
  - loyalty balances: a `map`
  - tournaments: a `map` keyed by id
  - registrations: a `seq`
  - shops: a `map`
  - stations: a `seq`
- The station table that Create reads is passed to it as a parameter.
- The identity store is the balance map for reservations and a `seq<User>`
  for the user listing.
- Ids come from a counter that each class keeps.
- A tournament's participant count is the participants it had when the board
  was set up (the application starts with partly filled tournaments that have
  no registration rows) plus its stored registrations. `TournamentBoard`
  keeps that initial number per tournament in a ghost map; a tournament
  created later starts from zero.
- Where several rows tie under `OrderBy`, the model takes the first in stored
  order. The proof `Availability.ActiveIsUnique` shows that the tie among
  active reservations cannot occur while the invariant holds.

Notes on how the code behaves, which the model reproduces:

- Cancelling or completing someone else's reservation answers "not found".
  The code answers this way because its lookup filters on the caller. It does
  not answer "forbidden".
- The active reservation is chosen by latest end only.
- The loyalty-point update and the reservation write are two separate commits
  in the code. The model treats them as one step.

## Model

| member | source | states |
|---|---|---|
| Queries.Filter | Backend/GameHub.API/Controllers/ReservationsController.cs:32-33 | `Where`: the result holds exactly the elements of the input that satisfy the predicate, and is no longer than the input |
| Queries.FilterCount | Backend/GameHub.API/Controllers/ReservationsController.cs:32-33 | `Where` keeps every occurrence of a kept element and drops every occurrence of a rejected one (multiset counts) |
| Queries.Select | Backend/GameHub.API/Controllers/GamingStationsController.cs:27 | `Select`: same length, element k is f of input element k, and every output row comes from some input element |
| Queries.FirstMinBy | Backend/GameHub.API/Controllers/ReservationsController.cs:101-102 | `OrderBy(key).FirstOrDefault()`: none exactly for an empty input; otherwise an element of the input with the least key, and no earlier element has a key as small |
| Queries.FirstIndexWhere | Backend/GameHub.API/Controllers/ReservationsController.cs:66-67 | `FirstOrDefault(p)`: none exactly when no element satisfies p; otherwise the first position that does |
| Queries.SortBy | Backend/GameHub.API/Controllers/ReservationsController.cs:35 | `OrderBy`: the result is sorted by the key and is a permutation of the input |
| Pricing.PriceQuote | Backend/GameHub.API/Controllers/ReservationsController.cs:113-122 | free hours apply if and only if the balance is at least 50 and the booking lasts at least two hours; they then waive exactly 120 minutes and cost exactly 50 points, otherwise nothing; billable time is duration minus free time; a non-negative balance stays non-negative after the debit |
| Pricing.PriceWithinBounds | Backend/GameHub.API/Controllers/ReservationsController.cs:119-122 | with a non-negative rate, 0 <= total <= duration in hours x rate |
| Pricing.FreeHoursDiscount | Backend/GameHub.API/Controllers/ReservationsController.cs:119-122 | the total is the full price minus exactly two hours at the rate when free hours apply, and the full price otherwise |
| Pricing.CompletionAward | Backend/GameHub.API/Controllers/ReservationsController.cs:210-216 | completion earns 10 points if and only if the booked interval lasts 120 minutes or more, and 0 otherwise |
| Availability.EarliestEndingConflict | Backend/GameHub.API/Controllers/ReservationsController.cs:96-108 | a conflict is reported if and only if some non-cancelled reservation of the station overlaps the half-open request; it is one of them, and it has the smallest end among them |
| Availability.NoOverlapAppend | Backend/GameHub.API/Controllers/ReservationsController.cs:87-93 | storing a reservation that overlaps no non-cancelled one keeps "no two non-cancelled reservations of a station overlap" |
| Availability.NoOverlapStatusChange | Backend/GameHub.API/Controllers/ReservationsController.cs:171-175 | changing one reservation's status keeps the invariant when the new status is Cancelled or the reservation was not cancelled |
| Availability.ActiveIsUnique | Backend/GameHub.API/Controllers/GamingStationsController.cs:30-36 | under the invariant, at most one reservation holds a station at any instant |
| Reservations.FindStation | Backend/GameHub.API/Controllers/ReservationsController.cs:65-70 | none exactly when no station has the id; otherwise a station of the table with that id |
| Reservations.FindOwned | Backend/GameHub.API/Controllers/ReservationsController.cs:164-169 | none exactly when no reservation has both the id and the caller as owner; otherwise such a reservation's position |
| Reservations.ReservationBook.Create | Backend/GameHub.API/Controllers/ReservationsController.cs:53-156 | the checks run in source order (interval, past start, station, in-use guard, overlap with the earliest-ending conflict's end, unknown user); a refusal changes nothing; a request that passes every check succeeds; success stores a Confirmed reservation with the requested station, interval and quoted price, debits exactly the quoted points, and keeps the no-overlap invariant |
| Reservations.ReservationBook.Cancel | Backend/GameHub.API/Controllers/ReservationsController.cs:158-179 | not found unless the caller owns it; refused when completed or cancelled; otherwise only its status changes, to Cancelled, and balances are untouched |
| Reservations.ReservationBook.Complete | Backend/GameHub.API/Controllers/ReservationsController.cs:181-228 | not found, already completed, cancelled and unknown user are refused in that order with no change; otherwise the status becomes Completed, the balance grows by the award, and the reported balance is the old one plus the award |
| Reservations.ReservationBook.MyReservations | Backend/GameHub.API/Controllers/ReservationsController.cs:32-35 | exactly the caller's reservations that are not Completed, each as often as stored, latest start first |
| Reservations.CancelTwice | Backend/GameHub.API/Controllers/ReservationsController.cs:168-175 | after a successful cancel, cancelling the same reservation again is refused |
| StationListings.ActiveReservation | Backend/GameHub.API/Controllers/GamingStationsController.cs:30-36 | present if and only if a non-cancelled reservation holds the station now; it is one, with the latest end |
| StationListings.UpcomingReservation | Backend/GameHub.API/Controllers/GamingStationsController.cs:39-44 | present if and only if a non-cancelled reservation starts after now; it is one, with the earliest start |
| StationListings.ShopLiveStatus | Backend/GameHub.API/Controllers/GamingStationsController.cs:46-72 | InUse if and only if the station is held now; Reserved if and only if not held and something is upcoming; whenever something is upcoming, next = the earliest-starting upcoming reservation's end, and when in use with nothing upcoming, next = the end of the active reservation with the latest end; Available otherwise, with no next time; the stored status never shows |
| StationListings.InUseNextAvailableNotEarly | Backend/GameHub.API/Controllers/GamingStationsController.cs:49-61 | under the invariant, while in use the reported next time is never before the active reservation ends |
| StationListings.NextAvailableInFuture | Backend/GameHub.API/Controllers/GamingStationsController.cs:49-72 | with non-empty intervals, any reported next time lies after now |
| StationListings.GetStationsByShop | Backend/GameHub.API/Controllers/GamingStationsController.cs:19-87 | exactly one row per station of the shop not under maintenance (as many rows as such stations) and no other row; no row shows Maintenance |
| StationListings.AvailableFor | Backend/GameHub.API/Controllers/GamingStationsController.cs:112-116 | the window is free if and only if every non-cancelled reservation of the station ends by its start or starts at or after its end |
| StationListings.SearchStatus | Backend/GameHub.API/Controllers/GamingStationsController.cs:139-164 | the five-step precedence: active reservation (InUse, next = its end), stored InUse, upcoming starting by the requested start (Reserved, next = the earliest upcoming end), stored Reserved, otherwise Available |
| StationListings.DefaultStartNeverReservedByUpcoming | Backend/GameHub.API/Controllers/GamingStationsController.cs:106 | when the search gives no start, a station shows Reserved only when its stored status is Reserved |
| StationListings.GetAvailableStations | Backend/GameHub.API/Controllers/GamingStationsController.cs:89-181 | exactly one row per station that is not under maintenance and matches the optional shop and type (as many rows as such stations), and no other row; the window defaults to [now, now + 120); the availability flag is the negation of an overlap |
| Tournaments.ParseStatus | Backend/GameHub.API/Controllers/TournamentsController.cs:29-32 | a filter is chosen only for non-empty text equal to a status name ignoring case, and it is that status; no filter when no name matches |
| Tournaments.ParseIgnoresCase | Backend/GameHub.API/Controllers/TournamentsController.cs:29 | every case variant of a status name selects that status |
| Tournaments.GetTournaments | Backend/GameHub.API/Controllers/TournamentsController.cs:24-55 | exactly the tournaments with the chosen status (all when none is chosen), each as often as stored, earliest start first |
| Tournaments.EntrantsAppend | Backend/GameHub.API/Controllers/TournamentsController.cs:117-127 | adding one registration raises its tournament's count by one and no other count |
| Tournaments.EntrantsNone | Backend/GameHub.API/Controllers/AdminController.cs:175 | a tournament with no registrations counts zero participants |
| Tournaments.RemoveTournament | Backend/GameHub.API/Controllers/AdminController.cs:230 | the remaining registrations are exactly those of other tournaments |
| Tournaments.EntrantsAfterRemoval | Backend/GameHub.API/Controllers/AdminController.cs:230-231 | removing a tournament's registrations zeroes its count and leaves every other count unchanged |
| Tournaments.RemovalKeepsSingleActive | Backend/GameHub.API/Controllers/AdminController.cs:230-231 | removing registrations keeps at most one live registration per user and tournament |
| Tournaments.ScheduleError | Backend/GameHub.API/Controllers/AdminController.cs:121-133 | the refusals in source order: DeadlineNotBeforeStart when the deadline is not before the start, else DeadlineInPast when the deadline is before now, else ShopNotFound for an unknown shop; no error if and only if now <= deadline < start and the shop exists; the start-in-past refusal can never be the answer |
| Tournaments.TournamentBoard.Register | Backend/GameHub.API/Controllers/TournamentsController.cs:88-137 | refusals in source order (unknown, not open, full, deadline passed, already registered) change nothing, and a deadline equal to now still admits; success adds one Confirmed registration paying the entry fee, raises the count by exactly one, and keeps the count within the maximum and one live registration per user |
| Tournaments.TournamentBoard.MyRegistrations | Backend/GameHub.API/Controllers/TournamentsController.cs:146-147 | exactly the caller's registrations, each as often as stored |
| Tournaments.TournamentBoard.CreateTournament | Backend/GameHub.API/Controllers/AdminController.cs:115-206 | the date and shop checks decide a refusal, which changes nothing; otherwise a tournament with the given fields, zero participants, status RegistrationOpen and the given image URL (if non-empty) is stored under a fresh id |
| Tournaments.TournamentBoard.DeleteTournament | Backend/GameHub.API/Controllers/AdminController.cs:209-235 | not found for an unknown id; otherwise the tournament and all of its registrations are removed; each remaining tournament still counts its initial participants plus exactly its registrations |
| Tournaments.RegisterTwice | Backend/GameHub.API/Controllers/TournamentsController.cs:111-115 | after a successful registration, the same user's second request is refused |
| Tournaments.RegisterForPrefilled | Backend/GameHub.API/Controllers/TournamentsController.cs:96-128 | a tournament that already counts participants when the board is set up, is open, has a free place and whose deadline has not passed accepts a registration |
| Admin.BuildDefaultStations | Backend/GameHub.API/Controllers/AdminController.cs:287-317 | exactly eight stations, all Available and of the shop: "PC Station 1".."PC Station 5" at the shop rate with the PC specification, then "PlayStation 5 Station 1".."3" at the rate plus 1.00 with the console specification |
| Admin.DefaultStationsDistinct | Backend/GameHub.API/Controllers/AdminController.cs:290-315 | no two default stations share a name or an id |
| Admin.DefaultStationsOfShop | Backend/GameHub.API/Controllers/AdminController.cs:290-315 | every default station belongs to the shop and is Available |
| Admin.AddShopKeepsInvariant | Backend/GameHub.API/Controllers/AdminController.cs:283-284 | a new shop takes an id no shop and no station uses, and the catalog stays consistent |
| Admin.AppendDefaultKeepsInvariant | Backend/GameHub.API/Controllers/AdminController.cs:317-318 | adding a shop's default stations keeps every station attached to a stored shop and keeps station ids distinct |
| Admin.StationsOf | Backend/GameHub.API/Controllers/AdminController.cs:347-350 | exactly the stations belonging to the shop |
| Admin.OwnStationsAfterAppend | Backend/GameHub.API/Controllers/AdminController.cs:343-389 | a shop with no stations that receives the default set has exactly those stations |
| Admin.ShopCatalog.CreateShop | Backend/GameHub.API/Controllers/AdminController.cs:261-318 | the shop copies the input, is active unless the input says otherwise, is owned by the caller, and gets a fresh id; it receives the default stations, which are then all its stations |
| Admin.ShopCatalog.AddStationsToShop | Backend/GameHub.API/Controllers/AdminController.cs:341-396 | not found for an unknown shop; refused, adding nothing, when the shop already has a station; a known shop without stations always succeeds, and then gains the eight default stations and has exactly those |
| Admin.ListedRolesUnchanged | Backend/GameHub.API/Controllers/AdminController.cs:41-54 | for a listed user, hiding the Owner role removes nothing, and the row shows neither Admin nor Owner |
| Admin.ListingStep | Backend/GameHub.API/Controllers/AdminController.cs:37-56 | one more user adds that user's row exactly when the user holds neither Admin nor Owner |
| Admin.ListingMembers | Backend/GameHub.API/Controllers/AdminController.cs:37-58 | the listing's rows are exactly the rows of users holding neither Admin nor Owner |
| Admin.GetUsers | Backend/GameHub.API/Controllers/AdminController.cs:32-59 | the loop's result is a permutation of one row per regular user, most recently created first |

## Left out

- The web front end, the database seeder, the EF context configuration, the
  shops controller and the play-session entity are not part of this model.
  They are UI, seeding and persistence plumbing without rules of their own.
- Image upload and deletion for tournaments are not modelled, because they are
  file-system I/O.
  - An uploaded file would replace the given image URL with a generated path.
  - The model keeps only the given URL.
- Authentication and model-state validation are not modelled. The
  "unauthorized" answers for a missing identity and the framework's
  "bad request" for a malformed body are outside the model. The caller's
  identity is a parameter.
- Create and tournament creation read the clock more than once in the code.
  The model reads it once. So the "start date in the past" check of tournament
  creation can never fire in the model (`Tournaments.ScheduleError` proves
  this).
- Create in the code has a fallback answer for an overlap without a conflict
  row. The model has no such path: the two queries use the same predicate, and
  `Availability.EarliestEndingConflict` proves that a conflict exists whenever
  an overlap does.
- Concurrency and atomicity are not modelled. That covers separate commits of
  point updates and reservation writes, and an unserialised overlap check and
  insert. Each request is one atomic step.
- Pricing.PriceQuote: the code computes hours as a `double` and converts to
  `decimal`. The model computes exactly, so rounding is not modelled.
- Reservations.ReservationBook.Complete: the 32-bit range of loyalty points is
  not modelled. Balances are unbounded integers.
- Tournaments.ParseStatus: the enum parser's numeric values,
  comma-separated flag lists, surrounding whitespace and non-ASCII case
  folding are not modelled. Only the five names, in any ASCII case, select a
  status.
- Tournaments.TournamentBoard.Register: the catch-all "internal error" answer
  for a failing store is not modelled.
- Listing rows are modelled without display-only joins. These include a shop's
  name in the availability search and in the tournament listing, and a
  tournament's name in a user's registrations. Timestamps are modelled as
  values, not as formatted strings.
- Ties under `OrderBy` follow stored order. The database leaves this order
  unspecified.
