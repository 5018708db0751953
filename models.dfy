/** Entities of GameHub's backend: reservations, gaming stations, shops,
    tournaments, tournament registrations and users, with the enumerations
    that classify them.

    Time is a whole number of minutes on one absolute clock (the backend
    compares UTC DateTime values only).  Money is an exact number, as C#
    `decimal` is, so it is modelled by `real`. */
module Models {

  datatype Option<T> = None | Some(value: T) {
    /** C#'s `x ?? default`. */
    function GetOr(default: T): T {
      if Some? then value else default
    }
  }

  datatype Result<T, E> = Success(value: T) | Failure(error: E)

  /** Minutes since an arbitrary fixed origin. */
  type Time = int

  /** An exact amount of currency. */
  type Money = real

  /** Identity user ids are strings. */
  type UserId = string

  const MinutesPerHour: int := 60

  datatype ReservationStatus = Pending | Confirmed | Active | Completed | Cancelled

  datatype StationType = PC | PlayStation | Xbox

  datatype StationStatus = Available | Reserved | InUse | Maintenance

  datatype TournamentStatus = Upcoming | RegistrationOpen | InProgress | Completed | Cancelled

  datatype RegistrationStatus = Pending | Confirmed | Cancelled

  /** A booking of one station for the half-open interval [startTime, endTime). */
  datatype Reservation = Reservation(
    id: int,
    userId: UserId,
    stationId: int,
    startTime: Time,
    endTime: Time,
    status: ReservationStatus,
    totalPrice: Money,
    createdAt: Time,
    notes: Option<string>)

  /** `status` is the stored, administrative status; the live status shown to
      customers is derived from reservations (module StationListings). */
  datatype Station = Station(
    id: int,
    name: string,
    stationType: StationType,
    status: StationStatus,
    shopId: int,
    specifications: Option<string>,
    hourlyRate: Money,
    createdAt: Time)

  datatype Shop = Shop(
    id: int,
    name: string,
    address: string,
    city: string,
    country: string,
    phoneNumber: string,
    email: string,
    hourlyRate: Money,
    isActive: bool,
    createdAt: Time,
    ownerId: UserId)

  datatype Tournament = Tournament(
    id: int,
    name: string,
    game: string,
    description: string,
    shopId: int,
    startDate: Time,
    registrationDeadline: Time,
    maxParticipants: int,
    currentParticipants: int,
    entryFee: Money,
    prizePool: Money,
    status: TournamentStatus,
    imageUrl: Option<string>,
    createdAt: Time)

  datatype Registration = Registration(
    id: int,
    tournamentId: int,
    userId: UserId,
    status: RegistrationStatus,
    registeredAt: Time,
    paymentAmount: Option<Money>)

  /** A user as the identity store reports it, with the names of its roles. */
  datatype User = User(
    id: UserId,
    email: string,
    firstName: string,
    lastName: string,
    loyaltyPoints: int,
    createdAt: Time,
    roles: seq<string>)
}
