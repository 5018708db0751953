/** The reservation lifecycle: creating a booking (validation, the in-use
    guard, the overlap check, pricing and point redemption), cancelling it and
    completing it (awarding points), and a customer's own listing.

    Each request is one atomic step on the stored reservations and the users'
    loyalty balances; `now` is passed in by the caller. */
module Reservations {
  import opened Models
  import opened Queries
  import opened Pricing
  import opened Availability

  /** Why a reservation request is refused. */
  datatype ReservationError =
    | InvalidInterval          // the end is not after the start
    | StartInPast              // the start lies before now
    | StationNotFound          // no station has the requested id
    | StationInUse             // the station is held now and the start is within five minutes
    | SlotTaken(availableAfter: Time)  // an overlapping reservation, and when the earliest of them ends
    | UnknownUser              // the identity store does not know the caller
    | ReservationNotFound      // no reservation with this id belongs to the caller
    | CannotCancel             // the reservation is already completed or cancelled
    | AlreadyCompleted
    | CannotCompleteCancelled

  /** What completing a reservation reports. */
  datatype Completion = Completion(pointsAwarded: int, newLoyaltyPoints: int)

  /** The station with id `stationId`, if the table has one. */
  function FindStation(stations: seq<Station>, stationId: int): (s: Option<Station>)
    ensures s.None? <==> forall t :: t in stations ==> t.id != stationId
    ensures s.Some? ==> s.value in stations && s.value.id == stationId
  {
    match FirstIndexWhere(stations, (t: Station) => t.id == stationId)
    case None => None
    case Some(k) => Some(stations[k])
  }

  /** Position of the reservation `id` if it belongs to `user`. */
  function FindOwned(rs: seq<Reservation>, user: UserId, id: int): (k: Option<nat>)
    ensures k.None? <==> forall r :: r in rs ==> !(r.id == id && r.userId == user)
    ensures k.Some? ==> k.value < |rs| && rs[k.value].id == id && rs[k.value].userId == user
  {
    FirstIndexWhere(rs, (r: Reservation) => r.id == id && r.userId == user)
  }

  /** The reservation table together with the users' loyalty balances. */
  class ReservationBook {
    var reservations: seq<Reservation>
    var loyaltyPoints: map<UserId, int>
    var nextId: int

    /** No two non-cancelled reservations of a station overlap; every interval
        is non-empty; ids are distinct and below `nextId`; no balance is
        negative. */
    ghost predicate Valid()
      reads this
    {
      NoOverlap(reservations) &&
      WellFormed(reservations) &&
      (forall i, j :: 0 <= i < j < |reservations| ==> reservations[i].id != reservations[j].id) &&
      (forall r :: r in reservations ==> r.id < nextId) &&
      (forall u :: u in loyaltyPoints ==> loyaltyPoints[u] >= 0)
    }

    constructor (balances: map<UserId, int>)
      requires forall u :: u in balances ==> balances[u] >= 0
      ensures Valid()
      ensures reservations == [] && loyaltyPoints == balances
    {
      reservations := [];
      loyaltyPoints := balances;
      nextId := 1;
    }

    /** Books [start, end) on `stationId` for `user`.  The checks run in the
        order below and the first that fails decides the answer; a refused
        request changes nothing. */
    method Create(user: UserId, stationId: int, start: Time, end: Time, notes: Option<string>,
                  stations: seq<Station>, now: Time)
      returns (outcome: Result<Reservation, ReservationError>)
      requires Valid()
      modifies this
      ensures Valid()
      ensures start >= end ==> outcome == Failure(InvalidInterval)
      ensures start < end && start < now ==> outcome == Failure(StartInPast)
      ensures start < end && now <= start && FindStation(stations, stationId).None? ==>
        outcome == Failure(StationNotFound)
      ensures start < end && now <= start && FindStation(stations, stationId).Some? &&
              InUseGuardTrips(old(reservations), stationId, start, now) ==>
        outcome == Failure(StationInUse)
      ensures start < end && now <= start && FindStation(stations, stationId).Some? &&
              !InUseGuardTrips(old(reservations), stationId, start, now) &&
              HasOverlap(old(reservations), stationId, start, end) ==>
        outcome.Failure? && outcome.error.SlotTaken? &&
        outcome.error.availableAfter == EarliestEndingConflict(old(reservations), stationId, start, end).value.endTime
      ensures start < end && now <= start && FindStation(stations, stationId).Some? &&
              !InUseGuardTrips(old(reservations), stationId, start, now) &&
              !HasOverlap(old(reservations), stationId, start, end) && user !in old(loyaltyPoints) ==>
        outcome == Failure(UnknownUser)
      ensures start < end && now <= start && FindStation(stations, stationId).Some? &&
              !InUseGuardTrips(old(reservations), stationId, start, now) &&
              !HasOverlap(old(reservations), stationId, start, end) && user in old(loyaltyPoints) ==>
        outcome.Success?
      ensures outcome.Failure? ==>
        reservations == old(reservations) && loyaltyPoints == old(loyaltyPoints) && nextId == old(nextId)
      ensures outcome.Success? ==>
        user in old(loyaltyPoints) && FindStation(stations, stationId).Some? &&
        var q := PriceQuote(end - start, FindStation(stations, stationId).value.hourlyRate, old(loyaltyPoints)[user]);
        outcome.value == Reservation(old(nextId), user, stationId, start, end, ReservationStatus.Confirmed,
                                     q.totalPrice, now, notes) &&
        reservations == old(reservations) + [outcome.value] &&
        loyaltyPoints == old(loyaltyPoints)[user := old(loyaltyPoints)[user] - q.pointsToDebit] &&
        nextId == old(nextId) + 1
    {
      if start >= end {
        return Failure(InvalidInterval);
      }
      if start < now {
        return Failure(StartInPast);
      }
      var station := FindStation(stations, stationId);
      if station.None? {
        return Failure(StationNotFound);
      }
      if CurrentlyInUse(reservations, stationId, now) && start <= now + InUseGraceMinutes {
        return Failure(StationInUse);
      }
      if HasOverlap(reservations, stationId, start, end) {
        var conflict := EarliestEndingConflict(reservations, stationId, start, end);
        return Failure(SlotTaken(conflict.value.endTime));
      }
      if user !in loyaltyPoints {
        return Failure(UnknownUser);
      }
      var quote := PriceQuote(end - start, station.value.hourlyRate, loyaltyPoints[user]);
      var reservation := Reservation(nextId, user, stationId, start, end, ReservationStatus.Confirmed,
                                     quote.totalPrice, now, notes);
      if quote.useFreeHours {
        loyaltyPoints := loyaltyPoints[user := loyaltyPoints[user] - FreeHoursCost];
      }
      NoOverlapAppend(reservations, reservation);
      reservations := reservations + [reservation];
      nextId := nextId + 1;
      return Success(reservation);
    }

    /** Cancels the caller's reservation `id`.  Only its status changes; no
        price or loyalty points are given back, so a second cancel fails. */
    method Cancel(user: UserId, id: int) returns (outcome: Result<(), ReservationError>)
      requires Valid()
      modifies this
      ensures Valid()
      ensures loyaltyPoints == old(loyaltyPoints) && nextId == old(nextId)
      ensures FindOwned(old(reservations), user, id).None? ==>
        outcome == Failure(ReservationNotFound) && reservations == old(reservations)
      ensures FindOwned(old(reservations), user, id).Some? ==>
        var k := FindOwned(old(reservations), user, id).value;
        var r := old(reservations)[k];
        if r.status.Completed? || r.status.Cancelled? then
          outcome == Failure(CannotCancel) && reservations == old(reservations)
        else
          outcome == Success(()) &&
          reservations == old(reservations)[k := r.(status := ReservationStatus.Cancelled)]
    {
      var found := FindOwned(reservations, user, id);
      if found.None? {
        return Failure(ReservationNotFound);
      }
      var k := found.value;
      var r := reservations[k];
      if r.status.Completed? || r.status.Cancelled? {
        return Failure(CannotCancel);
      }
      NoOverlapStatusChange(reservations, k, ReservationStatus.Cancelled);
      reservations := reservations[k := r.(status := ReservationStatus.Cancelled)];
      return Success(());
    }

    /** Completes the caller's reservation `id`, crediting ten points when the
        booked interval lasts two hours or more.  The award depends on the
        booked start and end, not on the time actually played. */
    method Complete(user: UserId, id: int) returns (outcome: Result<Completion, ReservationError>)
      requires Valid()
      modifies this
      ensures Valid()
      ensures nextId == old(nextId)
      ensures outcome.Failure? ==> reservations == old(reservations) && loyaltyPoints == old(loyaltyPoints)
      ensures FindOwned(old(reservations), user, id).None? ==> outcome == Failure(ReservationNotFound)
      ensures FindOwned(old(reservations), user, id).Some? ==>
        var k := FindOwned(old(reservations), user, id).value;
        var r := old(reservations)[k];
        if r.status.Completed? then outcome == Failure(AlreadyCompleted)
        else if r.status.Cancelled? then outcome == Failure(CannotCompleteCancelled)
        else if user !in old(loyaltyPoints) then outcome == Failure(UnknownUser)
        else
          var award := CompletionAward(r.endTime - r.startTime);
          outcome == Success(Completion(award, old(loyaltyPoints)[user] + award)) &&
          reservations == old(reservations)[k := r.(status := ReservationStatus.Completed)] &&
          loyaltyPoints == old(loyaltyPoints)[user := old(loyaltyPoints)[user] + award]
    {
      var found := FindOwned(reservations, user, id);
      if found.None? {
        return Failure(ReservationNotFound);
      }
      var k := found.value;
      var r := reservations[k];
      if r.status.Completed? {
        return Failure(AlreadyCompleted);
      }
      if r.status.Cancelled? {
        return Failure(CannotCompleteCancelled);
      }
      if user !in loyaltyPoints {
        return Failure(UnknownUser);
      }
      var pointsAwarded := 0;
      if r.endTime - r.startTime >= AwardThresholdMinutes {
        loyaltyPoints := loyaltyPoints[user := loyaltyPoints[user] + CompletionPoints];
        pointsAwarded := CompletionPoints;
      }
      NoOverlapStatusChange(reservations, k, ReservationStatus.Completed);
      reservations := reservations[k := r.(status := ReservationStatus.Completed)];
      return Success(Completion(pointsAwarded, loyaltyPoints[user]));
    }

    /** The caller's reservations that are not completed, latest start first. */
    function MyReservations(user: UserId): (mine: seq<Reservation>)
      reads this
      ensures forall r :: r in mine <==> r in reservations && r.userId == user && !r.status.Completed?
      ensures forall i, j :: 0 <= i < j < |mine| ==> mine[i].startTime >= mine[j].startTime
      ensures forall r :: multiset(mine)[r] == if r.userId == user && !r.status.Completed?
                                              then multiset(reservations)[r] else 0
    {
      var listed := (r: Reservation) => r.userId == user && !r.status.Completed?;
      var kept := Filter(reservations, listed);
      FilterCount(reservations, listed);
      var mine := SortBy(kept, (r: Reservation) => -r.startTime);
      assert forall r :: r in mine <==> r in kept by {
        forall r ensures r in mine <==> r in kept {
          assert r in mine <==> r in multiset(mine);
          assert r in kept <==> r in multiset(kept);
        }
      }
      mine
    }
  }

  /** Cancelling is final: once a cancel of `id` succeeds, cancelling it again
      is refused and changes nothing. */
  method CancelTwice(book: ReservationBook, user: UserId, id: int)
    returns (first: Result<(), ReservationError>, second: Result<(), ReservationError>)
    requires book.Valid()
    modifies book
    ensures book.Valid()
    ensures first.Success? ==> second == Failure(CannotCancel)
  {
    first := book.Cancel(user, id);
    ghost var afterFirst := book.reservations;
    second := book.Cancel(user, id);
    if first.Success? {
      var k := FindOwned(old(book.reservations), user, id).value;
      var k2 := FindOwned(afterFirst, user, id);
      assert afterFirst[k].id == id && afterFirst[k].userId == user;
      assert k2.Some? && k2.value == k;
    }
  }
}
