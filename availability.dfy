/** When a station is free: the half-open interval overlap test, the
    "currently in use" guard, the choice of the conflict reported to the
    customer, and the invariant they protect — no two non-cancelled
    reservations of one station share an instant. */
module Availability {
  import opened Models
  import opened Queries

  /** A booking that starts within this many minutes of now is refused while
      the station is in use. */
  const InUseGraceMinutes: int := 5

  /** `r` holds `stationId`: cancelled reservations never hold a station. */
  predicate Holds(r: Reservation, stationId: int) {
    r.stationId == stationId && !r.status.Cancelled?
  }

  /** `r` holds `stationId` during part of [start, end).  Intervals are
      half-open, so a reservation ending exactly at `start` does not overlap. */
  predicate Overlaps(r: Reservation, stationId: int, start: Time, end: Time) {
    Holds(r, stationId) && r.startTime < end && r.endTime > start
  }

  /** `r` holds `stationId` at the instant `now`. */
  predicate ActiveAt(r: Reservation, stationId: int, now: Time) {
    Holds(r, stationId) && r.startTime <= now && r.endTime > now
  }

  predicate HasOverlap(rs: seq<Reservation>, stationId: int, start: Time, end: Time) {
    exists r :: r in rs && Overlaps(r, stationId, start, end)
  }

  predicate CurrentlyInUse(rs: seq<Reservation>, stationId: int, now: Time) {
    exists r :: r in rs && ActiveAt(r, stationId, now)
  }

  /** The in-use guard: the station is held now and the requested start is no
      more than five minutes away. */
  predicate InUseGuardTrips(rs: seq<Reservation>, stationId: int, start: Time, now: Time) {
    CurrentlyInUse(rs, stationId, now) && start <= now + InUseGraceMinutes
  }

  /** The conflict shown to a refused customer: among the reservations
      overlapping [start, end), one that ends first. */
  function EarliestEndingConflict(rs: seq<Reservation>, stationId: int, start: Time, end: Time)
    : (c: Option<Reservation>)
    ensures c.Some? <==> HasOverlap(rs, stationId, start, end)
    ensures c.Some? ==> c.value in rs && Overlaps(c.value, stationId, start, end)
    ensures c.Some? ==> forall r :: r in rs && Overlaps(r, stationId, start, end) ==> c.value.endTime <= r.endTime
  {
    var conflicts := Filter(rs, (r: Reservation) => Overlaps(r, stationId, start, end));
    assert HasOverlap(rs, stationId, start, end) ==> conflicts != [] by {
      if HasOverlap(rs, stationId, start, end) {
        var r :| r in rs && Overlaps(r, stationId, start, end);
        assert r in conflicts;
      }
    }
    FirstMinBy(conflicts, (r: Reservation) => r.endTime)
  }

  /** Two reservations that both hold the same station at some instant. */
  predicate Clash(a: Reservation, b: Reservation) {
    Overlaps(a, b.stationId, b.startTime, b.endTime) && !b.status.Cancelled?
  }

  /** The reservation engine's central invariant. */
  ghost predicate NoOverlap(rs: seq<Reservation>) {
    forall i, j :: 0 <= i < j < |rs| ==> !Clash(rs[i], rs[j])
  }

  /** Every stored reservation has a non-empty interval. */
  ghost predicate WellFormed(rs: seq<Reservation>) {
    forall r :: r in rs ==> r.startTime < r.endTime
  }

  /** Storing a reservation that overlaps no stored one keeps the invariant. */
  lemma NoOverlapAppend(rs: seq<Reservation>, r: Reservation)
    requires NoOverlap(rs)
    requires !HasOverlap(rs, r.stationId, r.startTime, r.endTime)
    ensures NoOverlap(rs + [r])
  {
    var t := rs + [r];
    forall i, j | 0 <= i < j < |t| ensures !Clash(t[i], t[j]) {
      if j == |rs| {
        assert t[i] in rs && t[j] == r;
      } else {
        assert t[i] == rs[i] && t[j] == rs[j];
      }
    }
  }

  /** Changing one reservation's status keeps the invariant when the new status
      is Cancelled or the reservation was not cancelled before (a cancelled
      reservation is never revived). */
  lemma NoOverlapStatusChange(rs: seq<Reservation>, k: nat, st: ReservationStatus)
    requires NoOverlap(rs) && k < |rs|
    requires st.Cancelled? || !rs[k].status.Cancelled?
    ensures NoOverlap(rs[k := rs[k].(status := st)])
  {
    var t := rs[k := rs[k].(status := st)];
    forall i, j | 0 <= i < j < |t| ensures !Clash(t[i], t[j]) {
      assert !Clash(rs[i], rs[j]);
      if i == k || j == k {
        if !st.Cancelled? {
          assert Clash(t[i], t[j]) <==> Clash(rs[i], rs[j]);
        }
      }
    }
  }

  /** Under the invariant at most one reservation is active on a station at
      any instant, so the choice among active reservations never matters. */
  lemma ActiveIsUnique(rs: seq<Reservation>, stationId: int, now: Time, i: nat, j: nat)
    requires NoOverlap(rs) && i < |rs| && j < |rs|
    requires ActiveAt(rs[i], stationId, now) && ActiveAt(rs[j], stationId, now)
    ensures i == j
  {
    if i < j {
      assert Clash(rs[i], rs[j]);
    } else if j < i {
      assert Clash(rs[j], rs[i]);
    }
  }
}
