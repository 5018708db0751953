/** The live status of gaming stations, as the two read-only station listings
    derive it from the reservations and the clock.  Both listings are
    functions of (stations, reservations, now, query), so asking twice with
    the same state gives the same answer; nothing here changes any state. */
module StationListings {
  import opened Models
  import opened Queries
  import opened Availability

  /** Length of the candidate window when the availability search omits an end. */
  const DefaultWindowMinutes: int := 120

  /** `r` holds `stationId` and has not started yet at `now`. */
  predicate UpcomingAt(r: Reservation, stationId: int, now: Time) {
    Holds(r, stationId) && r.startTime > now
  }

  predicate HasUpcoming(rs: seq<Reservation>, stationId: int, now: Time) {
    exists r :: r in rs && UpcomingAt(r, stationId, now)
  }

  /** Some upcoming reservation starts no later than `requestedStart`. */
  predicate UpcomingBy(rs: seq<Reservation>, stationId: int, now: Time, requestedStart: Time) {
    exists r :: r in rs && UpcomingAt(r, stationId, now) && r.startTime <= requestedStart
  }

  /** The active reservation: among those holding the station at `now`, one
      with the latest end. */
  function ActiveReservation(rs: seq<Reservation>, stationId: int, now: Time): (a: Option<Reservation>)
    ensures a.Some? <==> CurrentlyInUse(rs, stationId, now)
    ensures a.Some? ==> a.value in rs && ActiveAt(a.value, stationId, now)
    ensures a.Some? ==> forall r :: r in rs && ActiveAt(r, stationId, now) ==> r.endTime <= a.value.endTime
  {
    var active := Filter(rs, (r: Reservation) => ActiveAt(r, stationId, now));
    assert CurrentlyInUse(rs, stationId, now) ==> active != [] by {
      if CurrentlyInUse(rs, stationId, now) {
        var r :| r in rs && ActiveAt(r, stationId, now);
        assert r in active;
      }
    }
    FirstMinBy(active, (r: Reservation) => -r.endTime)
  }

  /** The upcoming reservation: among those not started at `now`, one with the
      earliest start. */
  function UpcomingReservation(rs: seq<Reservation>, stationId: int, now: Time): (u: Option<Reservation>)
    ensures u.Some? <==> HasUpcoming(rs, stationId, now)
    ensures u.Some? ==> u.value in rs && UpcomingAt(u.value, stationId, now)
    ensures u.Some? ==> forall r :: r in rs && UpcomingAt(r, stationId, now) ==> u.value.startTime <= r.startTime
  {
    var upcoming := Filter(rs, (r: Reservation) => UpcomingAt(r, stationId, now));
    assert HasUpcoming(rs, stationId, now) ==> upcoming != [] by {
      if HasUpcoming(rs, stationId, now) {
        var r :| r in rs && UpcomingAt(r, stationId, now);
        assert r in upcoming;
      }
    }
    FirstMinBy(upcoming, (r: Reservation) => r.startTime)
  }

  /** A derived status and the time the station is said to become free. */
  datatype LiveStatus = LiveStatus(status: StationStatus, nextAvailable: Option<Time>)

  /** The shop listing's rule: in use if some reservation holds the station now,
      otherwise reserved if one is upcoming, otherwise available.  It is said
      to become free when the earliest-starting upcoming reservation ends, or,
      with nothing upcoming, when the active one ends.  The stored status plays
      no part. */
  function ShopLiveStatus(rs: seq<Reservation>, stationId: int, now: Time): (v: LiveStatus)
    ensures v.status == InUse <==> CurrentlyInUse(rs, stationId, now)
    ensures v.status == Reserved <==> !CurrentlyInUse(rs, stationId, now) && HasUpcoming(rs, stationId, now)
    ensures v.status == Available <==> !CurrentlyInUse(rs, stationId, now) && !HasUpcoming(rs, stationId, now)
    ensures v.nextAvailable.None? <==> v.status == Available
    ensures v.nextAvailable.Some? ==>
      exists r :: r in rs && (ActiveAt(r, stationId, now) || UpcomingAt(r, stationId, now)) &&
                  r.endTime == v.nextAvailable.value
    ensures HasUpcoming(rs, stationId, now) ==>
      exists r :: r in rs && UpcomingAt(r, stationId, now) && v.nextAvailable == Some(r.endTime) &&
                  forall r' :: r' in rs && UpcomingAt(r', stationId, now) ==> r.startTime <= r'.startTime
    ensures CurrentlyInUse(rs, stationId, now) && !HasUpcoming(rs, stationId, now) ==>
      exists a :: a in rs && ActiveAt(a, stationId, now) && v.nextAvailable == Some(a.endTime) &&
                  forall r' :: r' in rs && ActiveAt(r', stationId, now) ==> r'.endTime <= a.endTime
  {
    var active := ActiveReservation(rs, stationId, now);
    var upcoming := UpcomingReservation(rs, stationId, now);
    if active.Some? then
      LiveStatus(InUse, Some(if upcoming.Some? then upcoming.value.endTime else active.value.endTime))
    else if upcoming.Some? then
      LiveStatus(Reserved, Some(upcoming.value.endTime))
    else
      LiveStatus(Available, None)
  }

  /** Any two distinct stored reservations do not clash, in either order. */
  lemma NoClashBetween(rs: seq<Reservation>, a: Reservation, b: Reservation)
    requires NoOverlap(rs) && a in rs && b in rs && a != b
    ensures !Clash(a, b) && !Clash(b, a)
  {
    var i :| 0 <= i < |rs| && rs[i] == a;
    var j :| 0 <= j < |rs| && rs[j] == b;
    if i < j {
      assert !Clash(rs[i], rs[j]);
    } else {
      assert !Clash(rs[j], rs[i]);
    }
  }

  /** While a station is in use, the time the shop listing reports is never
      before the active reservation ends: with the invariant, an upcoming
      reservation begins only after the active one ends. */
  lemma InUseNextAvailableNotEarly(rs: seq<Reservation>, stationId: int, now: Time)
    requires NoOverlap(rs) && WellFormed(rs)
    ensures var v := ShopLiveStatus(rs, stationId, now);
      v.status == InUse ==>
        v.nextAvailable.Some? &&
        forall r :: r in rs && ActiveAt(r, stationId, now) ==> r.endTime <= v.nextAvailable.value
  {
    var v := ShopLiveStatus(rs, stationId, now);
    var active := ActiveReservation(rs, stationId, now);
    var upcoming := UpcomingReservation(rs, stationId, now);
    if v.status == InUse && upcoming.Some? {
      var u := upcoming.value;
      forall r | r in rs && ActiveAt(r, stationId, now) ensures r.endTime <= u.endTime {
        NoClashBetween(rs, r, u);
        assert u.startTime < u.endTime;
      }
    }
  }

  /** With well-formed reservations the reported next-free time lies in the
      future. */
  lemma NextAvailableInFuture(rs: seq<Reservation>, stationId: int, now: Time)
    requires WellFormed(rs)
    ensures var v := ShopLiveStatus(rs, stationId, now);
      v.nextAvailable.Some? ==> v.nextAvailable.value > now
  {
    var v := ShopLiveStatus(rs, stationId, now);
    if v.nextAvailable.Some? {
      var r :| r in rs && (ActiveAt(r, stationId, now) || UpcomingAt(r, stationId, now)) &&
               r.endTime == v.nextAvailable.value;
      assert r.startTime < r.endTime;
    }
  }

  /** One row of the shop listing. */
  datatype StationListing = StationListing(
    id: int,
    name: string,
    stationType: StationType,
    status: StationStatus,
    hourlyRate: Money,
    specifications: Option<string>,
    nextAvailable: Option<Time>)

  predicate ListedInShop(s: Station, shopId: int) {
    s.shopId == shopId && !s.status.Maintenance?
  }

  function ShopRow(s: Station, rs: seq<Reservation>, now: Time): StationListing {
    var live := ShopLiveStatus(rs, s.id, now);
    StationListing(s.id, s.name, s.stationType, live.status, s.hourlyRate, s.specifications, live.nextAvailable)
  }

  /** The shop listing: exactly one row per station of the shop that is not
      under maintenance, with its derived status; maintenance is never shown. */
  function GetStationsByShop(stations: seq<Station>, rs: seq<Reservation>, shopId: int, now: Time)
    : (out: seq<StationListing>)
    ensures |out| <= |stations|
    ensures |out| == |Filter(stations, (s: Station) => ListedInShop(s, shopId))|
    ensures forall v :: v in out ==> exists s :: s in stations && ListedInShop(s, shopId) && v == ShopRow(s, rs, now)
    ensures forall s :: s in stations && ListedInShop(s, shopId) ==> ShopRow(s, rs, now) in out
    ensures forall v :: v in out ==> !v.status.Maintenance?
  {
    var shown := Filter(stations, (s: Station) => ListedInShop(s, shopId));
    Select(shown, (s: Station) => ShopRow(s, rs, now))
  }

  /** Whether [start, end) is free on the station: it meets no reservation
      that holds the station, touching endpoints allowed. */
  function AvailableFor(rs: seq<Reservation>, stationId: int, start: Time, end: Time): (b: bool)
    ensures b <==> forall r :: r in rs && Holds(r, stationId) ==> r.endTime <= start || r.startTime >= end
  {
    !HasOverlap(rs, stationId, start, end)
  }

  /** The availability search's status rule, first match wins: an active
      reservation; a stored InUse; an upcoming reservation starting no later
      than the requested start; a stored Reserved; otherwise available. */
  function SearchStatus(s: Station, rs: seq<Reservation>, requestedStart: Time, now: Time): (v: LiveStatus)
    ensures CurrentlyInUse(rs, s.id, now) ==>
      v.status == InUse && v.nextAvailable.Some? &&
      (exists r :: r in rs && ActiveAt(r, s.id, now) && r.endTime == v.nextAvailable.value) &&
      forall r :: r in rs && ActiveAt(r, s.id, now) ==> r.endTime <= v.nextAvailable.value
    ensures !CurrentlyInUse(rs, s.id, now) && s.status == InUse ==> v == LiveStatus(InUse, None)
    ensures !CurrentlyInUse(rs, s.id, now) && s.status != InUse && UpcomingBy(rs, s.id, now, requestedStart) ==>
      v.status == Reserved &&
      exists r :: r in rs && UpcomingAt(r, s.id, now) && r.startTime <= requestedStart &&
                  v.nextAvailable == Some(r.endTime) &&
                  forall r' :: r' in rs && UpcomingAt(r', s.id, now) ==> r.startTime <= r'.startTime
    ensures !CurrentlyInUse(rs, s.id, now) && s.status != InUse && !UpcomingBy(rs, s.id, now, requestedStart) ==>
      v == LiveStatus(if s.status == Reserved then Reserved else Available, None)
  {
    var active := ActiveReservation(rs, s.id, now);
    var upcoming := UpcomingReservation(rs, s.id, now);
    if active.Some? then
      LiveStatus(InUse, Some(active.value.endTime))
    else if s.status == InUse then
      LiveStatus(InUse, None)
    else if upcoming.Some? && upcoming.value.startTime <= requestedStart then
      LiveStatus(Reserved, Some(upcoming.value.endTime))
    else if s.status == Reserved then
      LiveStatus(Reserved, None)
    else
      LiveStatus(Available, None)
  }

  /** When the search gives no start, the requested start is `now`, which no
      upcoming reservation can precede: a station then shows Reserved only
      when its stored status says so. */
  lemma DefaultStartNeverReservedByUpcoming(s: Station, rs: seq<Reservation>, now: Time)
    ensures SearchStatus(s, rs, now, now).status == Reserved ==> s.status == Reserved
  {
    assert !UpcomingBy(rs, s.id, now, now);
  }

  /** One row of the availability search.  The shop is given by id. */
  datatype AvailabilityListing = AvailabilityListing(
    id: int,
    name: string,
    stationType: StationType,
    hourlyRate: Money,
    specifications: Option<string>,
    shopId: int,
    isAvailable: bool,
    nextAvailable: Option<Time>,
    currentStatus: StationStatus)

  /** Stations the search considers: not under maintenance, and of the shop
      and the type asked for when these are given. */
  predicate Searchable(s: Station, shopId: Option<int>, stationType: Option<StationType>) {
    !s.status.Maintenance? &&
    (shopId.Some? ==> s.shopId == shopId.value) &&
    (stationType.Some? ==> s.stationType == stationType.value)
  }

  function SearchRow(s: Station, rs: seq<Reservation>, requestedStart: Time, requestedEnd: Time, now: Time)
    : AvailabilityListing
  {
    var live := SearchStatus(s, rs, requestedStart, now);
    AvailabilityListing(s.id, s.name, s.stationType, s.hourlyRate, s.specifications, s.shopId,
                        AvailableFor(rs, s.id, requestedStart, requestedEnd), live.nextAvailable, live.status)
  }

  /** The availability search over the candidate window [startTime, endTime),
      which defaults to [now, now + 2h) piecewise. */
  function GetAvailableStations(stations: seq<Station>, rs: seq<Reservation>, shopId: Option<int>,
                                stationType: Option<StationType>, startTime: Option<Time>,
                                endTime: Option<Time>, now: Time)
    : (out: seq<AvailabilityListing>)
    ensures |out| <= |stations|
    ensures |out| == |Filter(stations, (s: Station) => Searchable(s, shopId, stationType))|
    ensures forall v :: v in out ==>
      exists s :: s in stations && Searchable(s, shopId, stationType) &&
                  v == SearchRow(s, rs, startTime.GetOr(now), endTime.GetOr(now + DefaultWindowMinutes), now)
    ensures forall s :: s in stations && Searchable(s, shopId, stationType) ==>
      SearchRow(s, rs, startTime.GetOr(now), endTime.GetOr(now + DefaultWindowMinutes), now) in out
    ensures forall v :: v in out ==>
      (v.isAvailable <==> !HasOverlap(rs, v.id, startTime.GetOr(now), endTime.GetOr(now + DefaultWindowMinutes)))
  {
    var requestedStart := startTime.GetOr(now);
    var requestedEnd := endTime.GetOr(now + DefaultWindowMinutes);
    var shown := Filter(stations, (s: Station) => Searchable(s, shopId, stationType));
    Select(shown, (s: Station) => SearchRow(s, rs, requestedStart, requestedEnd, now))
  }
}
