/** Tournaments: the public listing with its optional status filter,
    registration (a guarded increment of the participant count), a user's own
    registrations, and the administrator's creation and deletion of
    tournaments. */
module Tournaments {
  import opened Models
  import opened Queries

  datatype TournamentError =
    | TournamentNotFound
    | RegistrationNotOpen
    | TournamentFull
    | DeadlinePassed
    | AlreadyRegistered
    | DeadlineNotBeforeStart
    | DeadlineInPast
    | StartDateInPast
    | ShopNotFound

  /** The name of each status, as the enumeration spells it. */
  function StatusName(s: TournamentStatus): string {
    match s
    case Upcoming => "Upcoming"
    case RegistrationOpen => "RegistrationOpen"
    case InProgress => "InProgress"
    case Completed => "Completed"
    case Cancelled => "Cancelled"
  }

  function LowerChar(c: char): char {
    if 'A' <= c <= 'Z' then (c as int - 'A' as int + 'a' as int) as char else c
  }

  function Lower(s: string): (r: string)
    ensures |r| == |s|
  {
    seq(|s|, i requires 0 <= i < |s| => LowerChar(s[i]))
  }

  /** The status filter of the listing: absent or empty text means no filter;
      otherwise the status whose name equals the text ignoring (ASCII) case,
      and no filter when no name matches. */
  function ParseStatus(query: Option<string>): (r: Option<TournamentStatus>)
    ensures r.Some? ==> query.Some? && Lower(query.value) == Lower(StatusName(r.value))
    ensures r.None? ==> query.None? || forall st :: Lower(query.value) != Lower(StatusName(st))
  {
    if query.None? || query.value == "" then None
    else
      var q := Lower(query.value);
      if q == Lower("Upcoming") then Some(Upcoming)
      else if q == Lower("RegistrationOpen") then Some(RegistrationOpen)
      else if q == Lower("InProgress") then Some(InProgress)
      else if q == Lower("Completed") then Some(TournamentStatus.Completed)
      else if q == Lower("Cancelled") then Some(TournamentStatus.Cancelled)
      else None
  }

  /** Any spelling of a status name, in any mix of upper and lower case,
      selects that status. */
  lemma ParseIgnoresCase(q: string, st: TournamentStatus)
    requires Lower(q) == Lower(StatusName(st))
    ensures ParseStatus(Some(q)) == Some(st)
  {
    assert Lower("Completed")[1] == 'o' && Lower("Cancelled")[1] == 'a';
    assert |q| == |StatusName(st)| > 0;
  }

  /** The public listing: the tournaments whose status is the one named by the
      filter (all of them when the filter names none), earliest start first. */
  function GetTournaments(ts: seq<Tournament>, status: Option<string>): (out: seq<Tournament>)
    ensures forall t :: t in out <==> t in ts && (ParseStatus(status).Some? ==> t.status == ParseStatus(status).value)
    ensures forall i, j :: 0 <= i < j < |out| ==> out[i].startDate <= out[j].startDate
    ensures ParseStatus(status).None? ==> multiset(out) == multiset(ts)
    ensures ParseStatus(status).Some? ==>
      forall t :: multiset(out)[t] == if t.status == ParseStatus(status).value then multiset(ts)[t] else 0
  {
    var filter := ParseStatus(status);
    var chosen := (t: Tournament) => filter.Some? && t.status == filter.value;
    FilterCount(ts, chosen);
    var kept := if filter.Some? then Filter(ts, chosen) else ts;
    var out := SortBy(kept, (t: Tournament) => t.startDate);
    assert forall t :: t in out <==> t in kept by {
      forall t ensures t in out <==> t in kept {
        assert t in out <==> t in multiset(out);
        assert t in kept <==> t in multiset(kept);
      }
    }
    out
  }

  /** Registrations counted against `tid` (every registration is counted, as
      each successful registration increments the count once). */
  function Entrants(regs: seq<Registration>, tid: int): nat {
    if regs == [] then 0
    else (if regs[0].tournamentId == tid then 1 else 0) + Entrants(regs[1..], tid)
  }

  lemma {:induction false} EntrantsAppend(regs: seq<Registration>, g: Registration, tid: int)
    ensures Entrants(regs + [g], tid) == Entrants(regs, tid) + (if g.tournamentId == tid then 1 else 0)
  {
    if regs != [] {
      assert (regs + [g])[1..] == regs[1..] + [g];
      EntrantsAppend(regs[1..], g, tid);
    }
  }

  lemma {:induction false} EntrantsNone(regs: seq<Registration>, tid: int)
    requires forall g :: g in regs ==> g.tournamentId != tid
    ensures Entrants(regs, tid) == 0
  {
    if regs != [] {
      assert regs[0] in regs;
      EntrantsNone(regs[1..], tid);
    }
  }

  /** The registrations that do not belong to `tid`, in order. */
  function RemoveTournament(regs: seq<Registration>, tid: int): (r: seq<Registration>)
    ensures forall g :: g in r <==> g in regs && g.tournamentId != tid
  {
    Filter(regs, (g: Registration) => g.tournamentId != tid)
  }

  /** Removing one tournament's registrations leaves every other count as it
      was and leaves none for that tournament. */
  lemma {:induction false} EntrantsAfterRemoval(regs: seq<Registration>, tid: int, other: int)
    ensures Entrants(RemoveTournament(regs, tid), other) == if other == tid then 0 else Entrants(regs, other)
  {
    if regs != [] {
      EntrantsAfterRemoval(regs[1..], tid, other);
      var head := if regs[0].tournamentId != tid then [regs[0]] else [];
      EntrantsConcat(head, RemoveTournament(regs[1..], tid), other);
    }
  }

  lemma {:induction false} EntrantsConcat(a: seq<Registration>, b: seq<Registration>, tid: int)
    ensures Entrants(a + b, tid) == Entrants(a, tid) + Entrants(b, tid)
  {
    if a != [] {
      assert (a + b)[1..] == a[1..] + b;
      EntrantsConcat(a[1..], b, tid);
    } else {
      assert a + b == b;
    }
  }

  /** Two registrations of the same user for the same tournament, neither
      cancelled. */
  predicate Duplicate(a: Registration, b: Registration) {
    a.tournamentId == b.tournamentId && a.userId == b.userId &&
    !a.status.Cancelled? && !b.status.Cancelled?
  }

  /** At most one non-cancelled registration per (user, tournament). */
  ghost predicate SingleActiveRegistration(regs: seq<Registration>) {
    forall i, j :: 0 <= i < j < |regs| ==> !Duplicate(regs[i], regs[j])
  }

  lemma {:induction false} RemovalKeepsSingleActive(regs: seq<Registration>, tid: int)
    requires SingleActiveRegistration(regs)
    ensures SingleActiveRegistration(RemoveTournament(regs, tid))
  {
    if regs != [] {
      var tail := regs[1..];
      assert SingleActiveRegistration(tail) by {
        forall i, j | 0 <= i < j < |tail| ensures !Duplicate(tail[i], tail[j]) {
          assert tail[i] == regs[i + 1] && tail[j] == regs[j + 1];
        }
      }
      RemovalKeepsSingleActive(tail, tid);
      var rest := RemoveTournament(tail, tid);
      if regs[0].tournamentId != tid {
        var r := [regs[0]] + rest;
        forall i, j | 0 <= i < j < |r| ensures !Duplicate(r[i], r[j]) {
          if i == 0 {
            assert r[j] in rest;
            assert r[j] in tail;
            var m :| 0 <= m < |tail| && tail[m] == r[j];
            assert regs[m + 1] == r[j];
          } else {
            assert r[i] == rest[i - 1] && r[j] == rest[j - 1];
          }
        }
      }
    }
  }

  /** `user` holds a non-cancelled registration for `tid`. */
  predicate IsRegistered(regs: seq<Registration>, user: UserId, tid: int) {
    exists g :: g in regs && g.tournamentId == tid && g.userId == user && !g.status.Cancelled?
  }

  /** Capacity: a tournament never has more participants than its maximum;
      one created with a maximum of zero or less stays empty. */
  predicate WithinCapacity(t: Tournament) {
    t.currentParticipants == 0 || t.currentParticipants <= t.maxParticipants
  }

  /** What an administrator supplies for a new tournament. */
  datatype TournamentDraft = TournamentDraft(
    name: string,
    game: string,
    description: string,
    shopId: int,
    startDate: Time,
    registrationDeadline: Time,
    maxParticipants: int,
    entryFee: Money,
    prizePool: Money,
    imageUrl: Option<string>)

  /** The date and shop checks of tournament creation, first failure wins. */
  function ScheduleError(draft: TournamentDraft, shops: set<int>, now: Time): (e: Option<TournamentError>)
    ensures e.None? <==> now <= draft.registrationDeadline < draft.startDate && draft.shopId in shops
    ensures e != Some(StartDateInPast)
    ensures draft.registrationDeadline >= draft.startDate ==> e == Some(DeadlineNotBeforeStart)
    ensures draft.registrationDeadline < draft.startDate && draft.registrationDeadline < now ==>
      e == Some(DeadlineInPast)
    ensures now <= draft.registrationDeadline < draft.startDate && draft.shopId !in shops ==>
      e == Some(ShopNotFound)
  {
    if draft.registrationDeadline >= draft.startDate then Some(DeadlineNotBeforeStart)
    else if draft.registrationDeadline < now then Some(DeadlineInPast)
    else if draft.startDate < now then Some(StartDateInPast)
    else if draft.shopId !in shops then Some(ShopNotFound)
    else None
  }

  /** The tournaments with their registrations. */
  class TournamentBoard {
    var tournaments: map<int, Tournament>
    var registrations: seq<Registration>
    var nextTournamentId: int
    var nextRegistrationId: int
    /** For each tournament, the participants it counts without a stored
        registration: those it already had when the board was set up (the
        application starts with tournaments that are partly full), and none
        for a tournament created later. */
    ghost var preRegistered: map<int, int>

    /** Each tournament is stored under its id, counts its initial
        participants plus exactly its registrations and respects its
        capacity; each registration refers to a stored tournament; no user
        holds two live registrations for one tournament. */
    ghost predicate Valid()
      reads this
    {
      (forall id :: id in tournaments ==>
         tournaments[id].id == id && id < nextTournamentId &&
         id in preRegistered && preRegistered[id] >= 0 &&
         tournaments[id].currentParticipants == preRegistered[id] + Entrants(registrations, id) &&
         WithinCapacity(tournaments[id])) &&
      (forall g :: g in registrations ==> g.tournamentId in tournaments) &&
      SingleActiveRegistration(registrations)
    }

    /** A board holding the tournaments `initial`, which may already count
        participants, and no registrations yet. */
    constructor (initial: map<int, Tournament>, nextId: int)
      requires forall id :: id in initial ==>
        initial[id].id == id && id < nextId && initial[id].currentParticipants >= 0 && WithinCapacity(initial[id])
      ensures Valid()
      ensures tournaments == initial && registrations == []
      ensures nextTournamentId == nextId && nextRegistrationId == 1
    {
      tournaments := initial;
      registrations := [];
      nextTournamentId := nextId;
      nextRegistrationId := 1;
      preRegistered := map id | id in initial :: initial[id].currentParticipants;
    }

    /** Registers `user` for tournament `id`.  The checks run in the order
        below and the first that fails decides the answer; a refused request
        changes nothing.  A deadline equal to `now` still admits. */
    method Register(user: UserId, id: int, now: Time) returns (outcome: Result<Registration, TournamentError>)
      requires Valid()
      modifies this
      ensures Valid()
      ensures nextTournamentId == old(nextTournamentId) && preRegistered == old(preRegistered)
      ensures id !in old(tournaments) ==> outcome == Failure(TournamentNotFound)
      ensures id in old(tournaments) ==>
        var t := old(tournaments)[id];
        (t.status != RegistrationOpen ==> outcome == Failure(RegistrationNotOpen)) &&
        (t.status == RegistrationOpen && t.currentParticipants >= t.maxParticipants ==>
           outcome == Failure(TournamentFull)) &&
        (t.status == RegistrationOpen && t.currentParticipants < t.maxParticipants &&
         now > t.registrationDeadline ==>
           outcome == Failure(DeadlinePassed)) &&
        (t.status == RegistrationOpen && t.currentParticipants < t.maxParticipants &&
         now <= t.registrationDeadline && IsRegistered(old(registrations), user, id) ==>
           outcome == Failure(AlreadyRegistered)) &&
        (t.status == RegistrationOpen && t.currentParticipants < t.maxParticipants &&
         now <= t.registrationDeadline && !IsRegistered(old(registrations), user, id) ==>
           outcome.Success?)
      ensures outcome.Failure? ==>
        tournaments == old(tournaments) && registrations == old(registrations) &&
        nextRegistrationId == old(nextRegistrationId)
      ensures outcome.Success? ==>
        id in old(tournaments) &&
        var t := old(tournaments)[id];
        outcome.value == Registration(old(nextRegistrationId), id, user, RegistrationStatus.Confirmed, now,
                                      Some(t.entryFee)) &&
        registrations == old(registrations) + [outcome.value] &&
        tournaments == old(tournaments)[id := t.(currentParticipants := t.currentParticipants + 1)] &&
        t.currentParticipants + 1 <= t.maxParticipants &&
        nextRegistrationId == old(nextRegistrationId) + 1
    {
      if id !in tournaments {
        return Failure(TournamentNotFound);
      }
      var t := tournaments[id];
      if t.status != RegistrationOpen {
        return Failure(RegistrationNotOpen);
      }
      if t.currentParticipants >= t.maxParticipants {
        return Failure(TournamentFull);
      }
      if now > t.registrationDeadline {
        return Failure(DeadlinePassed);
      }
      if IsRegistered(registrations, user, id) {
        return Failure(AlreadyRegistered);
      }
      var registration := Registration(nextRegistrationId, id, user, RegistrationStatus.Confirmed, now,
                                       Some(t.entryFee));
      forall tid | tid in tournaments
        ensures Entrants(registrations + [registration], tid) ==
                Entrants(registrations, tid) + (if tid == id then 1 else 0)
      {
        EntrantsAppend(registrations, registration, tid);
      }
      assert SingleActiveRegistration(registrations + [registration]) by {
        var r := registrations + [registration];
        forall i, j | 0 <= i < j < |r| ensures !Duplicate(r[i], r[j]) {
          if j == |registrations| {
            assert r[i] in registrations;
          } else {
            assert r[i] == registrations[i] && r[j] == registrations[j];
          }
        }
      }
      tournaments := tournaments[id := t.(currentParticipants := t.currentParticipants + 1)];
      registrations := registrations + [registration];
      nextRegistrationId := nextRegistrationId + 1;
      return Success(registration);
    }

    /** Every registration of `user`, whatever its status. */
    function MyRegistrations(user: UserId): (mine: seq<Registration>)
      reads this
      ensures forall g :: g in mine <==> g in registrations && g.userId == user
      ensures forall g :: multiset(mine)[g] == if g.userId == user then multiset(registrations)[g] else 0
    {
      var own := (g: Registration) => g.userId == user;
      FilterCount(registrations, own);
      Filter(registrations, own)
    }

    /** Creates a tournament after the date and shop checks.  It opens for
        registration at once, with no participants; the image is the given
        URL when one is given. */
    method CreateTournament(draft: TournamentDraft, shops: set<int>, now: Time)
      returns (outcome: Result<Tournament, TournamentError>)
      requires Valid()
      modifies this
      ensures Valid()
      ensures registrations == old(registrations) && nextRegistrationId == old(nextRegistrationId)
      ensures ScheduleError(draft, shops, now).Some? ==>
        outcome == Failure(ScheduleError(draft, shops, now).value) &&
        tournaments == old(tournaments) && nextTournamentId == old(nextTournamentId) &&
        preRegistered == old(preRegistered)
      ensures ScheduleError(draft, shops, now).None? ==>
        outcome == Success(Tournament(old(nextTournamentId), draft.name, draft.game, draft.description,
                                      draft.shopId, draft.startDate, draft.registrationDeadline,
                                      draft.maxParticipants, 0, draft.entryFee, draft.prizePool,
                                      RegistrationOpen,
                                      if draft.imageUrl.Some? && draft.imageUrl.value != "" then draft.imageUrl else None,
                                      now)) &&
        tournaments == old(tournaments)[outcome.value.id := outcome.value] &&
        preRegistered == old(preRegistered)[outcome.value.id := 0] &&
        nextTournamentId == old(nextTournamentId) + 1
    {
      var error := ScheduleError(draft, shops, now);
      if error.Some? {
        return Failure(error.value);
      }
      var imageUrl := if draft.imageUrl.Some? && draft.imageUrl.value != "" then draft.imageUrl else None;
      var t := Tournament(nextTournamentId, draft.name, draft.game, draft.description, draft.shopId,
                          draft.startDate, draft.registrationDeadline, draft.maxParticipants, 0,
                          draft.entryFee, draft.prizePool, RegistrationOpen, imageUrl, now);
      EntrantsNone(registrations, t.id);
      tournaments := tournaments[t.id := t];
      preRegistered := preRegistered[t.id := 0];
      nextTournamentId := nextTournamentId + 1;
      return Success(t);
    }

    /** Deletes tournament `id` together with all of its registrations. */
    method DeleteTournament(id: int) returns (outcome: Result<(), TournamentError>)
      requires Valid()
      modifies this
      ensures Valid()
      ensures nextTournamentId == old(nextTournamentId) && nextRegistrationId == old(nextRegistrationId)
      ensures preRegistered == old(preRegistered)
      ensures id !in old(tournaments) ==>
        outcome == Failure(TournamentNotFound) &&
        tournaments == old(tournaments) && registrations == old(registrations)
      ensures id in old(tournaments) ==>
        outcome == Success(()) &&
        tournaments == old(tournaments) - {id} &&
        registrations == RemoveTournament(old(registrations), id)
    {
      if id !in tournaments {
        return Failure(TournamentNotFound);
      }
      forall tid | tid in tournaments
        ensures Entrants(RemoveTournament(registrations, id), tid) ==
                if tid == id then 0 else Entrants(registrations, tid)
      {
        EntrantsAfterRemoval(registrations, id, tid);
      }
      RemovalKeepsSingleActive(registrations, id);
      registrations := RemoveTournament(registrations, id);
      tournaments := tournaments - {id};
      return Success(());
    }
  }

  /** A board set up with an open tournament that already counts participants
      but has free places admits a registration before its deadline. */
  method RegisterForPrefilled(t: Tournament, user: UserId, now: Time)
    returns (outcome: Result<Registration, TournamentError>)
    requires t.status == RegistrationOpen && 0 <= t.currentParticipants < t.maxParticipants
    requires now <= t.registrationDeadline
    ensures outcome.Success? && outcome.value.tournamentId == t.id && outcome.value.userId == user
  {
    var board := new TournamentBoard(map[t.id := t], t.id + 1);
    outcome := board.Register(user, t.id, now);
  }

  /** A user cannot register twice: once a registration succeeds, the same
      request is refused and changes nothing. */
  method RegisterTwice(board: TournamentBoard, user: UserId, id: int, now: Time)
    returns (first: Result<Registration, TournamentError>, second: Result<Registration, TournamentError>)
    requires board.Valid()
    modifies board
    ensures board.Valid()
    ensures first.Success? ==> second.Failure?
  {
    first := board.Register(user, id, now);
    if first.Success? {
      assert first.value in board.registrations;
      assert IsRegistered(board.registrations, user, id);
    }
    second := board.Register(user, id, now);
  }
}
