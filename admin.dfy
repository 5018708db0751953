/** The administrator's shop and user operations: opening a shop (which
    equips it with the default stations), adding the default stations to a
    shop that has none, and the listing of regular users. */
module Admin {
  import opened Models
  import opened Queries

  const PcStationCount: nat := 5
  const PlayStationCount: nat := 3
  const DefaultStationCount: nat := PcStationCount + PlayStationCount

  const PcSpecifications: string := "RTX 4070, Intel i7-13700K, 32GB RAM, 144Hz Monitor"
  const PlayStationSpecifications: string := "PlayStation 5, 4K TV, DualSense Controller"

  /** A PlayStation costs this much more per hour than the shop's rate. */
  const PlayStationSurcharge: Money := 1.0

  const PcNamePrefix: string := "PC Station "
  const PlayStationNamePrefix: string := "PlayStation 5 Station "

  const AdminRole: string := "Admin"
  const OwnerRole: string := "Owner"

  function DigitChar(d: nat): char
    requires d < 10
  {
    ('0' as int + d) as char
  }

  /** The decimal spelling of `n`, as string interpolation writes it. */
  function NumberText(n: nat): (t: string)
    ensures |t| >= 1
    ensures n < 10 ==> t == [DigitChar(n)]
  {
    if n < 10 then [DigitChar(n)] else NumberText(n / 10) + [DigitChar(n % 10)]
  }

  /** `s` is the `k`-th (counting from 0) default station of a shop: the
      first five are PCs at the shop's rate, the next three PlayStations at one
      more per hour; all are available, numbered from 1 within their kind. */
  predicate IsDefaultStation(s: Station, k: nat, shopId: int, rate: Money, firstId: int, now: Time) {
    s.id == firstId + k && s.status == Available && s.shopId == shopId && s.createdAt == now &&
    if k < PcStationCount then
      s.stationType == PC && s.name == PcNamePrefix + NumberText(k + 1) &&
      s.specifications == Some(PcSpecifications) && s.hourlyRate == rate
    else
      s.stationType == PlayStation && s.name == PlayStationNamePrefix + NumberText(k - PcStationCount + 1) &&
      s.specifications == Some(PlayStationSpecifications) && s.hourlyRate == rate + PlayStationSurcharge
  }

  /** The whole default equipment of a shop, in the order it is created. */
  predicate IsDefaultStationSet(stations: seq<Station>, shopId: int, rate: Money, firstId: int, now: Time) {
    |stations| == DefaultStationCount &&
    forall k :: 0 <= k < |stations| ==> IsDefaultStation(stations[k], k, shopId, rate, firstId, now)
  }

  /** Builds the default stations: five PCs, then three PlayStations. */
  method BuildDefaultStations(shopId: int, rate: Money, firstId: int, now: Time) returns (stations: seq<Station>)
    ensures IsDefaultStationSet(stations, shopId, rate, firstId, now)
  {
    stations := [];
    for i := 1 to PcStationCount + 1
      invariant |stations| == i - 1
      invariant forall k :: 0 <= k < |stations| ==> IsDefaultStation(stations[k], k, shopId, rate, firstId, now)
    {
      stations := stations + [Station(firstId + |stations|, PcNamePrefix + NumberText(i), PC, Available,
                                      shopId, Some(PcSpecifications), rate, now)];
    }
    for i := 1 to PlayStationCount + 1
      invariant |stations| == PcStationCount + i - 1
      invariant forall k :: 0 <= k < |stations| ==> IsDefaultStation(stations[k], k, shopId, rate, firstId, now)
    {
      stations := stations + [Station(firstId + |stations|, PlayStationNamePrefix + NumberText(i), PlayStation,
                                      Available, shopId, Some(PlayStationSpecifications),
                                      rate + PlayStationSurcharge, now)];
    }
  }

  /** No two default stations of a shop share a name or an id. */
  lemma DefaultStationsDistinct(stations: seq<Station>, shopId: int, rate: Money, firstId: int, now: Time)
    requires IsDefaultStationSet(stations, shopId, rate, firstId, now)
    ensures forall i, j :: 0 <= i < j < |stations| ==>
      stations[i].name != stations[j].name && stations[i].id != stations[j].id
  {
    forall i, j | 0 <= i < j < |stations|
      ensures stations[i].name != stations[j].name
    {
      var a, b := stations[i], stations[j];
      assert IsDefaultStation(a, i, shopId, rate, firstId, now);
      assert IsDefaultStation(b, j, shopId, rate, firstId, now);
      if j < PcStationCount {
        assert a.name[|PcNamePrefix|] == DigitChar(i + 1) != DigitChar(j + 1) == b.name[|PcNamePrefix|];
      } else if i < PcStationCount {
        assert a.name[1] == 'C' && b.name[1] == 'l';
      } else {
        var p := |PlayStationNamePrefix|;
        assert a.name[p] == DigitChar(i - PcStationCount + 1) != DigitChar(j - PcStationCount + 1) == b.name[p];
      }
    }
  }

  /** Every default station belongs to the shop, is available and is numbered
      in creation order. */
  lemma DefaultStationsOfShop(stations: seq<Station>, shopId: int, rate: Money, firstId: int, now: Time)
    requires IsDefaultStationSet(stations, shopId, rate, firstId, now)
    ensures forall k :: 0 <= k < |stations| ==>
      stations[k].shopId == shopId && stations[k].id == firstId + k && stations[k].status == Available
  {
    forall k | 0 <= k < |stations|
      ensures stations[k].shopId == shopId && stations[k].id == firstId + k && stations[k].status == Available
    {
      assert IsDefaultStation(stations[k], k, shopId, rate, firstId, now);
    }
  }

  /** What an administrator supplies for a new shop; an absent activity flag
      means active. */
  datatype ShopDraft = ShopDraft(
    name: string,
    address: string,
    city: string,
    country: string,
    phoneNumber: string,
    email: string,
    hourlyRate: Money,
    isActive: Option<bool>)

  datatype AdminError = ShopNotFound | ShopHasStations

  /** Each shop is stored under its id, below the next shop id; each station
      belongs to a stored shop; station ids are distinct and below the next
      station id. */
  ghost predicate CatalogInvariant(shops: map<int, Shop>, stations: seq<Station>, nextShopId: int, nextStationId: int) {
    (forall id :: id in shops ==> shops[id].id == id && id < nextShopId) &&
    (forall s :: s in stations ==> s.shopId in shops && s.id < nextStationId) &&
    (forall i, j :: 0 <= i < j < |stations| ==> stations[i].id != stations[j].id)
  }

  /** A new shop takes the next shop id, which no shop and no station uses. */
  lemma AddShopKeepsInvariant(shops: map<int, Shop>, stations: seq<Station>,
                                                nextShopId: int, nextStationId: int, shop: Shop)
    requires CatalogInvariant(shops, stations, nextShopId, nextStationId)
    requires shop.id == nextShopId
    ensures shop.id !in shops
    ensures forall s :: s in stations ==> s.shopId != shop.id
    ensures CatalogInvariant(shops[shop.id := shop], stations, nextShopId + 1, nextStationId)
  {
  }

  /** Appending default stations numbered from the next station id to a
      stored shop keeps the invariant. */
  lemma AppendDefaultKeepsInvariant(shops: map<int, Shop>, stations: seq<Station>,
                                                      nextShopId: int, nextStationId: int,
                                                      created: seq<Station>, shopId: int, rate: Money, now: Time)
    requires CatalogInvariant(shops, stations, nextShopId, nextStationId) && shopId in shops
    requires IsDefaultStationSet(created, shopId, rate, nextStationId, now)
    ensures CatalogInvariant(shops, stations + created, nextShopId, nextStationId + DefaultStationCount)
  {
    DefaultStationsOfShop(created, shopId, rate, nextStationId, now);
    var all := stations + created;
    var n := |stations|;
    forall i, j | 0 <= i < j < |all| ensures all[i].id != all[j].id {
      if j >= n {
        assert all[j] == created[j - n];
        if i < n {
          assert all[i] in stations;
        }
      }
    }
    forall s | s in all ensures s.shopId in shops && s.id < nextStationId + DefaultStationCount {
      if s !in stations {
        var k :| 0 <= k < |created| && created[k] == s;
      }
    }
  }

  /** The stations of shop `shopId`, in order. */
  function StationsOf(stations: seq<Station>, shopId: int): (own: seq<Station>)
    ensures forall s :: s in own <==> s in stations && s.shopId == shopId
  {
    Filter(stations, (s: Station) => s.shopId == shopId)
  }

  /** A shop with no stations that receives its default set has exactly
      those stations. */
  lemma OwnStationsAfterAppend(before: seq<Station>, created: seq<Station>, shopId: int,
                                                 rate: Money, firstId: int, now: Time)
    requires forall s :: s in before ==> s.shopId != shopId
    requires IsDefaultStationSet(created, shopId, rate, firstId, now)
    ensures StationsOf(before + created, shopId) == created
  {
    var own := (s: Station) => s.shopId == shopId;
    FilterConcat(before, created, own);
    FilterKeepsNone(before, own);
    DefaultStationsOfShop(created, shopId, rate, firstId, now);
    assert forall s :: s in created ==> own(s);
    FilterKeepsAll(created, own);
  }

  /** The shops together with every gaming station. */
  class ShopCatalog {
    var shops: map<int, Shop>
    var stations: seq<Station>
    var nextShopId: int
    var nextStationId: int

    ghost predicate Valid()
      reads this
    {
      CatalogInvariant(shops, stations, nextShopId, nextStationId)
    }

    constructor ()
      ensures Valid()
      ensures shops == map[] && stations == []
    {
      shops := map[];
      stations := [];
      nextShopId := 1;
      nextStationId := 1;
    }

    /** Opens a shop owned by `caller` and equips it with the default
        stations, which are then all the stations it has. */
    method CreateShop(draft: ShopDraft, caller: UserId, now: Time) returns (shop: Shop, created: seq<Station>)
      requires Valid()
      modifies this
      ensures Valid()
      ensures shop == Shop(old(nextShopId), draft.name, draft.address, draft.city, draft.country,
                           draft.phoneNumber, draft.email, draft.hourlyRate, draft.isActive.GetOr(true),
                           now, caller)
      ensures shop.id !in old(shops) && shops == old(shops)[shop.id := shop]
      ensures IsDefaultStationSet(created, shop.id, shop.hourlyRate, old(nextStationId), now)
      ensures stations == old(stations) + created
      ensures StationsOf(stations, shop.id) == created
      ensures nextShopId == old(nextShopId) + 1 && nextStationId == old(nextStationId) + DefaultStationCount
    {
      shop := Shop(nextShopId, draft.name, draft.address, draft.city, draft.country, draft.phoneNumber,
                   draft.email, draft.hourlyRate, draft.isActive.GetOr(true), now, caller);
      AddShopKeepsInvariant(shops, stations, nextShopId, nextStationId, shop);
      shops := shops[shop.id := shop];
      nextShopId := nextShopId + 1;
      created := BuildDefaultStations(shop.id, shop.hourlyRate, nextStationId, now);
      AppendDefaultKeepsInvariant(shops, stations, nextShopId, nextStationId, created, shop.id, shop.hourlyRate, now);
      OwnStationsAfterAppend(stations, created, shop.id, shop.hourlyRate, nextStationId, now);
      stations := stations + created;
      nextStationId := nextStationId + DefaultStationCount;
    }

    /** Gives the default stations to shop `shopId`, refused when the shop is
        unknown or already has a station. */
    method AddStationsToShop(shopId: int, now: Time) returns (outcome: Result<seq<Station>, AdminError>)
      requires Valid()
      modifies this
      ensures Valid()
      ensures shops == old(shops) && nextShopId == old(nextShopId)
      ensures shopId !in old(shops) ==> outcome == Failure(ShopNotFound)
      ensures shopId in old(shops) && StationsOf(old(stations), shopId) != [] ==> outcome == Failure(ShopHasStations)
      ensures shopId in old(shops) && StationsOf(old(stations), shopId) == [] ==> outcome.Success?
      ensures outcome.Failure? ==> stations == old(stations) && nextStationId == old(nextStationId)
      ensures outcome.Success? ==>
        shopId in old(shops) && StationsOf(old(stations), shopId) == [] &&
        IsDefaultStationSet(outcome.value, shopId, old(shops)[shopId].hourlyRate, old(nextStationId), now) &&
        stations == old(stations) + outcome.value &&
        StationsOf(stations, shopId) == outcome.value &&
        nextStationId == old(nextStationId) + DefaultStationCount
    {
      if shopId !in shops {
        return Failure(ShopNotFound);
      }
      if StationsOf(stations, shopId) != [] {
        return Failure(ShopHasStations);
      }
      var rate := shops[shopId].hourlyRate;
      var created := BuildDefaultStations(shopId, rate, nextStationId, now);
      AppendDefaultKeepsInvariant(shops, stations, nextShopId, nextStationId, created, shopId, rate, now);
      OwnStationsAfterAppend(stations, created, shopId, rate, nextStationId, now);
      stations := stations + created;
      nextStationId := nextStationId + DefaultStationCount;
      return Success(created);
    }
  }

  /** One row of the administrator's user listing. */
  datatype UserListing = UserListing(
    id: UserId,
    email: string,
    firstName: string,
    lastName: string,
    loyaltyPoints: int,
    createdAt: Time,
    roles: seq<string>)

  /** A user holding neither the administrator nor the owner role. */
  predicate IsRegularUser(u: User) {
    AdminRole !in u.roles && OwnerRole !in u.roles
  }

  /** The row of `u`; the owner role is hidden from the role list. */
  function ListingOf(u: User): UserListing {
    UserListing(u.id, u.email, u.firstName, u.lastName, u.loyaltyPoints, u.createdAt,
                Filter(u.roles, (r: string) => r != OwnerRole))
  }

  /** Only regular users are listed, so hiding the owner role never removes
      anything: every row shows the user's roles unchanged. */
  lemma ListedRolesUnchanged(u: User)
    requires IsRegularUser(u)
    ensures ListingOf(u).roles == u.roles
    ensures AdminRole !in ListingOf(u).roles && OwnerRole !in ListingOf(u).roles
  {
    FilterKeepsAll(u.roles, (r: string) => r != OwnerRole);
  }

  /** One more user extends the listing by that user's row exactly when the
      user is a regular one. */
  lemma ListingStep(users: seq<User>, i: nat)
    requires i < |users|
    ensures Select(Filter(users[..i + 1], IsRegularUser), ListingOf) ==
            Select(Filter(users[..i], IsRegularUser), ListingOf) +
            (if IsRegularUser(users[i]) then [ListingOf(users[i])] else [])
  {
    var user := users[i];
    assert users[..i + 1] == users[..i] + [user];
    FilterConcat(users[..i], [user], IsRegularUser);
    assert [user][1..] == [];
    if IsRegularUser(user) {
      assert Filter([user], IsRegularUser) == [user];
      SelectAppend(Filter(users[..i], IsRegularUser), user, ListingOf);
    } else {
      assert Filter([user], IsRegularUser) == [];
    }
  }

  /** The rows of the listing are exactly the rows of the regular users. */
  lemma ListingMembers(users: seq<User>)
    ensures forall l :: l in Select(Filter(users, IsRegularUser), ListingOf) <==>
      exists u :: u in users && IsRegularUser(u) && l == ListingOf(u)
  {
    var regular := Filter(users, IsRegularUser);
    forall l ensures l in Select(regular, ListingOf) <==> exists u :: u in users && IsRegularUser(u) && l == ListingOf(u)
    {
      if exists u :: u in users && IsRegularUser(u) && l == ListingOf(u) {
        var u :| u in users && IsRegularUser(u) && l == ListingOf(u);
        assert u in regular;
      }
    }
  }

  /** The administrator's user listing: a row per regular user, most recently
      created first. */
  method GetUsers(users: seq<User>) returns (listed: seq<UserListing>)
    ensures multiset(listed) == multiset(Select(Filter(users, IsRegularUser), ListingOf))
    ensures forall i, j :: 0 <= i < j < |listed| ==> listed[i].createdAt >= listed[j].createdAt
  {
    var rows: seq<UserListing> := [];
    for i := 0 to |users|
      invariant rows == Select(Filter(users[..i], IsRegularUser), ListingOf)
    {
      var user := users[i];
      ListingStep(users, i);
      if AdminRole in user.roles || OwnerRole in user.roles {
        continue;
      }
      rows := rows + [ListingOf(user)];
    }
    assert users[..|users|] == users;
    listed := SortBy(rows, (l: UserListing) => -l.createdAt);
  }
}
