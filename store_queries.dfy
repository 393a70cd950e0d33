/** The read side of the stores service: listing with search, single store, aggregates and count. */
module StoreQueries {
  import opened Common
  import opened Seqs
  import opened Paging
  import opened Entities
  import opened Text
  import UserQueries

  /** `GET /stores` query. `sortBy` and `sortOrder` are accepted and then ignored by the service. */
  datatype StoreListQuery = StoreListQuery(page: Option<Pos>, limit: Option<Pos>, search: Option<string>,
                                           sortBy: Option<string>, sortOrder: Option<SortOrder>)

  function PagingOf(q: StoreListQuery): PageQuery { PageQuery(q.page, q.limit) }

  /** `if (search)`: an absent or empty term applies no filter. */
  function ActiveSearch(search: Option<string>): Option<string>
  {
    if search.Some? && search.value != "" then search else None
  }

  /** `store.name ILIKE :search OR store.address ILIKE :search`; a null address matches nothing. */
  predicate StoreMatches(s: Store, search: Option<string>)
  {
    match ActiveSearch(search)
    case None => true
    case Some(t) => ILike(s.name, t) || (s.address.Some? && ILike(s.address.value, t))
  }

  function MatchingStores(stores: seq<Store>, search: Option<string>): seq<Store>
  {
    Filter(stores, (s: Store) => StoreMatches(s, search))
  }

  /** A store is kept iff the lower-cased term occurs somewhere in its lower-cased name or address. */
  lemma StoreMatchesIff(s: Store, t: string)
    requires t != ""
    ensures StoreMatches(s, Some(t)) <==>
      (exists k :: OccursAt(Lower(s.name), Lower(t), k)) ||
      (s.address.Some? && exists k :: OccursAt(Lower(s.address.value), Lower(t), k))
  {
    ContainsIff(Lower(s.name), Lower(t));
    if s.address.Some? {
      ContainsIff(Lower(s.address.value), Lower(t));
    }
  }

  /** Without a search term every store is listed. */
  lemma NoSearchKeepsAll(stores: seq<Store>, search: Option<string>)
    requires search.None? || search == Some("")
    ensures MatchingStores(stores, search) == stores
  {
    FilterAll(stores, (s: Store) => StoreMatches(s, search));
  }

  // ---- aggregates ----

  function RatingSum(rows: seq<Rating>): int
  {
    if rows == [] then 0 else rows[0].rating + RatingSum(rows[1..])
  }

  predicate ValuesInRange(rows: seq<Rating>)
  {
    forall x :: x in rows ==> 1 <= x.rating <= 5
  }

  /** With values in 1..5 the sum of n values lies between n and 5n. */
  lemma {:induction false} RatingSumBounds(rows: seq<Rating>)
    requires ValuesInRange(rows)
    ensures |rows| <= RatingSum(rows) <= 5 * |rows|
  {
    if rows != [] {
      assert rows[0] in rows;
      assert ValuesInRange(rows[1..]) by {
        forall x | x in rows[1..] ensures 1 <= x.rating <= 5 { assert x in rows; }
      }
      RatingSumBounds(rows[1..]);
    }
  }

  /** The arithmetic mean of the values, 0 for no values. */
  function Mean(rows: seq<Rating>): (avg: real)
    ensures rows == [] ==> avg == 0.0
    ensures rows != [] ==> avg * (|rows| as real) == RatingSum(rows) as real
    ensures ValuesInRange(rows) && rows != [] ==> 1.0 <= avg <= 5.0
  {
    if rows == [] then 0.0
    else
      var n := |rows| as real;
      var sum := RatingSum(rows) as real;
      DivisionFacts(sum, n);
      if ValuesInRange(rows) then
        RatingSumBounds(rows);
        sum / n
      else
        sum / n
  }

  lemma DivisionFacts(sum: real, n: real)
    requires n > 0.0
    ensures (sum / n) * n == sum
    ensures n <= sum <= 5.0 * n ==> 1.0 <= sum / n <= 5.0
  {
  }

  /** `calculateAverageRating(storeId)`: `AVG(rating)` over the store's rows, 0 when there are none. */
  function AverageRating(ratings: seq<Rating>, storeId: Id): (avg: real)
    ensures RatingsOfStore(ratings, storeId) == [] ==> avg == 0.0
    ensures ValuesInRange(RatingsOfStore(ratings, storeId)) && RatingsOfStore(ratings, storeId) != [] ==> 1.0 <= avg <= 5.0
  {
    Mean(RatingsOfStore(ratings, storeId))
  }

  /** Three ratings 5, 3 and 4 of one store average 4.0 over a count of 3. */
  lemma AverageOfThree(storeId: Id, a: Rating, b: Rating, c: Rating)
    requires a.storeId == storeId && b.storeId == storeId && c.storeId == storeId
    requires a.rating == 5 && b.rating == 3 && c.rating == 4
    ensures StoreAverageRating([a, b, c], storeId) == StoreAggregate(4.0, 3)
  {
    var rows := RatingsOfStore([a, b, c], storeId);
    FilterAll([a, b, c], (x: Rating) => x.storeId == storeId);
    assert rows == [a, b, c];
    assert [a, b, c][1..] == [b, c] && [b, c][1..] == [c];
    assert RatingSum([c]) == 4;
    assert RatingSum(rows) == 12;
    assert Mean(rows) * 3.0 == 12.0;
  }

  datatype StoreAggregate = StoreAggregate(average: real, total: nat)

  /** `getStoreAverageRating(storeId)`: the average and the count; an unknown store gives 0 and 0. */
  function StoreAverageRating(ratings: seq<Rating>, storeId: Id): (r: StoreAggregate)
    ensures r.total == |RatingsOfStore(ratings, storeId)|
    ensures r.average == AverageRating(ratings, storeId)
    ensures (forall x :: x in ratings ==> x.storeId != storeId) ==> r == StoreAggregate(0.0, 0)
  {
    var rows := RatingsOfStore(ratings, storeId);
    StoreAggregate(AverageRating(ratings, storeId), |rows|)
  }

  // ---- listing ----

  /** The `owner` relation: the users row the store's ownerId names, loaded whole. */
  function OwnerRow(users: seq<User>, s: Store): (o: Option<User>)
    ensures o.Some? <==> s.ownerId.Some? && s.ownerId.value in UserIds(users)
    ensures o.Some? ==> o.value in users && s.ownerId == Some(o.value.id)
  {
    if s.ownerId.None? then None
    else match UserIndex(users, s.ownerId.value)
      case None => None
      case Some(i) => Some(users[i])
  }

  /** `{ id: store.owner?.id, name: store.owner?.name, email: store.owner?.email }`: always an
      object, whose fields are undefined (and left out of the JSON) for an ownerless store. */
  datatype OwnerBrief = OwnerBrief(id: Option<Id>, name: Option<string>, email: Option<string>)

  /** One item of the store listing. */
  datatype StoreSummary = StoreSummary(id: Id, name: string, address: Option<string>,
                                       owner: OwnerBrief, averageRating: real,
                                       totalRatings: nat, createdAt: nat)

  /** The owner brief of a listed store: three fields of the owner row, or three undefined ones. */
  function OwnerOf(users: seq<User>, s: Store): (o: OwnerBrief)
    ensures OwnerRow(users, s).None? ==> o == OwnerBrief(None, None, None)
    ensures OwnerRow(users, s).Some? ==>
      var u := OwnerRow(users, s).value;
      o == OwnerBrief(Some(u.id), Some(u.name), Some(u.email)) && s.ownerId == Some(u.id) && u in users
  {
    match OwnerRow(users, s)
    case None => OwnerBrief(None, None, None)
    case Some(u) => OwnerBrief(Some(u.id), Some(u.name), Some(u.email))
  }

  function Summary(s: Store, users: seq<User>, ratings: seq<Rating>): StoreSummary
  {
    StoreSummary(s.id, s.name, s.address, OwnerOf(users, s), AverageRating(ratings, s.id),
                 |RatingsOfStore(ratings, s.id)|, s.createdAt)
  }

  /** The stores `findAll` returns, before projection: matches, newest first, one page. */
  function StoreListRows(stores: seq<Store>, q: StoreListQuery): seq<Store>
  {
    Window(Reverse(MatchingStores(stores, q.search)), PageOf(PagingOf(q)), LimitOf(PagingOf(q)))
  }

  /** `findAll({ page, limit, search })` */
  function ListStores(stores: seq<Store>, users: seq<User>, ratings: seq<Rating>, q: StoreListQuery): (r: Paged<StoreSummary>)
    ensures r.meta == Meta(PageOf(PagingOf(q)), LimitOf(PagingOf(q)), |MatchingStores(stores, q.search)|)
    ensures var rows := StoreListRows(stores, q);
      |r.data| == |rows| &&
      forall k :: 0 <= k < |rows| ==>
        && r.data[k].id == rows[k].id && r.data[k].name == rows[k].name && r.data[k].address == rows[k].address
        && r.data[k].owner == OwnerOf(users, rows[k])
        && r.data[k].averageRating == AverageRating(ratings, rows[k].id)
        && r.data[k].totalRatings == |RatingsOfStore(ratings, rows[k].id)|
        && r.data[k].createdAt == rows[k].createdAt
  {
    var rows := StoreListRows(stores, q);
    Paged(seq(|rows|, k requires 0 <= k < |rows| => Summary(rows[k], users, ratings)),
          Meta(PageOf(PagingOf(q)), LimitOf(PagingOf(q)), |MatchingStores(stores, q.search)|))
  }

  /** A page of the store listing holds at most `limit` matching stores, newest first. */
  lemma StoreListRowsFacts(stores: seq<Store>, q: StoreListQuery)
    requires Pairwise(stores, StorePair)
    ensures var rows := StoreListRows(stores, q);
      |rows| <= LimitOf(PagingOf(q)) &&
      (forall k :: 0 <= k < |rows| ==> rows[k] in stores && StoreMatches(rows[k], q.search)) &&
      (forall i, j :: 0 <= i < j < |rows| ==> rows[i].createdAt > rows[j].createdAt)
  {
    var m := MatchingStores(stores, q.search);
    FilterPairwise(stores, (s: Store) => StoreMatches(s, q.search), StorePair);
    var r := Reverse(m);
    assert Pairwise(r, (a: Store, b: Store) => a.createdAt > b.createdAt) by {
      forall i, j | 0 <= i < j < |r| ensures r[i].createdAt > r[j].createdAt {
        assert StorePair(m[|m| - 1 - j], m[|m| - 1 - i]);
      }
    }
    WindowFacts(r, PageOf(PagingOf(q)), LimitOf(PagingOf(q)), (a: Store, b: Store) => a.createdAt > b.createdAt);
  }

  /** The listing ignores `sortBy` and `sortOrder`. */
  lemma ListStoresIgnoresSort(stores: seq<Store>, users: seq<User>, ratings: seq<Rating>,
                              q: StoreListQuery, sortBy: Option<string>, sortOrder: Option<SortOrder>)
    ensures ListStores(stores, users, ratings, q.(sortBy := sortBy, sortOrder := sortOrder))
         == ListStores(stores, users, ratings, q)
  {
  }

  /** The `Store` entity `findOne` returns, with its two relations loaded: `owner` is the whole
      users row, password hash and address included. */
  datatype StoreDetail = StoreDetail(store: Store, owner: Option<User>, ratings: seq<Rating>)

  /** `findOne(id)` with the owner and ratings relations. */
  function StoreFindOne(stores: seq<Store>, users: seq<User>, ratings: seq<Rating>, id: Id): (r: Result<StoreDetail>)
    ensures r.Err? <==> id !in StoreIds(stores)
    ensures r.Err? ==> r.error == NotFound("Store not found")
    ensures r.Ok? ==> (r.value.store in stores && r.value.store.id == id
                       && r.value.ratings == RatingsOfStore(ratings, id))
    ensures r.Ok? ==> (r.value.owner.Some? <==> r.value.store.ownerId.Some? && r.value.store.ownerId.value in UserIds(users))
    ensures r.Ok? && r.value.owner.Some? ==>
      r.value.owner.value in users && r.value.store.ownerId == Some(r.value.owner.value.id)
  {
    match StoreIndex(stores, id)
    case None => Err(NotFound("Store not found"))
    case Some(i) => Ok(StoreDetail(stores[i], OwnerRow(users, stores[i]), RatingsOfStore(ratings, id)))
  }

  /** Changing one user's password hash leaves every user's id where it was. */
  lemma PasswordChangeKeepsIds(users: seq<User>, j: nat, p: string)
    requires j < |users|
    ensures var changed := users[j := users[j].(password := p)];
      |changed| == |users| && forall k :: 0 <= k < |users| ==> changed[k].id == users[k].id
  {
  }

  /** As written, `GET /stores/:id` is public and returns the owner's stored password hash: the
      response changes whenever that hash does. */
  lemma StoreFindOneRevealsPassword(stores: seq<Store>, users: seq<User>, ratings: seq<Rating>, id: Id, p: string)
    requires id in StoreIds(stores)
    requires var s := stores[StoreIndex(stores, id).value]; s.ownerId.Some? && s.ownerId.value in UserIds(users)
    ensures var j := UserIndex(users, stores[StoreIndex(stores, id).value].ownerId.value).value;
      StoreFindOne(stores, users, ratings, id).value.owner.value.password == users[j].password &&
      (p != users[j].password ==>
         StoreFindOne(stores, users[j := users[j].(password := p)], ratings, id) != StoreFindOne(stores, users, ratings, id))
  {
    var s := stores[StoreIndex(stores, id).value];
    var j := UserIndex(users, s.ownerId.value).value;
    var changed := users[j := users[j].(password := p)];
    PasswordChangeKeepsIds(users, j, p);
    UserIndexByIds(users, changed, s.ownerId.value);
    assert StoreFindOne(stores, changed, ratings, id).value.owner == Some(changed[j]);
  }

  /** The store detail without secrets: the owner projected to the columns the users listing
      shows, so no password hash leaves the service. */
  datatype PublicStoreDetail = PublicStoreDetail(store: Store, owner: Option<UserQueries.UserView>, ratings: seq<Rating>)

  /** `findOne(id)` as a public route evidently intends it: the same lookup, the owner without its password. */
  function StoreFindOnePublic(stores: seq<Store>, users: seq<User>, ratings: seq<Rating>, id: Id): (r: Result<PublicStoreDetail>)
    ensures r.Err? <==> id !in StoreIds(stores)
    ensures r.Err? ==> r.error == NotFound("Store not found")
    ensures r.Ok? ==>
      var d := StoreFindOne(stores, users, ratings, id).value;
      r.value.store == d.store && r.value.ratings == d.ratings &&
      (r.value.owner.Some? <==> d.owner.Some?) &&
      (d.owner.Some? ==> r.value.owner == Some(UserQueries.View(d.owner.value)))
  {
    match StoreFindOne(stores, users, ratings, id)
    case Err(e) => Err(e)
    case Ok(d) => Ok(PublicStoreDetail(d.store, if d.owner.Some? then Some(UserQueries.View(d.owner.value)) else None, d.ratings))
  }

  /** The public detail does not depend on any stored password hash. */
  lemma StoreFindOnePublicHidesPassword(stores: seq<Store>, users: seq<User>, ratings: seq<Rating>, id: Id,
                                        j: nat, p: string)
    requires j < |users|
    ensures StoreFindOnePublic(stores, users[j := users[j].(password := p)], ratings, id)
         == StoreFindOnePublic(stores, users, ratings, id)
  {
    var changed := users[j := users[j].(password := p)];
    PasswordChangeKeepsIds(users, j, p);
    if id in StoreIds(stores) {
      var s := stores[StoreIndex(stores, id).value];
      if s.ownerId.Some? {
        UserIndexByIds(users, changed, s.ownerId.value);
        assert UserIds(changed) == UserIds(users) by {
          forall x | x in UserIds(changed) ensures x in UserIds(users) {
            var k :| 0 <= k < |changed| && changed[k].id == x;
            assert users[k] in users;
          }
          forall x | x in UserIds(users) ensures x in UserIds(changed) {
            var k :| 0 <= k < |users| && users[k].id == x;
            assert changed[k] in changed;
          }
        }
      }
    }
  }

  /** `getStoresCount()`: with distinct ids, the number of rows is the number of stores. */
  function StoresCount(stores: seq<Store>): (n: nat)
    requires Pairwise(stores, StorePair)
    ensures n == |StoreIds(stores)|
  {
    DistinctStoreIds(stores);
    |stores|
  }

  lemma {:induction false} DistinctStoreIds(stores: seq<Store>)
    requires Pairwise(stores, StorePair)
    ensures |StoreIds(stores)| == |stores|
  {
    if stores != [] {
      var t := stores[1..];
      assert Pairwise(t, StorePair) by {
        forall i, j | 0 <= i < j < |t| ensures StorePair(t[i], t[j]) { assert t[i] == stores[i + 1] && t[j] == stores[j + 1]; }
      }
      DistinctStoreIds(t);
      forall s | s in t ensures s.id != stores[0].id {
        var j :| 0 <= j < |t| && t[j] == s;
        assert StorePair(stores[0], stores[j + 1]);
      }
      StoreIdsCons(stores[0], t);
      assert stores == [stores[0]] + t;
    }
  }

  lemma StoreIdsCons(x: Store, t: seq<Store>)
    ensures StoreIds([x] + t) == {x.id} + StoreIds(t)
  {
    var l := StoreIds([x] + t);
    var r := {x.id} + StoreIds(t);
    forall id | id in l ensures id in r {
      var s :| s in [x] + t && s.id == id;
    }
    forall id | id in r ensures id in l {
      if id != x.id {
        var s :| s in t && s.id == id;
        assert s in [x] + t;
      } else {
        assert x in [x] + t;
      }
    }
  }
}
