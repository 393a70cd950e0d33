/** The read side of the ratings service: per-store and per-user listings and the pair lookup. */
module RatingQueries {
  import opened Common
  import opened Seqs
  import opened Paging
  import opened Entities

  datatype UserBrief = UserBrief(id: Id, email: string, name: string)
  datatype StoreBrief = StoreBrief(id: Id, name: string, address: Option<string>)
  datatype StoreRatingItem = StoreRatingItem(id: Id, rating: int, createdAt: nat, user: UserBrief)
  datatype UserRatingItem = UserRatingItem(id: Id, rating: int, createdAt: nat, store: StoreBrief)

  /** Every rating row points at an existing user and an existing store (the two foreign keys). */
  predicate RatingsReference(ratings: seq<Rating>, users: seq<User>, stores: seq<Store>)
  {
    forall x :: x in ratings ==> x.userId in UserIds(users) && x.storeId in StoreIds(stores)
  }

  /** Tables hold rows in insertion order, so ORDER BY createdAt DESC is the reversed table. */
  function NewestWindow(rows: seq<Rating>, page: Pos, limit: Pos): seq<Rating>
  {
    Window(Reverse(rows), page, limit)
  }

  /** One page of newest-first rows: each comes from `rows`, strictly newest first, at most `limit`. */
  lemma NewestWindowFacts(rows: seq<Rating>, page: Pos, limit: Pos)
    requires Pairwise(rows, RatingPair)
    ensures var w := NewestWindow(rows, page, limit);
      |w| <= limit &&
      (forall k :: 0 <= k < |w| ==> w[k] in rows) &&
      (forall i, j :: 0 <= i < j < |w| ==> w[i].createdAt > w[j].createdAt)
  {
    var r := Reverse(rows);
    assert Pairwise(r, (a: Rating, b: Rating) => a.createdAt > b.createdAt) by {
      forall i, j | 0 <= i < j < |r| ensures r[i].createdAt > r[j].createdAt {
        assert RatingPair(rows[|rows| - 1 - j], rows[|rows| - 1 - i]);
      }
    }
    WindowFacts(r, page, limit, (a: Rating, b: Rating) => a.createdAt > b.createdAt);
  }

  function UserOf(users: seq<User>, id: Id): (u: User)
    requires id in UserIds(users)
    ensures u in users && u.id == id
  {
    users[UserIndex(users, id).value]
  }

  function StoreOf(stores: seq<Store>, id: Id): (s: Store)
    requires id in StoreIds(stores)
    ensures s in stores && s.id == id
  {
    stores[StoreIndex(stores, id).value]
  }

  /** The rows that `getStoreRatings` returns, before projection. */
  function StoreRatingRows(ratings: seq<Rating>, storeId: Id, q: PageQuery): seq<Rating>
  {
    NewestWindow(RatingsOfStore(ratings, storeId), PageOf(q), LimitOf(q))
  }

  function UserRatingRows(ratings: seq<Rating>, userId: Id, q: PageQuery): seq<Rating>
  {
    NewestWindow(RatingsOfUser(ratings, userId), PageOf(q), LimitOf(q))
  }

  /** `getStoreRatings(storeId, { page, limit })` */
  function StoreRatings(ratings: seq<Rating>, users: seq<User>, storeId: Id, q: PageQuery): (r: Paged<StoreRatingItem>)
    requires forall x :: x in ratings ==> x.userId in UserIds(users)
    ensures r.meta == Meta(PageOf(q), LimitOf(q), |RatingsOfStore(ratings, storeId)|)
    ensures var rows := StoreRatingRows(ratings, storeId, q);
      |r.data| == |rows| &&
      forall k :: 0 <= k < |rows| ==>
        && r.data[k].id == rows[k].id && r.data[k].rating == rows[k].rating
        && r.data[k].createdAt == rows[k].createdAt && rows[k].storeId == storeId
        && rows[k].userId in UserIds(users)
        && r.data[k].user == (var u := UserOf(users, rows[k].userId); UserBrief(u.id, u.email, u.name))
  {
    var rows := StoreRatingRows(ratings, storeId, q);
    assert forall k :: 0 <= k < |rows| ==> rows[k] in RatingsOfStore(ratings, storeId);
    var data := seq(|rows|, k requires 0 <= k < |rows| =>
      var u := UserOf(users, rows[k].userId);
      StoreRatingItem(rows[k].id, rows[k].rating, rows[k].createdAt, UserBrief(u.id, u.email, u.name)));
    Paged(data, Meta(PageOf(q), LimitOf(q), |RatingsOfStore(ratings, storeId)|))
  }

  /** `getUserRatings(userId, { page, limit })` */
  function UserRatings(ratings: seq<Rating>, stores: seq<Store>, userId: Id, q: PageQuery): (r: Paged<UserRatingItem>)
    requires forall x :: x in ratings ==> x.storeId in StoreIds(stores)
    ensures r.meta == Meta(PageOf(q), LimitOf(q), |RatingsOfUser(ratings, userId)|)
    ensures var rows := UserRatingRows(ratings, userId, q);
      |r.data| == |rows| &&
      forall k :: 0 <= k < |rows| ==>
        && r.data[k].id == rows[k].id && r.data[k].rating == rows[k].rating
        && r.data[k].createdAt == rows[k].createdAt && rows[k].userId == userId
        && rows[k].storeId in StoreIds(stores)
        && r.data[k].store == (var s := StoreOf(stores, rows[k].storeId); StoreBrief(s.id, s.name, s.address))
  {
    var rows := UserRatingRows(ratings, userId, q);
    assert forall k :: 0 <= k < |rows| ==> rows[k] in RatingsOfUser(ratings, userId);
    var data := seq(|rows|, k requires 0 <= k < |rows| =>
      var s := StoreOf(stores, rows[k].storeId);
      UserRatingItem(rows[k].id, rows[k].rating, rows[k].createdAt, StoreBrief(s.id, s.name, s.address)));
    Paged(data, Meta(PageOf(q), LimitOf(q), |RatingsOfUser(ratings, userId)|))
  }

  /** A page of store ratings holds at most `limit` ratings of that store, newest first. */
  lemma StoreRatingRowsFacts(ratings: seq<Rating>, storeId: Id, q: PageQuery)
    requires Pairwise(ratings, RatingPair)
    ensures var rows := StoreRatingRows(ratings, storeId, q);
      |rows| <= LimitOf(q) &&
      (forall k :: 0 <= k < |rows| ==> rows[k] in ratings && rows[k].storeId == storeId) &&
      (forall i, j :: 0 <= i < j < |rows| ==> rows[i].createdAt > rows[j].createdAt)
  {
    var matching := RatingsOfStore(ratings, storeId);
    FilterPairwise(ratings, (x: Rating) => x.storeId == storeId, RatingPair);
    NewestWindowFacts(matching, PageOf(q), LimitOf(q));
  }

  /** A page of user ratings holds at most `limit` ratings by that user, newest first. */
  lemma UserRatingRowsFacts(ratings: seq<Rating>, userId: Id, q: PageQuery)
    requires Pairwise(ratings, RatingPair)
    ensures var rows := UserRatingRows(ratings, userId, q);
      |rows| <= LimitOf(q) &&
      (forall k :: 0 <= k < |rows| ==> rows[k] in ratings && rows[k].userId == userId) &&
      (forall i, j :: 0 <= i < j < |rows| ==> rows[i].createdAt > rows[j].createdAt)
  {
    var matching := RatingsOfUser(ratings, userId);
    FilterPairwise(ratings, (x: Rating) => x.userId == userId, RatingPair);
    NewestWindowFacts(matching, PageOf(q), LimitOf(q));
  }

  /** Walking pages 1..TotalPages(total) returns every rating of the store exactly once. */
  lemma StoreRatingPagesComplete(ratings: seq<Rating>, storeId: Id, limit: Pos)
    ensures var newest := Reverse(RatingsOfStore(ratings, storeId));
      Pages(newest, limit, TotalPages(|RatingsOfStore(ratings, storeId)|, limit)) == newest
      && multiset(newest) == multiset(RatingsOfStore(ratings, storeId))
  {
    var m := RatingsOfStore(ratings, storeId);
    PagesComplete(Reverse(m), limit);
    ReverseMultiset(m);
  }

  /** `getRatingByUserAndStore(userId, storeId)`: the rating for the pair, or null. */
  function RatingByUserAndStore(ratings: seq<Rating>, userId: Id, storeId: Id): (r: Option<Rating>)
    ensures r.Some? ==> r.value in ratings && r.value.userId == userId && r.value.storeId == storeId
    ensures r.None? <==> forall x :: x in ratings ==> x.userId != userId || x.storeId != storeId
  {
    match RatingIndex(ratings, userId, storeId)
    case None => None
    case Some(i) => Some(ratings[i])
  }

  /** With (userId, storeId) unique, the lookup returns the only rating of the pair. */
  lemma RatingByUserAndStoreUnique(ratings: seq<Rating>, userId: Id, storeId: Id, x: Rating)
    requires Pairwise(ratings, RatingPair)
    requires x in ratings && x.userId == userId && x.storeId == storeId
    ensures RatingByUserAndStore(ratings, userId, storeId) == Some(x)
  {
    var j :| 0 <= j < |ratings| && ratings[j] == x;
  }
}
