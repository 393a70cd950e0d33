/** The table-level effect of a rating upsert, and what it guarantees about the (user, store) pair. */
module Upsert {
  import opened Common
  import opened Seqs
  import opened Entities
  import opened RatingQueries

  /** The ratings table after writing `value` for (userId, storeId): the existing row gets the
      new value, otherwise a new row is inserted. */
  function SetRating(ratings: seq<Rating>, userId: Id, storeId: Id, value: int, freshId: Id, now: nat): seq<Rating>
  {
    match RatingIndex(ratings, userId, storeId)
    case Some(i) => ratings[i := ratings[i].(rating := value)]
    case None => ratings + [Rating(freshId, userId, storeId, value, now)]
  }

  predicate IsPair(x: Rating, userId: Id, storeId: Id)
  {
    x.userId == userId && x.storeId == storeId
  }

  /** Rows the upsert must not touch: every rating of another pair. */
  function OtherPairs(ratings: seq<Rating>, userId: Id, storeId: Id): seq<Rating>
  {
    Filter(ratings, (x: Rating) => !IsPair(x, userId, storeId))
  }

  /** The preconditions a fresh row needs: an unused id and a timestamp after every row. */
  predicate FreshFor(ratings: seq<Rating>, freshId: Id, now: nat)
  {
    freshId !in RatingIds(ratings) && forall x :: x in ratings ==> x.createdAt < now
  }

  /** Overwriting keeps id, userId, storeId and createdAt and adds no row. */
  lemma SetRatingExisting(ratings: seq<Rating>, userId: Id, storeId: Id, value: int, freshId: Id, now: nat)
    requires RatingIndex(ratings, userId, storeId).Some?
    ensures var i := RatingIndex(ratings, userId, storeId).value;
      var r := SetRating(ratings, userId, storeId, value, freshId, now);
      |r| == |ratings| && r[i].rating == value &&
      r[i].id == ratings[i].id && r[i].userId == userId && r[i].storeId == storeId &&
      r[i].createdAt == ratings[i].createdAt &&
      forall j :: 0 <= j < |r| && j != i ==> r[j] == ratings[j]
  {
  }

  /** Without an existing row the old rows stay in place, exactly one row (freshId, userId,
      storeId, value, now) follows them, and the pair's lookup now finds it. */
  lemma SetRatingNew(ratings: seq<Rating>, userId: Id, storeId: Id, value: int, freshId: Id, now: nat)
    requires RatingIndex(ratings, userId, storeId).None?
    ensures var r := SetRating(ratings, userId, storeId, value, freshId, now);
      |r| == |ratings| + 1 && r[..|ratings|] == ratings &&
      r[|ratings|] == Rating(freshId, userId, storeId, value, now) &&
      RatingByUserAndStore(r, userId, storeId) == Some(r[|ratings|])
  {
    var r := SetRating(ratings, userId, storeId, value, freshId, now);
    assert r[..|ratings|] == ratings;
    var k := RatingIndex(r, userId, storeId);
    assert r[|ratings|].userId == userId && r[|ratings|].storeId == storeId;
    assert k.Some? && k.value == |ratings| by {
      assert forall j :: 0 <= j < |ratings| ==> r[j] == ratings[j];
    }
  }

  /** The upsert keeps ids unique, pairs unique and rows in creation order. */
  lemma SetRatingKeepsPairs(ratings: seq<Rating>, userId: Id, storeId: Id, value: int, freshId: Id, now: nat)
    requires Pairwise(ratings, RatingPair) && FreshFor(ratings, freshId, now)
    ensures Pairwise(SetRating(ratings, userId, storeId, value, freshId, now), RatingPair)
  {
    match RatingIndex(ratings, userId, storeId)
    case Some(i) =>
      var x := ratings[i].(rating := value);
      forall j | 0 <= j < i ensures RatingPair(ratings[j], x) { assert RatingPair(ratings[j], ratings[i]); }
      forall j | i < j < |ratings| ensures RatingPair(x, ratings[j]) { assert RatingPair(ratings[i], ratings[j]); }
      PairwiseUpdate(ratings, i, x, RatingPair);
    case None =>
      var x := Rating(freshId, userId, storeId, value, now);
      forall j | 0 <= j < |ratings| ensures RatingPair(ratings[j], x) {
        assert ratings[j] in ratings;
        assert ratings[j].id in RatingIds(ratings);
      }
      PairwiseSnoc(ratings, x, RatingPair);
  }

  /** Afterwards the pair has exactly one rating, and it holds the given value. */
  lemma SetRatingExactlyOne(ratings: seq<Rating>, userId: Id, storeId: Id, value: int, freshId: Id, now: nat)
    requires Pairwise(ratings, RatingPair) && FreshFor(ratings, freshId, now)
    ensures var r := SetRating(ratings, userId, storeId, value, freshId, now);
      var found := RatingByUserAndStore(r, userId, storeId);
      found.Some? && found.value.rating == value &&
      forall x :: x in r && IsPair(x, userId, storeId) ==> x == found.value
  {
    var r := SetRating(ratings, userId, storeId, value, freshId, now);
    SetRatingKeepsPairs(ratings, userId, storeId, value, freshId, now);
    var k: nat;
    match RatingIndex(ratings, userId, storeId) {
      case Some(i) => k := i;
      case None => k := |ratings|;
    }
    assert r[k].rating == value && IsPair(r[k], userId, storeId);
    assert r[k] in r;
    RatingByUserAndStoreUnique(r, userId, storeId, r[k]);
    forall x | x in r && IsPair(x, userId, storeId) ensures x == r[k] {
      RatingByUserAndStoreUnique(r, userId, storeId, x);
    }
  }

  /** Ratings of every other pair are exactly as before. */
  lemma SetRatingOthersUnchanged(ratings: seq<Rating>, userId: Id, storeId: Id, value: int, freshId: Id, now: nat)
    ensures OtherPairs(SetRating(ratings, userId, storeId, value, freshId, now), userId, storeId)
         == OtherPairs(ratings, userId, storeId)
  {
    var keep := (x: Rating) => !IsPair(x, userId, storeId);
    match RatingIndex(ratings, userId, storeId)
    case Some(i) =>
      FilterUpdateDropped(ratings, i, ratings[i].(rating := value), keep);
    case None =>
      var x := Rating(freshId, userId, storeId, value, now);
      FilterAppend(ratings, [x], keep);
      assert Filter([x], keep) == [];
  }

  /** Upserting the same value twice leaves the table as upserting it once. */
  lemma SetRatingIdempotent(ratings: seq<Rating>, userId: Id, storeId: Id, value: int,
                            freshId: Id, now: nat, freshId2: Id, now2: nat)
    ensures var once := SetRating(ratings, userId, storeId, value, freshId, now);
      SetRating(once, userId, storeId, value, freshId2, now2) == once
  {
    var once := SetRating(ratings, userId, storeId, value, freshId, now);
    match RatingIndex(ratings, userId, storeId)
    case Some(i) =>
      assert forall j :: 0 <= j < i ==> once[j] == ratings[j];
      assert once[i].userId == userId && once[i].storeId == storeId;
      var k := RatingIndex(once, userId, storeId);
      assert k.Some? by { assert once[i] in once; }
      assert k.value >= i;
      assert k.value <= i;
    case None =>
      assert forall j :: 0 <= j < |ratings| ==> once[j] == ratings[j];
      assert RatingIndex(once, userId, storeId) == Some(|ratings|);
  }
}
