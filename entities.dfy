/** The three persisted records and the constraints their columns declare. */
module Entities {
  import opened Common
  import opened Seqs

  /** A `users` row. `password` holds the hash, never the plain password. */
  datatype User = User(id: Id, name: string, email: string, password: string,
                       address: Option<string>, role: Role, createdAt: nat)

  /** A `stores` row. `ownerId` is nullable: a store may have no owner. */
  datatype Store = Store(id: Id, name: string, address: Option<string>,
                         ownerId: Option<Id>, createdAt: nat)

  /** A `ratings` row: userId, storeId and rating are NOT NULL, rating an `int` column. */
  datatype Rating = Rating(id: Id, userId: Id, storeId: Id, rating: int, createdAt: nat)

  /** `varchar(60)` name, `varchar(120)` email, nullable `varchar(400)` address. */
  predicate UserFitsColumns(u: User)
  {
    |u.name| <= 60 && |u.email| <= 120 && (u.address.Some? ==> |u.address.value| <= 400)
  }

  /** `varchar(100)` name, nullable `varchar(400)` address. */
  predicate StoreFitsColumns(s: Store)
  {
    |s.name| <= 100 && (s.address.Some? ==> |s.address.value| <= 400)
  }

  /** Two users rows, the first inserted earlier: distinct ids and distinct (unique) emails. */
  predicate UserPair(a: User, b: User)
  {
    a.id != b.id && a.email != b.email && a.createdAt < b.createdAt
  }

  /** Two stores rows, the first inserted earlier: distinct ids and never the same owner. */
  predicate StorePair(a: Store, b: Store)
  {
    a.id != b.id && a.createdAt < b.createdAt && (a.ownerId.None? || a.ownerId != b.ownerId)
  }

  /** Two ratings rows, the first inserted earlier: distinct ids and distinct (userId, storeId). */
  predicate RatingPair(a: Rating, b: Rating)
  {
    a.id != b.id && (a.userId != b.userId || a.storeId != b.storeId) && a.createdAt < b.createdAt
  }

  function UserIds(users: seq<User>): set<Id> { set u | u in users :: u.id }
  function StoreIds(stores: seq<Store>): set<Id> { set s | s in stores :: s.id }
  function RatingIds(ratings: seq<Rating>): set<Id> { set r | r in ratings :: r.id }

  function UserIndex(users: seq<User>, id: Id): (r: Option<nat>)
    ensures r.Some? ==> r.value < |users| && users[r.value].id == id
    ensures r.None? <==> id !in UserIds(users)
  {
    IndexWhere(users, (u: User) => u.id == id)
  }

  /** The lookup reads only the ids: two tables with the same ids row by row find the same row. */
  lemma UserIndexByIds(a: seq<User>, b: seq<User>, id: Id)
    requires |a| == |b| && forall k :: 0 <= k < |a| ==> a[k].id == b[k].id
    ensures UserIndex(a, id) == UserIndex(b, id)
  {
  }

  function StoreIndex(stores: seq<Store>, id: Id): (r: Option<nat>)
    ensures r.Some? ==> r.value < |stores| && stores[r.value].id == id
    ensures r.None? <==> id !in StoreIds(stores)
  {
    IndexWhere(stores, (s: Store) => s.id == id)
  }

  /** `findOne({ where: { email } })` */
  function UserByEmail(users: seq<User>, email: string): (r: Option<User>)
    ensures r.Some? ==> r.value in users && r.value.email == email
    ensures r.None? ==> forall u :: u in users ==> u.email != email
  {
    match IndexWhere(users, (u: User) => u.email == email)
    case None => None
    case Some(i) => Some(users[i])
  }

  /** `findOne({ where: { ownerId } })` on stores */
  function StoreOwnedBy(stores: seq<Store>, ownerId: Id): (r: Option<Store>)
    ensures r.Some? ==> r.value in stores && r.value.ownerId == Some(ownerId)
    ensures r.None? ==> forall s :: s in stores ==> s.ownerId != Some(ownerId)
  {
    match IndexWhere(stores, (s: Store) => s.ownerId == Some(ownerId))
    case None => None
    case Some(i) => Some(stores[i])
  }

  /** The position of the rating for (userId, storeId), if any. */
  function RatingIndex(ratings: seq<Rating>, userId: Id, storeId: Id): (r: Option<nat>)
    ensures r.Some? ==> r.value < |ratings| && ratings[r.value].userId == userId && ratings[r.value].storeId == storeId
    ensures r.Some? ==> forall j :: 0 <= j < r.value ==> ratings[j].userId != userId || ratings[j].storeId != storeId
    ensures r.None? ==> forall x :: x in ratings ==> x.userId != userId || x.storeId != storeId
  {
    IndexWhere(ratings, (x: Rating) => x.userId == userId && x.storeId == storeId)
  }

  /** The ratings of one store (`rating.storeId = :storeId`). */
  function RatingsOfStore(ratings: seq<Rating>, storeId: Id): seq<Rating>
  {
    Filter(ratings, (x: Rating) => x.storeId == storeId)
  }

  /** The ratings given by one user (`rating.userId = :userId`). */
  function RatingsOfUser(ratings: seq<Rating>, userId: Id): seq<Rating>
  {
    Filter(ratings, (x: Rating) => x.userId == userId)
  }

  /** What is left of the ratings table once a store row is deleted (`onDelete: 'CASCADE'`). */
  function RatingsWithoutStore(ratings: seq<Rating>, storeId: Id): (r: seq<Rating>)
    ensures forall x :: x in r <==> x in ratings && x.storeId != storeId
  {
    Filter(ratings, (x: Rating) => x.storeId != storeId)
  }

  /** What is left of the ratings table once a user row is deleted (`onDelete: 'CASCADE'`). */
  function RatingsWithoutUser(ratings: seq<Rating>, userId: Id): (r: seq<Rating>)
    ensures forall x :: x in r <==> x in ratings && x.userId != userId
  {
    Filter(ratings, (x: Rating) => x.userId != userId)
  }

  /** The users table once a user row is deleted. */
  function UsersWithout(users: seq<User>, id: Id): (r: seq<User>)
    ensures forall u :: u in r <==> u in users && u.id != id
  {
    Filter(users, (u: User) => u.id != id)
  }

  /** The stores table once a store row is deleted. */
  function StoresWithout(stores: seq<Store>, id: Id): (r: seq<Store>)
    ensures forall s :: s in r <==> s in stores && s.id != id
  {
    Filter(stores, (s: Store) => s.id != id)
  }
}
