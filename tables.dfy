/** The invariant the three tables keep together, the row-level writes the services perform,
    and the proofs that each write keeps the invariant. */
module Tables {
  import opened Common
  import opened Seqs
  import opened Entities
  import opened Dtos
  import opened RatingQueries
  import opened Upsert
  import opened StoreQueries

  /** The range of the Postgres `int` column that stores a rating value. */
  predicate Int32(v: int)
  {
    -0x8000_0000 <= v < 0x8000_0000
  }

  /** users: distinct ids, unique emails, rows in creation order, every row fits its columns. */
  ghost predicate UsersOk(users: seq<User>, clock: nat)
  {
    Pairwise(users, UserPair) && forall u :: u in users ==> UserFitsColumns(u) && u.createdAt < clock
  }

  /** stores: distinct ids, at most one store per owner, and a non-null owner is an existing user. */
  ghost predicate StoresOk(stores: seq<Store>, users: seq<User>, clock: nat)
  {
    Pairwise(stores, StorePair) &&
    forall s :: s in stores ==>
      StoreFitsColumns(s) && s.createdAt < clock && (s.ownerId.Some? ==> s.ownerId.value in UserIds(users))
  }

  /** ratings: distinct ids, one row per (userId, storeId), both foreign keys resolve. */
  ghost predicate RatingsOk(ratings: seq<Rating>, users: seq<User>, stores: seq<Store>, clock: nat)
  {
    Pairwise(ratings, RatingPair) && RatingsReference(ratings, users, stores) &&
    forall x :: x in ratings ==> x.createdAt < clock && Int32(x.rating)
  }

  ghost predicate Consistent(users: seq<User>, stores: seq<Store>, ratings: seq<Rating>, clock: nat)
  {
    UsersOk(users, clock) && StoresOk(stores, users, clock) && RatingsOk(ratings, users, stores, clock)
  }

  // ---- id sets under the row-level writes ----

  lemma UserIdsSnoc(users: seq<User>, u: User)
    ensures UserIds(users + [u]) == UserIds(users) + {u.id}
  {
    var t := users + [u];
    assert u == t[|users|];
    forall x | x in users ensures x in t { var i :| 0 <= i < |users| && users[i] == x; assert t[i] == x; }
  }

  lemma StoreIdsSnoc(stores: seq<Store>, s: Store)
    ensures StoreIds(stores + [s]) == StoreIds(stores) + {s.id}
  {
    var t := stores + [s];
    assert s == t[|stores|];
    forall x | x in stores ensures x in t { var i :| 0 <= i < |stores| && stores[i] == x; assert t[i] == x; }
  }

  lemma UserIdsUpdate(users: seq<User>, i: nat, u: User)
    requires i < |users| && u.id == users[i].id
    ensures UserIds(users[i := u]) == UserIds(users)
  {
    var t := users[i := u];
    forall x | x in users ensures x.id in UserIds(t) {
      var j :| 0 <= j < |users| && users[j] == x;
      if j == i { assert t[i] == u; } else { assert t[j] == x; }
    }
    forall x | x in t ensures x.id in UserIds(users) {
      var j :| 0 <= j < |t| && t[j] == x;
      if j == i { assert users[i] in users; } else { assert users[j] == x; }
    }
  }

  lemma StoreIdsUpdate(stores: seq<Store>, i: nat, s: Store)
    requires i < |stores| && s.id == stores[i].id
    ensures StoreIds(stores[i := s]) == StoreIds(stores)
  {
    var t := stores[i := s];
    forall x | x in stores ensures x.id in StoreIds(t) {
      var j :| 0 <= j < |stores| && stores[j] == x;
      if j == i { assert t[i] == s; } else { assert t[j] == x; }
    }
    forall x | x in t ensures x.id in StoreIds(stores) {
      var j :| 0 <= j < |t| && t[j] == x;
      if j == i { assert stores[i] in stores; } else { assert stores[j] == x; }
    }
  }

  // ---- the row-level writes ----

  /** The user row `create` inserts: the hashed password, and role USER unless one is supplied. */
  function NewUser(d: CreateUserDto, hash: string -> string, id: Id, now: nat): (u: User)
    ensures u.role == (if d.role.Some? then d.role.value else USER)
    ensures u.password == hash(d.password)
    ensures u.name == d.name && u.email == d.email && u.address == d.address
  {
    User(id, d.name, d.email, hash(d.password), d.address, d.role.GetOr(USER), now)
  }

  /** The user row `createAdmin` inserts: always role ADMIN. */
  function NewAdmin(d: CreateAdminDto, hash: string -> string, id: Id, now: nat): (u: User)
    ensures u.role == ADMIN && u.password == hash(d.password)
    ensures u.name == d.name && u.email == d.email && u.address == d.address
  {
    User(id, d.name, d.email, hash(d.password), d.address, ADMIN, now)
  }

  /** The store row `create` inserts from its body. */
  function NewStore(d: CreateStoreDto, id: Id, now: nat): (s: Store)
    ensures s.name == d.name && s.address == d.address && s.ownerId == Some(d.ownerId)
  {
    Store(id, d.name, d.address, Some(d.ownerId), now)
  }

  /** `Object.assign(store, dto)`: the supplied fields replace the stored ones and a `null` address
      clears it; a `null` name leaves a row the NOT NULL column refuses, so there is none to save. */
  function ApplyStoreUpdate(s: Store, d: UpdateStoreDto): (r: Option<Store>)
    ensures r.None? <==> d.name.Null?
    ensures r.Some? ==> r.value.id == s.id && r.value.ownerId == s.ownerId && r.value.createdAt == s.createdAt
    ensures r.Some? ==> r.value.name == (if d.name.Given? then d.name.value else s.name)
    ensures r.Some? ==> r.value.address == (if d.address.Absent? then s.address else if d.address.Null? then None
                                             else Some(d.address.value))
  {
    match d.name
    case Null => None
    case Absent => Some(Store(s.id, s.name, d.address.Assign(s.address), s.ownerId, s.createdAt))
    case Given(n) => Some(Store(s.id, n, d.address.Assign(s.address), s.ownerId, s.createdAt))
  }

  /** The password value `update` assigns: hashed when truthy; an empty string is assigned as is. */
  function UpdatedPassword(p: string, hash: string -> string): string
  {
    if p != "" then hash(p) else p
  }

  /** A `null` in the update body for a NOT NULL column of users. */
  predicate NullsRequiredColumn(d: UpdateUserDto)
  {
    d.name.Null? || d.email.Null? || d.password.Null? || d.role.Null?
  }

  /** `Object.assign(user, dto)` after the password has been hashed; `null` clears the address and
      leaves no row to save when it lands in a NOT NULL column (a `null` password is falsy, so
      it is assigned unhashed). */
  function ApplyUserUpdate(u: User, d: UpdateUserDto, hash: string -> string): (r: Option<User>)
    ensures r.None? <==> NullsRequiredColumn(d)
    ensures r.Some? ==> r.value.id == u.id && r.value.createdAt == u.createdAt
    ensures r.Some? ==> r.value.name == (if d.name.Given? then d.name.value else u.name)
    ensures r.Some? ==> r.value.email == (if d.email.Given? then d.email.value else u.email)
    ensures r.Some? ==> r.value.password == (if d.password.Given? then UpdatedPassword(d.password.value, hash) else u.password)
    ensures r.Some? ==> r.value.address == (if d.address.Absent? then u.address else if d.address.Null? then None
                                             else Some(d.address.value))
    ensures r.Some? ==> r.value.role == (if d.role.Given? then d.role.value else u.role)
  {
    if NullsRequiredColumn(d) then None
    else
      Some(User(u.id, if d.name.Given? then d.name.value else u.name,
                if d.email.Given? then d.email.value else u.email,
                if d.password.Given? then UpdatedPassword(d.password.value, hash) else u.password,
                d.address.Assign(u.address), if d.role.Given? then d.role.value else u.role, u.createdAt))
  }

  /** The service-level email check of `update`: a truthy new email that differs from the current
      one and belongs to some user. */
  predicate EmailChangeClash(users: seq<User>, u: User, d: UpdateUserDto)
  {
    d.email.Given? && d.email.value != "" && d.email.value != u.email && UserByEmail(users, d.email.value).Some?
  }

  /** The unique index on email, checked against every row but the one at `i`. */
  predicate EmailUsedElsewhere(users: seq<User>, i: nat, email: string)
  {
    exists j :: 0 <= j < |users| && j != i && users[j].email == email
  }

  /** When the service check passes, only an empty new email can still hit the unique index. */
  lemma EmailCheckLeavesOnlyEmpty(users: seq<User>, i: nat, d: UpdateUserDto, hash: string -> string)
    requires i < |users| && !EmailChangeClash(users, users[i], d)
    requires Pairwise(users, UserPair) && !NullsRequiredColumn(d)
    ensures EmailUsedElsewhere(users, i, ApplyUserUpdate(users[i], d, hash).value.email) ==> d.email == Given("")
  {
    forall j | 0 <= j < |users| && j != i ensures users[j].email != users[i].email {
      if i < j { assert UserPair(users[i], users[j]); } else { assert UserPair(users[j], users[i]); }
    }
    assert forall j :: 0 <= j < |users| ==> users[j] in users;
  }

  // ---- each write keeps the tables consistent ----

  lemma AddUserKeepsConsistent(users: seq<User>, stores: seq<Store>, ratings: seq<Rating>, clock: nat, u: User)
    requires Consistent(users, stores, ratings, clock)
    requires u.id !in UserIds(users) && UserByEmail(users, u.email).None?
    requires UserFitsColumns(u) && u.createdAt == clock
    ensures Consistent(users + [u], stores, ratings, clock + 1)
  {
    forall i | 0 <= i < |users| ensures UserPair(users[i], u) { assert users[i] in users; }
    PairwiseSnoc(users, u, UserPair);
    UserIdsSnoc(users, u);
  }

  lemma AddStoreKeepsConsistent(users: seq<User>, stores: seq<Store>, ratings: seq<Rating>, clock: nat, s: Store)
    requires Consistent(users, stores, ratings, clock)
    requires s.id !in StoreIds(stores) && s.createdAt == clock && StoreFitsColumns(s)
    requires s.ownerId.Some? ==> s.ownerId.value in UserIds(users) && StoreOwnedBy(stores, s.ownerId.value).None?
    ensures Consistent(users, stores + [s], ratings, clock + 1)
  {
    forall i | 0 <= i < |stores| ensures StorePair(stores[i], s) { assert stores[i] in stores; }
    PairwiseSnoc(stores, s, StorePair);
    StoreIdsSnoc(stores, s);
  }

  lemma ReplaceStoreKeepsConsistent(users: seq<User>, stores: seq<Store>, ratings: seq<Rating>, clock: nat, i: nat, s: Store)
    requires Consistent(users, stores, ratings, clock) && i < |stores|
    requires s.id == stores[i].id && s.ownerId == stores[i].ownerId && s.createdAt == stores[i].createdAt
    requires StoreFitsColumns(s)
    ensures Consistent(users, stores[i := s], ratings, clock)
  {
    forall j | 0 <= j < i ensures StorePair(stores[j], s) { assert StorePair(stores[j], stores[i]); }
    forall j | i < j < |stores| ensures StorePair(s, stores[j]) { assert StorePair(stores[i], stores[j]); }
    PairwiseUpdate(stores, i, s, StorePair);
    StoreIdsUpdate(stores, i, s);
    assert stores[i] in stores;
  }

  lemma ReplaceUserKeepsConsistent(users: seq<User>, stores: seq<Store>, ratings: seq<Rating>, clock: nat, i: nat, u: User)
    requires Consistent(users, stores, ratings, clock) && i < |users|
    requires u.id == users[i].id && u.createdAt == users[i].createdAt
    requires UserFitsColumns(u) && !EmailUsedElsewhere(users, i, u.email)
    ensures Consistent(users[i := u], stores, ratings, clock)
  {
    forall j | 0 <= j < i ensures UserPair(users[j], u) { assert UserPair(users[j], users[i]); }
    forall j | i < j < |users| ensures UserPair(u, users[j]) { assert UserPair(users[i], users[j]); }
    PairwiseUpdate(users, i, u, UserPair);
    UserIdsUpdate(users, i, u);
    assert users[i] in users;
  }

  /** A stored rating's user exists, so the upsert's update branch cannot break the foreign key. */
  lemma RatedByExistingUser(users: seq<User>, stores: seq<Store>, ratings: seq<Rating>, clock: nat,
                            userId: Id, storeId: Id)
    requires Consistent(users, stores, ratings, clock)
    requires RatingIndex(ratings, userId, storeId).Some?
    ensures userId in UserIds(users)
  {
    assert ratings[RatingIndex(ratings, userId, storeId).value] in ratings;
  }

  lemma SetRatingKeepsConsistent(users: seq<User>, stores: seq<Store>, ratings: seq<Rating>, clock: nat,
                                 userId: Id, storeId: Id, value: int, freshId: Id)
    requires Consistent(users, stores, ratings, clock)
    requires userId in UserIds(users) && storeId in StoreIds(stores) && Int32(value)
    requires freshId !in RatingIds(ratings)
    ensures Consistent(users, stores, SetRating(ratings, userId, storeId, value, freshId, clock), clock + 1)
  {
    SetRatingKeepsPairs(ratings, userId, storeId, value, freshId, clock);
    var r := SetRating(ratings, userId, storeId, value, freshId, clock);
    match RatingIndex(ratings, userId, storeId)
    case Some(i) =>
      forall x | x in r ensures x.createdAt < clock + 1 && Int32(x.rating) &&
                                x.userId in UserIds(users) && x.storeId in StoreIds(stores) {
        var j :| 0 <= j < |r| && r[j] == x;
        assert ratings[j] in ratings;
      }
    case None =>
  }

  lemma RemoveStoreKeepsConsistent(users: seq<User>, stores: seq<Store>, ratings: seq<Rating>, clock: nat, id: Id)
    requires Consistent(users, stores, ratings, clock)
    ensures Consistent(users, StoresWithout(stores, id), RatingsWithoutStore(ratings, id), clock)
  {
    var keep := (s: Store) => s.id != id;
    FilterPairwise(stores, keep, StorePair);
    FilterPairwise(ratings, (x: Rating) => x.storeId != id, RatingPair);
    var t := StoresWithout(stores, id);
    forall x | x in RatingsWithoutStore(ratings, id) ensures x.storeId in StoreIds(t) {
      var s :| s in stores && s.id == x.storeId;
      assert s in t;
    }
  }

  lemma RemoveUserKeepsConsistent(users: seq<User>, stores: seq<Store>, ratings: seq<Rating>, clock: nat, id: Id)
    requires Consistent(users, stores, ratings, clock)
    requires StoreOwnedBy(stores, id).None?
    ensures Consistent(UsersWithout(users, id), stores, RatingsWithoutUser(ratings, id), clock)
  {
    FilterPairwise(users, (u: User) => u.id != id, UserPair);
    FilterPairwise(ratings, (x: Rating) => x.userId != id, RatingPair);
    var t := UsersWithout(users, id);
    forall x | x in RatingsWithoutUser(ratings, id) ensures x.userId in UserIds(t) {
      var u :| u in users && u.id == x.userId;
      assert u in t;
    }
    forall s | s in stores && s.ownerId.Some? ensures s.ownerId.value in UserIds(t) {
      var u :| u in users && u.id == s.ownerId.value;
      assert u in t;
    }
  }

  /** Upserting a value in 1..5 keeps every stored value in 1..5, so averages stay in [1, 5]. */
  lemma SetRatingKeepsRange(ratings: seq<Rating>, userId: Id, storeId: Id, value: int, freshId: Id, now: nat)
    requires ValuesInRange(ratings) && 1 <= value <= 5
    ensures ValuesInRange(SetRating(ratings, userId, storeId, value, freshId, now))
  {
    var r := SetRating(ratings, userId, storeId, value, freshId, now);
    forall x | x in r ensures 1 <= x.rating <= 5 {
      var j :| 0 <= j < |r| && r[j] == x;
      if j < |ratings| { assert ratings[j] in ratings; }
    }
  }
}
