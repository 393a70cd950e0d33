/** The three repositories behind the services, as one object whose tables the service
    operations update in place. */
module Database {
  import opened Common
  import opened Seqs
  import opened Entities
  import opened Dtos
  import opened RatingQueries
  import opened UserQueries
  import opened Upsert
  import opened Tables

  /** The plain-text credentials `createAdmin` hands back beside the saved admin. */
  datatype Credentials = Credentials(email: string, password: string)
  datatype AdminCreated = AdminCreated(admin: User, credentials: Credentials)

  /** The per-role map after the `forEach` over `rows`: zeros, overwritten by each row's count. */
  function Fill(rows: seq<RoleCount>): map<Role, nat>
  {
    if rows == [] then map[ADMIN := 0, STORE_OWNER := 0, USER := 0]
    else Fill(rows[..|rows| - 1])[rows[|rows| - 1].role := rows[|rows| - 1].count]
  }

  /** Filling one more row overwrites that row's role with its count. */
  lemma FillStep(rows: seq<RoleCount>, k: nat)
    requires k < |rows|
    ensures Fill(rows[..k + 1]) == Fill(rows[..k])[rows[k].role := rows[k].count]
  {
    assert rows[..k + 1][..k] == rows[..k];
  }

  /** Every role is a key of the filled map; a role of some row maps to the last such row's count,
      and any other role to 0. */
  lemma {:induction false} FillFacts(rows: seq<RoleCount>, role: Role)
    ensures role in Fill(rows)
    ensures (forall j :: 0 <= j < |rows| ==> rows[j].role != role) ==> Fill(rows)[role] == 0
    ensures forall j ::
      (0 <= j < |rows| && rows[j].role == role && forall l :: j < l < |rows| ==> rows[l].role != role) ==>
      Fill(rows)[role] == rows[j].count
  {
    if rows != [] {
      var init := rows[..|rows| - 1];
      FillFacts(init, role);
      assert forall j :: 0 <= j < |init| ==> init[j] == rows[j];
    } else {
      assert role.ADMIN? || role.STORE_OWNER? || role.USER?;
    }
  }

  /** Filled from the GROUP BY rows, the map holds every role's count. */
  lemma FillGroups(users: seq<User>, role: Role)
    ensures role in Fill(GroupByRole(users)) && Fill(GroupByRole(users))[role] == CountRole(users, role)
  {
    var rows := GroupByRole(users);
    FillFacts(rows, role);
    if CountRole(users, role) > 0 {
      var i :| 0 <= i < |rows| && rows[i].role == role;
      assert forall l :: i < l < |rows| ==> rows[l].role != role;
    }
  }

  class Db {
    var users: seq<User>
    var stores: seq<Store>
    var ratings: seq<Rating>
    /** The database clock: every row created so far has a smaller `createdAt`. */
    var clock: nat

    ghost predicate Valid()
      reads this
    {
      Consistent(users, stores, ratings, clock)
    }

    constructor ()
      ensures Valid() && users == [] && stores == [] && ratings == []
    {
      users, stores, ratings, clock := [], [], [], 0;
    }

    // ---- ratings.service.ts ----

    /** `upsertRating(userId, dto)`; `freshId` is the uuid a new row would receive. */
    method UpsertRating(userId: Id, dto: UpsertRatingDto, freshId: Id) returns (r: Result<Rating>)
      requires Valid() && freshId !in RatingIds(ratings)
      modifies this
      ensures Valid() && users == old(users) && stores == old(stores)
      ensures dto.storeId !in StoreIds(old(stores)) ==>
        r == Err(NotFound("Store not found")) && unchanged(this)
      ensures dto.storeId in StoreIds(old(stores)) && StoreOf(old(stores), dto.storeId).ownerId == Some(userId) ==>
        r == Err(Forbidden("Store owners cannot rate their own store")) && unchanged(this)
      ensures r.Ok? <==>
        dto.storeId in StoreIds(old(stores)) && StoreOf(old(stores), dto.storeId).ownerId != Some(userId) &&
        Int32(dto.rating) && userId in UserIds(old(users))
      ensures r.Ok? ==>
        ratings == SetRating(old(ratings), userId, dto.storeId, dto.rating, freshId, old(clock)) &&
        clock == old(clock) + 1 && RatingByUserAndStore(ratings, userId, dto.storeId) == Some(r.value) &&
        r.value.userId == userId && r.value.storeId == dto.storeId && r.value.rating == dto.rating
      ensures r.Err? ==> unchanged(this)
    {
      var si := StoreIndex(stores, dto.storeId);
      if si.None? {
        return Err(NotFound("Store not found"));
      }
      var store := stores[si.value];
      if store.ownerId == Some(userId) {
        return Err(Forbidden("Store owners cannot rate their own store"));
      }
      if !Int32(dto.rating) {
        return Err(QueryFailed("integer out of range"));
      }
      var existing := RatingIndex(ratings, userId, dto.storeId);
      if existing.None? && userId !in UserIds(users) {
        return Err(QueryFailed("insert or update on table \"ratings\" violates foreign key constraint"));
      }
      if existing.Some? {
        RatedByExistingUser(users, stores, ratings, clock, userId, dto.storeId);
      }
      var next := SetRating(ratings, userId, dto.storeId, dto.rating, freshId, clock);
      SetRatingKeepsConsistent(users, stores, ratings, clock, userId, dto.storeId, dto.rating, freshId);
      SetRatingExactlyOne(ratings, userId, dto.storeId, dto.rating, freshId, clock);
      var found := RatingByUserAndStore(next, userId, dto.storeId);
      ratings, clock := next, clock + 1;
      r := Ok(found.value);
    }

    // ---- stores.service.ts ----

    /** `create(dto)`; `freshId` is the uuid of the new store. */
    method CreateStore(dto: CreateStoreDto, freshId: Id) returns (r: Result<Store>)
      requires Valid() && freshId !in StoreIds(stores)
      modifies this
      ensures Valid() && users == old(users) && ratings == old(ratings)
      ensures dto.ownerId !in UserIds(old(users)) ==> r == Err(NotFound("Store owner not found"))
      ensures dto.ownerId in UserIds(old(users)) && UserOf(old(users), dto.ownerId).role != STORE_OWNER ==>
        r == Err(BadRequest("User must be a store owner"))
      ensures (dto.ownerId in UserIds(old(users)) && UserOf(old(users), dto.ownerId).role == STORE_OWNER &&
               StoreOwnedBy(old(stores), dto.ownerId).Some?) ==> r == Err(BadRequest("User already owns a store"))
      ensures r.Ok? <==>
        dto.ownerId in UserIds(old(users)) && UserOf(old(users), dto.ownerId).role == STORE_OWNER &&
        StoreOwnedBy(old(stores), dto.ownerId).None? && StoreFitsColumns(NewStore(dto, freshId, old(clock)))
      ensures r.Ok? ==>
        r.value == NewStore(dto, freshId, old(clock)) && stores == old(stores) + [r.value] && clock == old(clock) + 1
      ensures r.Err? ==> unchanged(this)
    {
      var oi := UserIndex(users, dto.ownerId);
      if oi.None? {
        return Err(NotFound("Store owner not found"));
      }
      if users[oi.value].role != STORE_OWNER {
        return Err(BadRequest("User must be a store owner"));
      }
      if StoreOwnedBy(stores, dto.ownerId).Some? {
        return Err(BadRequest("User already owns a store"));
      }
      var s := NewStore(dto, freshId, clock);
      if !StoreFitsColumns(s) {
        return Err(QueryFailed("value too long for type character varying"));
      }
      AddStoreKeepsConsistent(users, stores, ratings, clock, s);
      stores := stores + [s];
      clock := clock + 1;
      r := Ok(s);
    }

    /** `update(id, dto)`: the supplied fields change, nothing else does. */
    method UpdateStore(id: Id, dto: UpdateStoreDto) returns (r: Result<Store>)
      requires Valid()
      modifies this
      ensures Valid() && users == old(users) && ratings == old(ratings) && clock == old(clock)
      ensures id !in StoreIds(old(stores)) ==> r == Err(NotFound("Store not found"))
      ensures id in StoreIds(old(stores)) && dto.name.Null? ==>
        r == Err(QueryFailed("null value in column \"name\" violates not-null constraint"))
      ensures r.Ok? <==>
        id in StoreIds(old(stores)) && !dto.name.Null? &&
        StoreFitsColumns(ApplyStoreUpdate(StoreOf(old(stores), id), dto).value)
      ensures r.Ok? ==>
        var i := StoreIndex(old(stores), id).value;
        Some(r.value) == ApplyStoreUpdate(old(stores)[i], dto) && stores == old(stores)[i := r.value]
      ensures r.Err? ==> unchanged(this)
    {
      var si := StoreIndex(stores, id);
      if si.None? {
        return Err(NotFound("Store not found"));
      }
      var updated := ApplyStoreUpdate(stores[si.value], dto);
      if updated.None? {
        return Err(QueryFailed("null value in column \"name\" violates not-null constraint"));
      }
      var s := updated.value;
      if !StoreFitsColumns(s) {
        return Err(QueryFailed("value too long for type character varying"));
      }
      ReplaceStoreKeepsConsistent(users, stores, ratings, clock, si.value, s);
      stores := stores[si.value := s];
      r := Ok(s);
    }

    /** `remove(id)`: the store goes, and so do its ratings (`onDelete: 'CASCADE'`). */
    method RemoveStore(id: Id) returns (r: Result<()>)
      requires Valid()
      modifies this
      ensures Valid() && users == old(users) && clock == old(clock)
      ensures r.Ok? <==> id in StoreIds(old(stores))
      ensures r.Err? ==> r.error == NotFound("Store not found") && unchanged(this)
      ensures r.Ok? ==> stores == StoresWithout(old(stores), id) && ratings == RatingsWithoutStore(old(ratings), id)
    {
      if StoreIndex(stores, id).None? {
        return Err(NotFound("Store not found"));
      }
      RemoveStoreKeepsConsistent(users, stores, ratings, clock, id);
      stores := StoresWithout(stores, id);
      ratings := RatingsWithoutStore(ratings, id);
      r := Ok(());
    }

    // ---- users.service.ts ----

    /** Saves a new user row, or reports the column-width failure the save would raise. */
    method InsertUser(u: User) returns (r: Result<User>)
      requires Valid() && u.id !in UserIds(users) && UserByEmail(users, u.email).None? && u.createdAt == clock
      modifies this
      ensures Valid() && stores == old(stores) && ratings == old(ratings)
      ensures r.Ok? <==> UserFitsColumns(u)
      ensures r.Ok? ==> r.value == u && users == old(users) + [u] && clock == old(clock) + 1
      ensures r.Err? ==> unchanged(this)
    {
      if !UserFitsColumns(u) {
        return Err(QueryFailed("value too long for type character varying"));
      }
      AddUserKeepsConsistent(users, stores, ratings, clock, u);
      users := users + [u];
      clock := clock + 1;
      r := Ok(u);
    }

    /** `create(dto)` (registration); `freshId` is the uuid of the new user. */
    method CreateUser(dto: CreateUserDto, hash: string -> string, freshId: Id) returns (r: Result<User>)
      requires Valid() && freshId !in UserIds(users)
      modifies this
      ensures Valid() && stores == old(stores) && ratings == old(ratings)
      ensures UserByEmail(old(users), dto.email).Some? ==>
        r == Err(BadRequest("User with this email already exists"))
      ensures r.Ok? <==>
        UserByEmail(old(users), dto.email).None? && UserFitsColumns(NewUser(dto, hash, freshId, old(clock)))
      ensures r.Ok? ==>
        r.value == NewUser(dto, hash, freshId, old(clock)) && users == old(users) + [r.value] && clock == old(clock) + 1
      ensures r.Err? ==> unchanged(this)
    {
      if UserByEmail(users, dto.email).Some? {
        return Err(BadRequest("User with this email already exists"));
      }
      r := InsertUser(NewUser(dto, hash, freshId, clock));
    }

    /** `createAdmin(dto)`: the saved admin plus the email and plain password it was given. */
    method CreateAdmin(dto: CreateAdminDto, hash: string -> string, freshId: Id) returns (r: Result<AdminCreated>)
      requires Valid() && freshId !in UserIds(users)
      modifies this
      ensures Valid() && stores == old(stores) && ratings == old(ratings)
      ensures UserByEmail(old(users), dto.email).Some? ==>
        r == Err(BadRequest("User with this email already exists"))
      ensures r.Ok? <==>
        UserByEmail(old(users), dto.email).None? && UserFitsColumns(NewAdmin(dto, hash, freshId, old(clock)))
      ensures r.Ok? ==>
        r.value.admin == NewAdmin(dto, hash, freshId, old(clock)) && users == old(users) + [r.value.admin] &&
        clock == old(clock) + 1 &&
        r.value.credentials == Credentials(dto.email, dto.password)
      ensures r.Err? ==> unchanged(this)
    {
      if UserByEmail(users, dto.email).Some? {
        return Err(BadRequest("User with this email already exists"));
      }
      var saved := InsertUser(NewAdmin(dto, hash, freshId, clock));
      match saved {
        case Err(e) => r := Err(e);
        case Ok(admin) => r := Ok(AdminCreated(admin, Credentials(dto.email, dto.password)));
      }
    }

    /** `update(id, dto)`: the supplied fields change, the password hashed when it is truthy. */
    method UpdateUser(id: Id, dto: UpdateUserDto, hash: string -> string) returns (r: Result<User>)
      requires Valid()
      modifies this
      ensures Valid() && stores == old(stores) && ratings == old(ratings) && clock == old(clock)
      ensures id !in UserIds(old(users)) ==> r == Err(NotFound("User not found"))
      ensures id in UserIds(old(users)) && EmailChangeClash(old(users), UserOf(old(users), id), dto) ==>
        r == Err(BadRequest("User with this email already exists"))
      ensures id in UserIds(old(users)) && !EmailChangeClash(old(users), UserOf(old(users), id), dto) &&
              NullsRequiredColumn(dto) ==>
        r == Err(QueryFailed("null value violates not-null constraint"))
      ensures r.Ok? <==>
        id in UserIds(old(users)) && !NullsRequiredColumn(dto) &&
        var i := UserIndex(old(users), id).value;
        var u := ApplyUserUpdate(old(users)[i], dto, hash).value;
        !EmailChangeClash(old(users), old(users)[i], dto) && UserFitsColumns(u) &&
        !EmailUsedElsewhere(old(users), i, u.email)
      ensures r.Ok? ==>
        var i := UserIndex(old(users), id).value;
        Some(r.value) == ApplyUserUpdate(old(users)[i], dto, hash) && users == old(users)[i := r.value]
      ensures r.Err? ==> unchanged(this)
    {
      var ui := UserIndex(users, id);
      if ui.None? {
        return Err(NotFound("User not found"));
      }
      var i := ui.value;
      if EmailChangeClash(users, users[i], dto) {
        return Err(BadRequest("User with this email already exists"));
      }
      var updated := ApplyUserUpdate(users[i], dto, hash);
      if updated.None? {
        return Err(QueryFailed("null value violates not-null constraint"));
      }
      var u := updated.value;
      if !UserFitsColumns(u) {
        return Err(QueryFailed("value too long for type character varying"));
      }
      if EmailUsedElsewhere(users, i, u.email) {
        return Err(QueryFailed("duplicate key value violates unique constraint"));
      }
      ReplaceUserKeepsConsistent(users, stores, ratings, clock, i, u);
      users := users[i := u];
      r := Ok(u);
    }

    /** `remove(id)`: the user's ratings cascade; a user who owns a store cannot be deleted,
        because `stores.ownerId` references users with no delete action. */
    method RemoveUser(id: Id) returns (r: Result<()>)
      requires Valid()
      modifies this
      ensures Valid() && stores == old(stores) && clock == old(clock)
      ensures id !in UserIds(old(users)) ==> r == Err(NotFound("User not found"))
      ensures r.Ok? <==> id in UserIds(old(users)) && StoreOwnedBy(old(stores), id).None?
      ensures r.Ok? ==> users == UsersWithout(old(users), id) && ratings == RatingsWithoutUser(old(ratings), id)
      ensures r.Err? ==> unchanged(this)
    {
      if UserIndex(users, id).None? {
        return Err(NotFound("User not found"));
      }
      if StoreOwnedBy(stores, id).Some? {
        return Err(QueryFailed("update or delete on table \"users\" violates foreign key constraint"));
      }
      RemoveUserKeepsConsistent(users, stores, ratings, clock, id);
      users := UsersWithout(users, id);
      ratings := RatingsWithoutUser(ratings, id);
      r := Ok(());
    }

    /** `updatePassword(userId, dto)`: only the password changes, and only when the current
        one verifies against the stored hash. */
    method UpdatePassword(userId: Id, dto: UpdatePasswordDto, compare: (string, string) -> bool,
                          hash: string -> string) returns (r: Result<()>)
      requires Valid()
      modifies this
      ensures Valid() && stores == old(stores) && ratings == old(ratings) && clock == old(clock)
      ensures userId !in UserIds(old(users)) ==> r == Err(NotFound("User not found"))
      ensures userId in UserIds(old(users)) && !compare(dto.currentPassword, UserOf(old(users), userId).password) ==>
        r == Err(BadRequest("Current password is incorrect"))
      ensures r.Ok? <==> userId in UserIds(old(users)) && compare(dto.currentPassword, UserOf(old(users), userId).password)
      ensures r.Ok? ==>
        var i := UserIndex(old(users), userId).value;
        users == old(users)[i := old(users)[i].(password := hash(dto.newPassword))]
      ensures r.Err? ==> unchanged(this)
    {
      var ui := UserIndex(users, userId);
      if ui.None? {
        return Err(NotFound("User not found"));
      }
      var i := ui.value;
      if !compare(dto.currentPassword, users[i].password) {
        return Err(BadRequest("Current password is incorrect"));
      }
      var u := users[i].(password := hash(dto.newPassword));
      assert !EmailUsedElsewhere(users, i, u.email) by {
        forall j | 0 <= j < |users| && j != i ensures users[j].email != u.email {
          if i < j { assert UserPair(users[i], users[j]); } else { assert UserPair(users[j], users[i]); }
        }
      }
      assert users[i] in users;
      ReplaceUserKeepsConsistent(users, stores, ratings, clock, i, u);
      users := users[i := u];
      r := Ok(());
    }

    /** `getUsersCount()`: the total, and for each role the number of its users (0 when a role
        has none), filled in from the GROUP BY rows. */
    method GetUsersCount() returns (total: nat, byRole: map<Role, nat>)
      ensures total == |users|
      ensures forall role: Role :: role in byRole && byRole[role] == CountRole(users, role)
      ensures byRole[ADMIN] + byRole[STORE_OWNER] + byRole[USER] == total
    {
      var all := users;
      total := |all|;
      var rows := GroupByRole(all);
      byRole := map[ADMIN := 0, STORE_OWNER := 0, USER := 0];
      var k := 0;
      while k < |rows|
        invariant 0 <= k <= |rows|
        invariant byRole == Fill(rows[..k])
      {
        FillStep(rows, k);
        byRole := byRole[rows[k].role := rows[k].count];
        k := k + 1;
      }
      assert rows[..k] == rows;
      forall role: Role ensures role in byRole && byRole[role] == CountRole(all, role) {
        FillGroups(all, role);
      }
      RoleCountsSum(all);
    }
  }
}
