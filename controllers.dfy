/** Request handling in the order Nest applies it: guards, then the validation pipe on the body,
    then the handler's own check, then the service. */
module Controllers {
  import opened Common
  import opened Entities
  import opened Dtos
  import opened Access
  import opened RatingQueries
  import opened Upsert
  import opened Tables
  import opened StoreQueries
  import opened Database

  /** `PUT /ratings`: the acting user is the token's actor; the body must pass validation. */
  method HandlePutRating(db: Db, token: Option<Actor>, dto: UpsertRatingDto, freshId: Id) returns (r: Result<Rating>)
    requires db.Valid() && freshId !in RatingIds(db.ratings)
    modifies db
    ensures db.Valid()
    ensures var d := Authorize(PutRating, token, ValidUpsertRating(dto));
      d.Deny? ==> r == Err(d.error) && unchanged(db)
    ensures Authorize(PutRating, token, ValidUpsertRating(dto)).Allow? ==>
      token.Some? && token.value.role == USER &&
      (r.Ok? <==>
         dto.storeId in StoreIds(old(db.stores)) && StoreOf(old(db.stores), dto.storeId).ownerId != Some(token.value.id) &&
         token.value.id in UserIds(old(db.users)))
    ensures r.Ok? ==>
      token.Some? && token.value.role == USER && r.value.userId == token.value.id &&
      r.value.storeId == dto.storeId && r.value.rating == dto.rating && 1 <= r.value.rating <= 5 &&
      db.ratings == SetRating(old(db.ratings), token.value.id, dto.storeId, dto.rating, freshId, old(db.clock)) &&
      db.users == old(db.users) && db.stores == old(db.stores) && db.clock == old(db.clock) + 1
    ensures r.Err? ==> unchanged(db)
    ensures ValuesInRange(old(db.ratings)) ==> ValuesInRange(db.ratings)
  {
    var d := Authorize(PutRating, token, ValidUpsertRating(dto));
    if d.Deny? {
      return Err(d.error);
    }
    ghost var before := db.ratings;
    ghost var now := db.clock;
    r := db.UpsertRating(token.value.id, dto, freshId);
    if r.Ok? && ValuesInRange(before) {
      SetRatingKeepsRange(before, token.value.id, dto.storeId, dto.rating, freshId, now);
    }
  }

  /** `PATCH /users/:id` under the intended guarding: the guards, then validation of the body,
      then the ADMIN-or-self check, then the service. */
  method HandlePatchUser(db: Db, token: Option<Actor>, id: Id, dto: UpdateUserDto, hash: string -> string)
    returns (r: Result<User>)
    requires db.Valid()
    modifies db
    ensures db.Valid()
    ensures var d := Authorize(PatchUser(id), token, ValidUpdateUser(dto));
      d.Deny? ==> r == Err(d.error) && unchanged(db)
    ensures r.Ok? ==>
      token.Some? && (token.value.role == ADMIN || token.value.id == id) && ValidUpdateUser(dto) &&
      r.value.id == id && id in UserIds(old(db.users)) &&
      var i := UserIndex(old(db.users), id).value;
      Some(r.value) == ApplyUserUpdate(old(db.users)[i], dto, hash) && db.users == old(db.users)[i := r.value] &&
      db.stores == old(db.stores) && db.ratings == old(db.ratings) && db.clock == old(db.clock)
    ensures r.Err? ==> unchanged(db)
  {
    var d := Authorize(PatchUser(id), token, ValidUpdateUser(dto));
    if d.Deny? {
      return Err(d.error);
    }
    r := db.UpdateUser(id, dto, hash);
  }

  /** The self-update path does not restrict fields: an ordinary USER's own, valid update body
      may carry `role: ADMIN`, and the stored row then has that role. */
  lemma SelfUpdateCanSetRole(u: User, hash: string -> string)
    ensures var dto := UpdateUserDto(Absent, Absent, Absent, Absent, Given(ADMIN));
      ValidUpdateUser(dto) &&
      Authorize(PatchUser(u.id), Some(Actor(u.id, USER)), ValidUpdateUser(dto)) == Allow &&
      ApplyUserUpdate(u, dto, hash) == Some(u.(role := ADMIN))
  {
  }
}
