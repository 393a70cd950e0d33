# Store-rating backend, modelled in Dafny

This project models the domain core of a store-rating web service built with NestJS and TypeORM. Users register, administrators manage users and stores, store owners look at the ratings of stores, and customers (role `USER`) rate stores 1 to 5.

The model has these parts:

- **Tables and invariants** (`entities.dfy`, `tables.dfy`). These hold the `users`, `stores` and `ratings` rows and their column constraints. The invariant `Consistent` holds what the database enforces:
  - unique ids;
  - unique email;
  - one rating per (user, store);
  - ratings reference existing users and stores;
  - a non-null store owner is an existing user;
  - at most one store per owner;
  - rows kept in creation order.
- **Services as an object** (`database.dfy`). `Database.Db` holds the three tables and the database clock. Its methods are the state-changing service operations:
  - `upsertRating`;
  - store `create`, `update` and `remove`;
  - user `create`, `createAdmin`, `update`, `remove` and `updatePassword`;
  - `getUsersCount`, which fills its per-role map in a loop.

  Every method keeps `Valid()` and states the whole new state (tables and clock), error paths included.
- **Row-level writes and their laws** (`upsert.dfy`, `tables.dfy`). These include the upsert's effect on the ratings table and the lemmas that each write keeps `Consistent`.
- **Queries** (`rating_queries.dfy`, `store_queries.dfy`, `user_queries.dfy`). These are pure functions:
  - paginated listings, newest first or sorted, with a pre-pagination total;
  - case-insensitive search;
  - the role filter;
  - averages as exact `real` means;
  - the lookups.

  Generic support lives in `seqs.dfy`, `paging.dfy` and `text.dfy`.
- **Input validation** (`dtos.dfy`, `password.dfy`). These are the class-validator constraints of the request bodies and `PASSWORD_REGEX`, as predicates.
- **Access policy** (`access.dfy`, `controllers.dfy`). Nest applies the guards first, then the global validation pipe, then the handler's inline check. Whether the pipe accepts the request's body and query is the flag `valid`. The policy exists twice:
  - `AuthorizeAsWritten`: the controllers as written;
  - `Authorize`: the intended guarding (see Findings).

Three things a request depends on become parameters:

- the actor that a valid access token yields;
- `hashPassword` and `comparePassword`;
- freshly generated uuids.

Where the service and the database disagree on what a write does, the model follows the code. A database rejection becomes a `QueryFailed` error, which Nest reports as HTTP 500:

- a value too long for its column;
- a clash on the unique email index;
- a foreign key with no delete action;
- an `int` out of range.

## Model

| member | source | states |
|---|---|---|
| Database.Db.UpsertRating | backend/src/ratings/ratings.service.ts:22-53 | Error paths, each leaving every table unchanged: an unknown store gives NotFound "Store not found"; the store's owner rating it gives Forbidden (an ownerless store never does); the database rejects a value outside the `int` range or a new row for an unknown user. Otherwise the ratings table becomes `SetRating` of the old one. The returned row is the pair's unique rating, carrying the given value. |
| Upsert.SetRatingExisting | backend/src/ratings/ratings.service.ts:38-44 | When the pair already has a rating, only its value changes. Its id, userId, storeId and createdAt stay, every other row stays, and no row is added. |
| Upsert.SetRatingNew | backend/src/ratings/ratings.service.ts:45-52 | When the pair has no rating, the old table is kept as a prefix and exactly one row (fresh id, userId, storeId, value, now) is appended. That row is then the pair's rating. |
| Upsert.SetRatingKeepsPairs | backend/src/ratings/rating.entity.ts:5-9 | The upsert keeps rating ids distinct, (userId, storeId) unique and rows in creation order. |
| Upsert.SetRatingExactlyOne | backend/src/ratings/ratings.service.ts:38-52 | After the upsert the pair has exactly one rating, and it holds the given value. |
| Upsert.SetRatingOthersUnchanged | backend/src/ratings/ratings.service.ts:38-52 | The ratings of all other (user, store) pairs are identical before and after. |
| Upsert.SetRatingIdempotent | backend/src/ratings/ratings.service.ts:38-52 | Upserting the same value a second time leaves the table as the first upsert left it. |
| RatingQueries.StoreRatings | backend/src/ratings/ratings.service.ts:55-86 | `meta` is (page, limit, number of the store's ratings); page and limit default to 1 and 10. Each item projects the rating's id, value and createdAt and its user's id, email and name. |
| RatingQueries.StoreRatingRowsFacts | backend/src/ratings/ratings.service.ts:58-65 | A page holds at most `limit` ratings. All of them belong to that store, strictly newest first. |
| RatingQueries.StoreRatingPagesComplete | backend/src/ratings/ratings.service.ts:62-64 | Concatenating pages 1..TotalPages gives all of the store's ratings, each exactly once. |
| RatingQueries.NewestWindowFacts | backend/src/ratings/ratings.service.ts:62-64 | ORDER BY createdAt DESC, then skip (page-1)*limit and take limit: at most `limit` rows, all from the input, strictly newest first. |
| RatingQueries.UserRatings | backend/src/ratings/ratings.service.ts:88-119 | The same meta, keyed on userId. Each item carries the store's id, name and address. |
| RatingQueries.UserRatingRowsFacts | backend/src/ratings/ratings.service.ts:91-98 | A page holds at most `limit` ratings. All of them were given by that user, strictly newest first. |
| RatingQueries.UserOf | backend/src/ratings/ratings.service.ts:60 | The joined `rating.user` is the users row with the rating's userId. |
| RatingQueries.StoreOf | backend/src/ratings/ratings.service.ts:93 | The joined `rating.store` is the stores row with the rating's storeId. |
| RatingQueries.RatingByUserAndStore | backend/src/ratings/ratings.service.ts:121-125 | The result is a rating of that pair, and null exactly when the pair has none. |
| RatingQueries.RatingByUserAndStoreUnique | backend/src/ratings/ratings.service.ts:121-125 | Under unique pairs, the lookup returns the one rating of the pair. |
| Database.Db.CreateStore | backend/src/stores/stores.service.ts:21-44 | Errors in the source's order: NotFound "Store owner not found", then BadRequest "User must be a store owner", then BadRequest "User already owns a store"; a row too wide for its columns fails in the database. Success happens exactly when all four checks pass, and appends exactly one store with the given name, address and owner, changing nothing else. |
| Tables.NewStore | backend/src/stores/stores.service.ts:42 | The created row carries the body's name, address and ownerId. |
| Database.Db.UpdateStore | backend/src/stores/stores.service.ts:110-114 | An unknown id gives NotFound. An explicit `name: null` breaks the NOT NULL column and fails in the database. A too-wide row fails the same way. Otherwise that one row is replaced by `ApplyStoreUpdate` of it. Nothing else changes. |
| Tables.ApplyStoreUpdate | backend/src/stores/stores.service.ts:112 | `Object.assign` copies every key the body carries: a given value replaces the stored one, an explicit `null` address clears it, and an absent key keeps it. A null name has no row (the column is NOT NULL). Id, owner and createdAt never change. |
| Database.Db.RemoveStore | backend/src/stores/stores.service.ts:116-119 | An unknown id gives NotFound. Otherwise the store is deleted together with all of its ratings, and users are untouched. |
| StoreQueries.StoreMatchesIff | backend/src/stores/stores.service.ts:54-59 | With a non-empty search, a store is kept iff the term is a case-insensitive substring of its name or its (non-null) address. |
| StoreQueries.NoSearchKeepsAll | backend/src/stores/stores.service.ts:54 | An absent or empty search keeps every store. |
| StoreQueries.ListStores | backend/src/stores/stores.service.ts:46-95 | `meta.total` counts every match before paging. Each item has its store's id, name, address and createdAt, its owner brief, its average and `totalRatings` equal to that store's rating count. |
| StoreQueries.StoreListRowsFacts | backend/src/stores/stores.service.ts:61-65 | A page holds at most `limit` matching stores, strictly newest first. |
| StoreQueries.ListStoresIgnoresSort | backend/src/stores/stores.service.ts:46-47 | The listing is the same whatever sortBy and sortOrder say. |
| StoreQueries.OwnerOf | backend/src/stores/stores.service.ts:73-78 | The owner brief is always an object. It holds the id, name and email of the user the store's ownerId names, and three undefined fields for an ownerless store. |
| StoreQueries.OwnerRow | backend/src/stores/stores.service.ts:100 | The loaded `owner` relation is the whole users row the ownerId names, present exactly when that user exists. |
| StoreQueries.StoreFindOne | backend/src/stores/stores.service.ts:97-108 | The store with that id, or NotFound "Store not found" exactly when there is none. The result carries the store's ratings and its whole owner row, password hash included. |
| StoreQueries.StoreFindOneRevealsPassword | backend/src/stores/stores.service.ts:97-108 | As written, the returned owner's password is the stored hash, and changing that hash changes the response. |
| StoreQueries.StoreFindOnePublic | backend/src/stores/stores.service.ts:97-108 | The same lookup and errors, with the owner projected to its columns without the password. |
| StoreQueries.StoreFindOnePublicHidesPassword | backend/src/stores/stores.controller.ts:32-35 | The public detail is the same whatever any user's stored password hash is. |
| StoreQueries.StoresCount | backend/src/stores/stores.service.ts:121-124 | With distinct ids, the row count equals the number of distinct store ids. |
| StoreQueries.DistinctStoreIds | backend/src/stores/store.entity.ts:7-8 | A table with distinct ids has as many ids as rows. |
| StoreQueries.Mean | backend/src/stores/stores.service.ts:126-134 | The mean is 0 for no rows and otherwise satisfies mean × count = sum. With values in 1..5 a non-empty mean lies in [1, 5]. |
| StoreQueries.RatingSumBounds | backend/src/ratings/dto/upsert-rating.dto.ts:8-9 | With values in 1..5, the sum of n values lies between n and 5n. |
| StoreQueries.AverageRating | backend/src/stores/stores.service.ts:126-134 | It is 0 for a store without ratings, and in [1, 5] when its values are in 1..5. |
| StoreQueries.StoreAverageRating | backend/src/stores/stores.service.ts:136-148 | `total` is the store's rating count and `average` its average. An unknown store gives (0, 0). |
| StoreQueries.AverageOfThree | backend/src/stores/stores.service.ts:136-148 | Ratings 5, 3 and 4 give an average of 4.0 and a total of 3. |
| Database.Db.CreateUser | backend/src/users/users.service.ts:18-35 | A taken email gives BadRequest "User with this email already exists" and changes nothing. Otherwise exactly one user is appended (or the database rejects a too-wide row). |
| Tables.NewUser | backend/src/users/users.service.ts:27-32 | The created row has role USER unless a role is supplied, and stores `hash(password)`, not the input. |
| Database.Db.InsertUser | backend/src/users/users.service.ts:28-34 | The save appends the row exactly when it fits the columns. |
| Database.Db.CreateAdmin | backend/src/users/users.service.ts:37-62 | A taken email gives BadRequest. Otherwise one ADMIN row is appended, and the result carries the input email and plain password as credentials. |
| Tables.NewAdmin | backend/src/users/users.service.ts:46-51 | The created row has role ADMIN whatever the body says, and a hashed password. |
| UserQueries.ListUsers | backend/src/users/users.service.ts:64-106 | A non-empty `filterBy` that names no role fails in the database's enum cast, and only that fails. Otherwise `meta.total` counts the matches before paging, and items are the selected rows without their password. |
| UserQueries.RoleNamed | backend/src/users/users.service.ts:80-82 | A string is cast to the role whose enum label it is, and to nothing when it is no label. |
| UserQueries.FilterRoleIff | backend/src/users/users.service.ts:80-82 | With a valid filter, a user passes it iff the filter is absent or empty, or names the user's role. |
| UserQueries.UserListRowsFacts | backend/src/users/users.service.ts:73-88 | A page holds at most `limit` users. Each matches the search on name, email or address and the exact role filter, in the asked order (default createdAt DESC). |
| UserQueries.SecondPageOfFifteen | backend/src/users/users.service.ts:84-88 | With 15 matches, page 2 of limit 10 holds 5 users and reports a total of 15. |
| UserQueries.SortUsers | backend/src/users/users.service.ts:85 | Sorting gives a permutation of its input, ascending on the chosen column. |
| UserQueries.InsertSorted | backend/src/users/users.service.ts:85 | Inserting into a list sorted on the chosen column keeps it sorted. |
| UserQueries.InsertMultiset | backend/src/users/users.service.ts:85 | Inserting adds exactly that user and loses or duplicates no other. |
| UserQueries.OrderUsersFacts | backend/src/users/users.service.ts:85 | ORDER BY gives a permutation, ascending for ASC and descending for DESC. |
| UserQueries.UserLeTotal | backend/src/users/users.service.ts:85 | Any two users are comparable on each sortable column. |
| UserQueries.UserLeTransitive | backend/src/users/users.service.ts:85 | The column order is transitive. |
| UserQueries.View | backend/src/users/users.service.ts:91-99 | A listed user keeps every field except the password. |
| UserQueries.UserFindOne | backend/src/users/users.service.ts:108-118 | The user with that id, or NotFound "User not found" exactly when there is none. |
| UserQueries.FindByEmailUnique | backend/src/users/users.service.ts:120-124 | Under unique emails, `findByEmail` returns the one user with that email. |
| Database.Db.UpdateUser | backend/src/users/users.service.ts:126-145 | An unknown id gives NotFound. A truthy new email that differs from the current one and is taken gives BadRequest; keeping one's own email is allowed. Next, an explicit `null` for name, email, password or role breaks a NOT NULL column and fails in the database, as does a too-wide row. Otherwise that one row becomes `ApplyUserUpdate` of it and nothing else changes. |
| Tables.ApplyUserUpdate | backend/src/users/users.service.ts:139-143 | Only keys the body carries change: a given password is hashed when non-empty, a given role replaces the role, an explicit `null` address clears it, and id and createdAt stay. A null in a NOT NULL column leaves no row. |
| Tables.EmailCheckLeavesOnlyEmpty | backend/src/users/users.service.ts:129-137 | Once the service's email check passes, only an empty new email can still clash with another user. |
| Database.Db.RemoveUser | backend/src/users/users.service.ts:147-150 | An unknown id gives NotFound. A user who owns a store cannot be deleted. Otherwise the user and all of their ratings are deleted, and stores are untouched. |
| Database.FillFacts | backend/src/users/users.service.ts:162-170 | Every role is a key of the filled map: 0 when no grouped row names it, otherwise the count of the last row that names it. |
| Database.FillGroups | backend/src/users/users.service.ts:162-170 | Filling from the GROUP BY rows gives every role exactly its number of users. |
| Database.Db.GetUsersCount | backend/src/users/users.service.ts:152-173 | `total` is the row count. `byRole` has an entry for every role, equal to that role's count (0 when absent from the GROUP BY), and the entries sum to `total`. |
| UserQueries.GroupByRole | backend/src/users/users.service.ts:155-160 | There is one row per occurring role, with distinct roles and the right counts. |
| UserQueries.RoleCountsSum | backend/src/users/user.entity.ts:23-29 | Every user has exactly one role, so the three counts sum to the number of users. |
| Database.Db.UpdatePassword | backend/src/users/users.service.ts:175-186 | An unknown user gives NotFound. A current password that does not verify gives BadRequest "Current password is incorrect" and changes nothing. Otherwise only that user's password becomes `hash(newPassword)`. |
| Tables.AddUserKeepsConsistent | backend/src/users/user.entity.ts:14-15 | Appending a user with a fresh id and an unused email keeps the tables consistent. |
| Tables.ReplaceUserKeepsConsistent | backend/src/users/users.service.ts:143-144 | Replacing a user row with the same id and an email no other row uses keeps the tables consistent. |
| Tables.AddStoreKeepsConsistent | backend/src/stores/stores.service.ts:34-43 | Appending a store whose owner exists and owns no store keeps "at most one store per owner" and the rest of the invariant. |
| Tables.ReplaceStoreKeepsConsistent | backend/src/stores/stores.service.ts:112-113 | Replacing a store row with the same id, owner and createdAt keeps the tables consistent. |
| Tables.SetRatingKeepsConsistent | backend/src/ratings/rating.entity.ts:6-18 | An upsert by an existing user on an existing store keeps the tables consistent. |
| Tables.RemoveStoreKeepsConsistent | backend/src/ratings/rating.entity.ts:30-32 | Deleting a store with its ratings leaves no rating pointing at a missing store. |
| Tables.RemoveUserKeepsConsistent | backend/src/ratings/rating.entity.ts:26-28 | Deleting a user who owns no store, with their ratings, leaves no dangling reference. |
| Tables.SetRatingKeepsRange | backend/src/ratings/dto/upsert-rating.dto.ts:7-10 | Upserting a value in 1..5 keeps every stored value in 1..5. |
| Entities.UserIndex | backend/src/users/users.service.ts:109-111 | Finds a row with the id, and finds none exactly when the id is absent. |
| Entities.StoreIndex | backend/src/stores/stores.service.ts:98-101 | Finds a row with the id, and finds none exactly when the id is absent. |
| Entities.UserByEmail | backend/src/users/users.service.ts:19-21 | Finds a user with that email, or none when no user has it. |
| Entities.StoreOwnedBy | backend/src/stores/stores.service.ts:34-36 | Finds a store with that owner, or none when the user owns none. |
| Entities.RatingIndex | backend/src/ratings/ratings.service.ts:38-40 | Gives the first row of the pair, or none when the pair has no rating. |
| Entities.RatingsWithoutStore | backend/src/ratings/rating.entity.ts:30-32 | Exactly the ratings of other stores remain. |
| Entities.RatingsWithoutUser | backend/src/ratings/rating.entity.ts:26-28 | Exactly the ratings by other users remain. |
| Entities.UsersWithout | backend/src/users/users.service.ts:149 | Exactly the other users remain. |
| Entities.StoresWithout | backend/src/stores/stores.service.ts:118 | Exactly the other stores remain. |
| Paging.Window | backend/src/ratings/ratings.service.ts:63-64 | skip (page-1)*limit, take limit: the length is min(limit, rows left), and element k is row offset+k. |
| Paging.WindowFacts | backend/src/stores/stores.service.ts:63-64 | A window holds at most `limit` rows, drawn from the input and in the input's order. |
| Paging.PagesArePrefix | backend/src/ratings/ratings.service.ts:63-64 | Pages 1..n together are exactly the first n·limit rows, so no row is repeated or skipped. |
| Paging.PagesComplete | backend/src/stores/stores.service.ts:61-65 | Pages 1..ceil(total/limit) concatenate back to the whole ordered match list. |
| Passwords.ValidatePasswordIff | backend/src/common/utils/regex.util.ts:1-5 | `validatePassword(p)` holds iff p has 8..16 characters, an uppercase letter, one of the twenty special characters of the regex's class, and only letters, ASCII digits and those special characters. |
| Passwords.LookaheadIff | backend/src/common/utils/regex.util.ts:1 | A lookahead `(?=.*[C])` holds iff some character of class C occurs before the first line terminator. |
| Passwords.ValidPasswordLength | backend/src/common/utils/regex.util.ts:1 | A valid password has between 8 and 16 characters. |
| Text.ContainsIff | backend/src/stores/stores.service.ts:56-57 | `%term%` matching holds iff the term occurs at some position. |
| Text.LexTotal | backend/src/users/users.service.ts:85 | The string order is total. |
| Text.LexTransitive | backend/src/users/users.service.ts:85 | The string order is transitive. |
| Dtos.PasswordFieldIsRegex | backend/src/auth/dto/update-password.dto.ts:8-14 | `@MinLength(8) @MaxLength(16) @Matches(PASSWORD_REGEX)` accepts exactly what the regex accepts, so the length decorators are redundant. |
| Dtos.ValidUpdateUserNotEmpty | backend/src/users/dto/update-user.dto.ts:12-23 | A valid update body never carries an empty email or password. |
| Dtos.ValidCreateStoreFits | backend/src/stores/dto/create-store.dto.ts:4-14 | A store built from a valid creation body fits the stores columns. |
| Dtos.ValidCreateAdminFits | backend/src/users/dto/create-admin.dto.ts:5-24 | An admin built from a valid body fits the users columns when its email fits 120 characters. |
| Dtos.AstralNameCountsTwice | backend/src/users/dto/create-admin.dto.ts:5-8 | `@MinLength(20)` counts UTF-16 code units: 11 emoji count 22 and pass, though the name has 11 characters. |
| Text.JsLengthBounds | backend/src/users/dto/create-admin.dto.ts:5-8 | A string's JavaScript length lies between its character count and twice that. |
| Text.JsLengthNoAstral | backend/src/common/utils/regex.util.ts:1 | Without characters beyond the Basic Multilingual Plane, the JavaScript length is the character count. |
| Dtos.AsWrittenListUsersOnlyBareQuery | backend/src/users/users.controller.ts:28-32 | Validated against both query DTOs with `forbidNonWhitelisted`, only a query with no parameters is accepted; `page` and `limit` are refused. |
| Dtos.ListUsersQueryAcceptedIff | backend/src/common/dto/sort-filter.dto.ts:3-19 | One query DTO declaring both sets of parameters accepts exactly the queries made of them, including the admin list's page, limit, search and filterBy. |
| Dtos.EmailLongerThanColumn | backend/src/users/user.entity.ts:14-15 | Some address accepted as an email is longer than the 120-character column. |
| Access.Guards | backend/src/ratings/ratings.controller.ts:14-16 | A guarded route passes iff a token is present and its role is among the declared roles (or none are declared). |
| Access.UpsertOnlyUser | backend/src/ratings/ratings.controller.ts:14-19 | Only a USER with a valid body may upsert. No token gives Unauthorized and STORE_OWNER and ADMIN get Forbidden, whatever the body; a USER's invalid body gets BadRequest. |
| Access.StoreRatingsOwnerOrAdmin | backend/src/ratings/ratings.controller.ts:21-33 | A store's ratings are readable iff the role is STORE_OWNER or ADMIN and the query is valid, for any store alike. |
| Access.UserRatingsSelfOrAdmin | backend/src/ratings/ratings.controller.ts:35-47 | A user's ratings are readable iff the query is valid and the actor is an ADMIN, or a USER asking for their own. A STORE_OWNER gets Forbidden; a USER asking for another's gets 500 from the handler, or BadRequest first when the query is invalid. |
| Access.StoreWritesAdminOnly | backend/src/stores/stores.controller.ts:13-30 | Creating, counting, updating and deleting stores is allowed iff the actor is an ADMIN and the body is valid; no token gives Unauthorized before the body is looked at. |
| Access.StoreReadsPublic | backend/src/stores/stores.controller.ts:20-40 | Listing stores, reading one, reading its average and registering are allowed for anyone, with or without a token; only an invalid body or query is refused. |
| Access.GuardedControllersAgree | backend/src/stores/stores.controller.ts:42-54 | On the guarded routes the as-written and the intended decisions coincide. |
| Access.AsWrittenUserAdminRoutesOpen | backend/src/users/users.controller.ts:21-44 | As written, createAdmin, list, count, get and delete of users are allowed without any token; only the pipe can refuse them. |
| Access.AsWrittenPatchUserUnreachable | backend/src/users/users.controller.ts:46-52 | As written, a profile update never reaches the service: an invalid body gets the pipe's BadRequest, and a valid one HTTP 500 from the handler, whatever token is sent. |
| Access.UserAdminRoutesAdminOnly | backend/src/users/users.controller.ts:21-58 | Guarded as intended, those users routes are allowed iff the actor is an ADMIN and the request is valid. No token gives Unauthorized and another role Forbidden, before validation. |
| Access.PatchUserAdminOrSelf | backend/src/users/users.controller.ts:46-52 | Guarded as intended, a profile update is allowed iff the body is valid and the actor is an ADMIN or the user themself. No token gives Unauthorized; a token with an invalid body gets BadRequest before the handler's check; a valid body from anyone else gets 500 from that check. |
| Access.AnonymousOnlyPublic | backend/src/users/users.controller.ts:15-19 | Without a token, exactly the store reads and registration get past the guards, and every other route gets Unauthorized whatever the body. |
| Controllers.HandlePutRating | backend/src/ratings/ratings.controller.ts:14-19 | The guards come first, then body validation, then the upsert; a refusal returns its error and changes nothing. Once allowed, the call succeeds iff the store exists, is not the actor's own and the actor exists. On success the ratings table becomes `SetRating` of the old one for the token's USER, users and stores are unchanged and the clock advances by one; any error changes nothing. Upserts through the route keep all stored values in 1..5. |
| Controllers.HandlePatchUser | backend/src/users/users.controller.ts:46-52 | The guards come first, then validation of the body, then the ADMIN-or-self check, then the service; a refusal returns its error and changes nothing. Any success was requested by an ADMIN or the user themself with a valid body. The users table then has exactly that row replaced by `ApplyUserUpdate` of it, and stores, ratings and clock are unchanged; any error changes nothing. |
| Controllers.SelfUpdateCanSetRole | backend/src/users/dto/update-user.dto.ts:30-32 | An ordinary USER's own valid update body may set `role: ADMIN` and is allowed, and the stored role becomes ADMIN. |

## Left out

- I/O and libraries are parameters: HTTP transport, JWT signing and verification, cookies, bcrypt (`hash` and `compare`), uuid generation (fresh ids) and the database clock (`clock`).
- `updatedAt` is not modelled. `createdAt` is a strictly increasing counter, so two rows never share a timestamp, and ORDER BY createdAt DESC is the reversed insertion order.
- Concurrency is not modelled. Each operation is an atomic step, so the find-then-save races of the upsert and the email check cannot happen here.
- Floating point is not modelled: SQL `AVG`, `parseFloat` and `parseInt` become exact `real` arithmetic on integer sums.
- Search is plain case-insensitive substring over ASCII case folding, with no Unicode case mapping. `%` and `_` inside the term are not treated as wildcards. A null address never matches, and an empty search term means no filter.
- Sorting users by name or email uses character-code order, not the database collation. Ties come in insertion order for ASC and newest first for DESC, since DESC reverses a stable ascending sort; SQL leaves their order unspecified.
- `sortBy` is an enumeration of the three known columns. The source interpolates any string into ORDER BY.
- Validation of uuid syntax at the database is not modelled. Ids are opaque strings, so a malformed id simply is not found.
- The messages of `QueryFailed` errors are illustrative, not the database's exact text.
- class-validator's per-field error messages are not modelled. A refused body or query is the flag `valid` being false, answered with BadRequest "Bad Request".
- JavaScript string length (`@MinLength`, `@MaxLength`) counts UTF-16 code units: a character beyond the Basic Multilingual Plane counts two. Column widths (`varchar(n)`) count characters. Lone surrogates are not modelled.
- The query-string whitelist is modelled only on the users listing, as the set of parameter names; `PaginationQueryDto`'s `@Type` and `@Min` validators are not part of this model.
- `@IsEmail()` is reduced to "a non-empty local part, an `@`, a non-empty domain".
- The `CurrentUser` decorator, the `RolesGuard` and `JwtAuthGuard` classes, `PaginationQueryDto` and `CreateUserDto`'s validators are not part of this model. The guards are modelled as "no or invalid token: Unauthorized" and "role not among the declared roles: Forbidden". `@CurrentUser()` is modelled as the request's authenticated user, absent when no guard ran.
- The effective default sort order is not modelled. A missing `sortOrder` in the service means DESC, and the model follows the service. `SortFilterDto` initialises the field to 'ASC', which the validation pipe's transform then supplies.
- The other controller routes (`getStoreRatings`, `getUserRatings`, store and user reads) are modelled by the access decision plus the query functions, not as handler methods.
- The code, and so the model, has these limits:
  - store creation links an existing owner and does not create one;
  - the store listing has no sort by average rating;
  - a duplicate email or store is BadRequest, not a separate Conflict error;
  - a rating outside 1..5 is refused only by the request validation, not by the service.

## Findings

| source | as written | input that shows it | evidently intended | confidence | as-written member | corrected member |
|---|---|---|---|---|---|---|
| backend/src/users/users.controller.ts:21-58 | The `@Roles(UserRole.ADMIN)` routes carry no `@UseGuards(JwtAuthGuard, RolesGuard)`, and no global guard is registered, so nothing reads the metadata. The profile update reads `@CurrentUser()`, which no guard has filled. | An anonymous `POST /users/admin` creates an administrator; an anonymous `DELETE /users/:id` deletes a user; every `PATCH /users/:id` with a valid body fails with HTTP 500 (an invalid one gets 400 from the pipe first). | Every route that declares roles, and the profile update, is guarded like the stores and ratings routes: users routes need ADMIN, and the update needs ADMIN or self. | medium, not executed | Access.AsWrittenUserAdminRoutesOpen | Access.UserAdminRoutesAdminOnly |
| backend/src/stores/stores.service.ts:97-108 | `GET /stores/:id` is public (backend/src/stores/stores.controller.ts:32-35) and returns the store with `relations: ['owner', 'ratings']`; the users entity has no `select: false` on `password` and no serializer strips it. | An anonymous `GET /stores/<id>` of a store with an owner returns that owner's bcrypt password hash and email. | The owner is returned without its password, as the users listing already returns users. | high, not executed | StoreQueries.StoreFindOneRevealsPassword | StoreQueries.StoreFindOnePublicHidesPassword |
| backend/src/users/users.controller.ts:28-32 | `findAll` binds `@Query() PaginationQueryDto` and `@Query() SortFilterDto`; with `whitelist` and `forbidNonWhitelisted` (backend/src/main.ts:27-31) the pipe validates the whole query against each, and each refuses the other's parameters. | `GET /users?page=1&limit=10`, which the admin list (frontend/src/api/userApi.ts:15-22) always sends, is refused with 400. | One query DTO declaring page, limit, sortBy, sortOrder, search and filterBy. | medium, not executed | Dtos.AsWrittenListUsersOnlyBareQuery | Dtos.ListUsersQueryAcceptedIff |
