/** The read side of the users service: listing with search, role filter and sort; lookups; counts. */
module UserQueries {
  import opened Common
  import opened Seqs
  import opened Paging
  import opened Entities
  import opened Text

  /** The columns `sortBy` may name (it is interpolated into `ORDER BY user.<sortBy>`). */
  datatype UserSortBy = CreatedAt | Name | Email

  datatype UserListQuery = UserListQuery(page: Option<Pos>, limit: Option<Pos>,
                                         sortBy: Option<UserSortBy>, sortOrder: Option<SortOrder>,
                                         search: Option<string>, filterBy: Option<string>)

  function PagingOf(q: UserListQuery): PageQuery { PageQuery(q.page, q.limit) }

  /** A listed user: every column except the password. */
  datatype UserView = UserView(id: Id, name: string, email: string, address: Option<string>,
                               role: Role, createdAt: nat)

  function View(u: User): (v: UserView)
    ensures v.id == u.id && v.name == u.name && v.email == u.email
    ensures v.address == u.address && v.role == u.role && v.createdAt == u.createdAt
  {
    UserView(u.id, u.name, u.email, u.address, u.role, u.createdAt)
  }

  /** `name ILIKE :search OR email ILIKE :search OR address ILIKE :search` (when the term is
      non-empty), and `role = :filterBy` (when a role is given). */
  predicate UserMatches(u: User, search: Option<string>, filterBy: Option<Role>)
  {
    (match (if search.Some? && search.value != "" then search else None)
     case None => true
     case Some(t) => ILike(u.name, t) || ILike(u.email, t) || (u.address.Some? && ILike(u.address.value, t)))
    && (filterBy.None? || u.role == filterBy.value)
  }

  function MatchingUsers(users: seq<User>, search: Option<string>, filterBy: Option<Role>): seq<User>
  {
    Filter(users, (u: User) => UserMatches(u, search, filterBy))
  }

  /** The string values of the `UserRole` enum, which is also the database's enum type. */
  function RoleName(r: Role): string
  {
    match r
    case ADMIN => "ADMIN"
    case STORE_OWNER => "STORE_OWNER"
    case USER => "USER"
  }

  /** The role a string spells, if any: the cast Postgres applies to the `:filterBy` parameter. */
  function RoleNamed(s: string): (r: Option<Role>)
    ensures r.Some? ==> RoleName(r.value) == s
    ensures r.None? ==> forall role: Role :: RoleName(role) != s
  {
    if s == "ADMIN" then Some(ADMIN)
    else if s == "STORE_OWNER" then Some(STORE_OWNER)
    else if s == "USER" then Some(USER)
    else None
  }

  /** `if (filterBy)`: an absent or empty filter adds no condition. */
  function ActiveFilter(q: UserListQuery): Option<string>
  {
    if q.filterBy.Some? && q.filterBy.value != "" then q.filterBy else None
  }

  /** A filter string that spells no role: Postgres refuses to cast it to the role enum. */
  predicate InvalidFilter(q: UserListQuery)
  {
    ActiveFilter(q).Some? && RoleNamed(ActiveFilter(q).value).None?
  }

  /** The role `user.role = :filterBy` selects once the cast succeeds. */
  function FilterRole(q: UserListQuery): Option<Role>
  {
    match ActiveFilter(q)
    case None => None
    case Some(s) => RoleNamed(s)
  }

  // ---- ordering ----

  /** The ascending order on the chosen column (strings by character code). */
  predicate UserLe(a: User, b: User, key: UserSortBy)
  {
    match key
    case CreatedAt => a.createdAt <= b.createdAt
    case Name => LexLe(a.name, b.name)
    case Email => LexLe(a.email, b.email)
  }

  lemma UserLeTotal(a: User, b: User, key: UserSortBy)
    ensures UserLe(a, b, key) || UserLe(b, a, key)
  {
    match key
    case CreatedAt =>
    case Name => LexTotal(a.name, b.name);
    case Email => LexTotal(a.email, b.email);
  }

  lemma UserLeTransitive(a: User, b: User, c: User, key: UserSortBy)
    requires UserLe(a, b, key) && UserLe(b, c, key)
    ensures UserLe(a, c, key)
  {
    match key
    case CreatedAt =>
    case Name => LexTransitive(a.name, b.name, c.name);
    case Email => LexTransitive(a.email, b.email, c.email);
  }

  ghost predicate SortedBy(s: seq<User>, key: UserSortBy)
  {
    forall i, j :: 0 <= i < j < |s| ==> UserLe(s[i], s[j], key)
  }

  /** Places `x` before the first element it does not follow. */
  function Insert(x: User, s: seq<User>, key: UserSortBy): seq<User>
  {
    if s == [] then [x]
    else if UserLe(x, s[0], key) then [x] + s
    else [s[0]] + Insert(x, s[1..], key)
  }

  /** Inserting adds exactly `x`. */
  lemma {:induction false} InsertMultiset(x: User, s: seq<User>, key: UserSortBy)
    ensures multiset(Insert(x, s, key)) == multiset(s) + multiset{x}
  {
    if s != [] && !UserLe(x, s[0], key) {
      InsertMultiset(x, s[1..], key);
      assert s == [s[0]] + s[1..];
      assert multiset(s) == multiset{s[0]} + multiset(s[1..]);
      var rest := Insert(x, s[1..], key);
      assert Insert(x, s, key) == [s[0]] + rest;
      assert multiset([s[0]] + rest) == multiset{s[0]} + multiset(rest);
    }
  }

  /** A sorted list with an element in front that precedes all of it is sorted. */
  lemma SortedCons(a: User, s: seq<User>, key: UserSortBy)
    requires SortedBy(s, key)
    requires forall k :: 0 <= k < |s| ==> UserLe(a, s[k], key)
    ensures SortedBy([a] + s, key)
  {
    var r := [a] + s;
    forall i, j | 0 <= i < j < |r| ensures UserLe(r[i], r[j], key) {
      assert r[j] == s[j - 1];
      if i > 0 { assert r[i] == s[i - 1]; }
    }
  }

  lemma SortedTail(s: seq<User>, key: UserSortBy)
    requires SortedBy(s, key) && s != []
    ensures SortedBy(s[1..], key)
  {
    var tail := s[1..];
    forall i, j | 0 <= i < j < |tail| ensures UserLe(tail[i], tail[j], key) {
      assert tail[i] == s[i + 1] && tail[j] == s[j + 1];
    }
  }

  /** Inserting into a sorted list keeps it sorted. */
  lemma {:induction false} InsertSorted(x: User, s: seq<User>, key: UserSortBy)
    requires SortedBy(s, key)
    ensures SortedBy(Insert(x, s, key), key)
  {
    if s == [] {
    } else if UserLe(x, s[0], key) {
      forall k | 0 <= k < |s| ensures UserLe(x, s[k], key) {
        if k > 0 { UserLeTransitive(x, s[0], s[k], key); }
      }
      SortedCons(x, s, key);
    } else {
      UserLeTotal(x, s[0], key);
      var tail := s[1..];
      SortedTail(s, key);
      InsertSorted(x, tail, key);
      InsertMultiset(x, tail, key);
      var rest := Insert(x, tail, key);
      forall k | 0 <= k < |rest| ensures UserLe(s[0], rest[k], key) {
        assert rest[k] in multiset(rest);
        if rest[k] != x {
          assert rest[k] in multiset(tail);
          var m :| 0 <= m < |tail| && tail[m] == rest[k];
          assert s[m + 1] == rest[k];
        }
      }
      SortedCons(s[0], rest, key);
    }
  }

  /** `ORDER BY user.<by> ASC`, as an insertion sort. */
  function SortUsers(s: seq<User>, key: UserSortBy): (r: seq<User>)
    ensures SortedBy(r, key)
    ensures multiset(r) == multiset(s)
  {
    if s == [] then []
    else
      assert s == [s[0]] + s[1..];
      var sorted := SortUsers(s[1..], key);
      InsertSorted(s[0], sorted, key);
      InsertMultiset(s[0], sorted, key);
      Insert(s[0], sorted, key)
  }

  /** `ORDER BY user.<by> <order>`, defaulting to createdAt DESC. */
  function OrderUsers(s: seq<User>, key: UserSortBy, order: SortOrder): seq<User>
  {
    if order == ASC then SortUsers(s, key) else Reverse(SortUsers(s, key))
  }

  /** The ordered result is a permutation of its input, ascending or descending as asked. */
  lemma OrderUsersFacts(s: seq<User>, key: UserSortBy, order: SortOrder)
    ensures multiset(OrderUsers(s, key, order)) == multiset(s)
    ensures var r := OrderUsers(s, key, order);
      forall i, j :: 0 <= i < j < |r| ==> if order == ASC then UserLe(r[i], r[j], key) else UserLe(r[j], r[i], key)
  {
    ReverseMultiset(SortUsers(s, key));
  }

  function UserListRows(users: seq<User>, q: UserListQuery): seq<User>
  {
    Window(OrderUsers(MatchingUsers(users, q.search, FilterRole(q)), q.sortBy.GetOr(CreatedAt), q.sortOrder.GetOr(DESC)),
           PageOf(PagingOf(q)), LimitOf(PagingOf(q)))
  }

  /** `findAll(pagination, { sortBy, sortOrder, search, filterBy })`; a filter that names no role
      makes the query itself fail. */
  function ListUsers(users: seq<User>, q: UserListQuery): (r: Result<Paged<UserView>>)
    ensures r.Err? <==> InvalidFilter(q)
    ensures r.Err? ==> r.error.QueryFailed?
    ensures r.Ok? ==>
      r.value.meta == Meta(PageOf(PagingOf(q)), LimitOf(PagingOf(q)), |MatchingUsers(users, q.search, FilterRole(q))|)
    ensures r.Ok? ==> var rows := UserListRows(users, q);
      |r.value.data| == |rows| && forall k :: 0 <= k < |rows| ==> r.value.data[k] == View(rows[k])
  {
    if InvalidFilter(q) then Err(QueryFailed("invalid input value for enum users_role_enum"))
    else
      var rows := UserListRows(users, q);
      Ok(Paged(seq(|rows|, k requires 0 <= k < |rows| => View(rows[k])),
               Meta(PageOf(PagingOf(q)), LimitOf(PagingOf(q)), |MatchingUsers(users, q.search, FilterRole(q))|)))
  }

  /** A non-empty filter selects exactly the users whose role it spells; the empty string and
      an absent filter select everyone. */
  lemma FilterRoleIff(q: UserListQuery, u: User)
    requires !InvalidFilter(q)
    ensures (FilterRole(q).None? || u.role == FilterRole(q).value) <==>
      (q.filterBy.None? || q.filterBy.value == "" || q.filterBy.value == RoleName(u.role))
  {
    if q.filterBy.Some? && q.filterBy.value != "" {
      var r := RoleNamed(q.filterBy.value).value;
      assert RoleName(r) == q.filterBy.value;
      assert RoleName(u.role) == RoleName(r) ==> u.role == r by {
        match u.role { case ADMIN => case STORE_OWNER => case USER => }
      }
    }
  }

  /** A page of the user listing holds at most `limit` users, each a match, in the asked order. */
  lemma UserListRowsFacts(users: seq<User>, q: UserListQuery)
    ensures var rows := UserListRows(users, q);
      var key := q.sortBy.GetOr(CreatedAt);
      |rows| <= LimitOf(PagingOf(q)) &&
      (forall k :: 0 <= k < |rows| ==> rows[k] in users && UserMatches(rows[k], q.search, FilterRole(q))) &&
      (forall i, j :: 0 <= i < j < |rows| ==>
         if q.sortOrder.GetOr(DESC) == ASC then UserLe(rows[i], rows[j], key) else UserLe(rows[j], rows[i], key))
  {
    var m := MatchingUsers(users, q.search, FilterRole(q));
    var key := q.sortBy.GetOr(CreatedAt);
    var order := q.sortOrder.GetOr(DESC);
    var o := OrderUsers(m, key, order);
    OrderUsersFacts(m, key, order);
    var R := (a: User, b: User) => if order == ASC then UserLe(a, b, key) else UserLe(b, a, key);
    assert Pairwise(o, R);
    var rows := Window(o, PageOf(PagingOf(q)), LimitOf(PagingOf(q)));
    assert rows == UserListRows(users, q);
    WindowFacts(o, PageOf(PagingOf(q)), LimitOf(PagingOf(q)), R);
    forall k | 0 <= k < |rows| ensures rows[k] in users && UserMatches(rows[k], q.search, FilterRole(q)) {
      assert rows[k] in o;
      assert rows[k] in multiset(m);
      var j :| 0 <= j < |m| && m[j] == rows[k];
    }
    forall i, j | 0 <= i < j < |rows|
      ensures if order == ASC then UserLe(rows[i], rows[j], key) else UserLe(rows[j], rows[i], key)
    {
      assert R(rows[i], rows[j]);
    }
  }

  /** Fifteen matches, page 2 of 10: the last five of them, with a total of fifteen. */
  lemma SecondPageOfFifteen(users: seq<User>, q: UserListQuery)
    requires |MatchingUsers(users, q.search, FilterRole(q))| == 15
    requires q.page == Some(2) && q.limit == Some(10)
    requires !InvalidFilter(q)
    ensures ListUsers(users, q).Ok?
    ensures |ListUsers(users, q).value.data| == 5 && ListUsers(users, q).value.meta.total == 15
  {
    OrderUsersFacts(MatchingUsers(users, q.search, FilterRole(q)), q.sortBy.GetOr(CreatedAt), q.sortOrder.GetOr(DESC));
    assert |multiset(OrderUsers(MatchingUsers(users, q.search, FilterRole(q)), q.sortBy.GetOr(CreatedAt), q.sortOrder.GetOr(DESC)))| == 15;
  }

  // ---- lookups ----

  /** `findOne(id)` */
  function UserFindOne(users: seq<User>, id: Id): (r: Result<User>)
    ensures r.Err? <==> id !in UserIds(users)
    ensures r.Err? ==> r.error == NotFound("User not found")
    ensures r.Ok? ==> r.value in users && r.value.id == id
  {
    match UserIndex(users, id)
    case None => Err(NotFound("User not found"))
    case Some(i) => Ok(users[i])
  }

  /** `findByEmail(email)`: with unique emails, the one user that has it, or null. */
  lemma FindByEmailUnique(users: seq<User>, u: User)
    requires Pairwise(users, UserPair) && u in users
    ensures UserByEmail(users, u.email) == Some(u)
  {
    var v := UserByEmail(users, u.email).value;
    var i :| 0 <= i < |users| && users[i] == u;
    var j :| 0 <= j < |users| && users[j] == v;
  }

  // ---- counts ----

  function CountRole(users: seq<User>, role: Role): nat
  {
    |Filter(users, (u: User) => u.role == role)|
  }

  datatype RoleCount = RoleCount(role: Role, count: nat)

  /** `SELECT role, COUNT(*) ... GROUP BY role`: one row per role that occurs. */
  function GroupByRole(users: seq<User>): (rows: seq<RoleCount>)
    ensures forall i, j :: 0 <= i < j < |rows| ==> rows[i].role != rows[j].role
    ensures forall i :: 0 <= i < |rows| ==> rows[i].count == CountRole(users, rows[i].role)
    ensures forall r: Role :: CountRole(users, r) > 0 ==> exists i :: 0 <= i < |rows| && rows[i].role == r
  {
    var all := [RoleCount(ADMIN, CountRole(users, ADMIN)),
                RoleCount(STORE_OWNER, CountRole(users, STORE_OWNER)),
                RoleCount(USER, CountRole(users, USER))];
    var rows := Filter(all, (c: RoleCount) => c.count > 0);
    FilterPairwise(all, (c: RoleCount) => c.count > 0, (a: RoleCount, b: RoleCount) => a.role != b.role);
    forall r: Role | CountRole(users, r) > 0 ensures exists i :: 0 <= i < |rows| && rows[i].role == r {
      var k := if r == ADMIN then 0 else if r == STORE_OWNER then 1 else 2;
      assert all[k] in rows;
    }
    rows
  }

  /** Every user has exactly one role, so the three per-role counts add up to the total. */
  lemma {:induction false} RoleCountsSum(users: seq<User>)
    ensures CountRole(users, ADMIN) + CountRole(users, STORE_OWNER) + CountRole(users, USER) == |users|
  {
    if users != [] {
      RoleCountsSum(users[1..]);
    }
  }
}
