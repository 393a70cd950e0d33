/** The request bodies and the class-validator constraints the validation pipe checks on them. */
module Dtos {
  import opened Common
  import opened Entities
  import opened Passwords
  import opened Text

  predicate IsHexDigit(c: char)
  {
    '0' <= c <= '9' || 'a' <= c <= 'f' || 'A' <= c <= 'F'
  }

  /** `@IsUUID()`: 8-4-4-4-12 hexadecimal digits separated by dashes. */
  predicate IsUuid(s: string)
  {
    |s| == 36 &&
    forall i :: 0 <= i < 36 ==>
      if i == 8 || i == 13 || i == 18 || i == 23 then s[i] == '-' else IsHexDigit(s[i])
  }

  /** `@IsEmail()`, reduced to its shape: a non-empty local part, an `@`, a non-empty domain. */
  predicate IsEmail(s: string)
  {
    exists k :: 0 < k < |s| - 1 && s[k] == '@'
  }

  /** Passwords the DTOs accept: `@MinLength(8) @MaxLength(16) @Matches(PASSWORD_REGEX)`.
      class-validator measures lengths as JavaScript does, in UTF-16 code units. */
  predicate PasswordField(p: string)
  {
    8 <= JsLength(p) <= 16 && ValidatePassword(p)
  }

  /** `@IsOptional() @MaxLength(n)` on a creation body, where a missing field and `null` both
      leave the nullable column NULL. */
  predicate OptionalMax(s: Option<string>, n: nat)
  {
    s.Some? ==> JsLength(s.value) <= n
  }

  /** A field of a JSON update body: left out, sent as `null`, or sent with a value.
      `@IsOptional()` lets the first two through without running the field's other validators,
      and `Object.assign` copies a `null` but not a missing field. */
  datatype Field<T> = Absent | Null | Given(value: T)
  {
    /** A nullable column after `Object.assign`: the given value, none for `null`, or `current`
        when the field is absent. */
    function Assign(current: Option<T>): Option<T>
    {
      match this
      case Absent => current
      case Null => None
      case Given(v) => Some(v)
    }
  }

  /** `@IsOptional() @MaxLength(n)` on an update body. */
  predicate FieldMax(s: Field<string>, n: nat)
  {
    s.Given? ==> JsLength(s.value) <= n
  }

  // ---- ratings ----

  /** PUT /ratings body. There is no userId field: the acting user comes from the token. */
  datatype UpsertRatingDto = UpsertRatingDto(storeId: string, rating: int)

  /** `@IsUUID() storeId`, `@IsInt() @Min(1) @Max(5) rating` (integrality is the type `int`). */
  predicate ValidUpsertRating(d: UpsertRatingDto)
  {
    IsUuid(d.storeId) && 1 <= d.rating && d.rating <= 5
  }

  // ---- stores ----

  datatype CreateStoreDto = CreateStoreDto(name: string, address: Option<string>, ownerId: string)

  /** Required name of at most 100 code units (no minimum), optional address of at most 400, uuid owner. */
  predicate ValidCreateStore(d: CreateStoreDto)
  {
    JsLength(d.name) <= 100 && OptionalMax(d.address, 400) && IsUuid(d.ownerId)
  }

  /** Only name and address are whitelisted, so an update body can never carry an owner. */
  datatype UpdateStoreDto = UpdateStoreDto(name: Field<string>, address: Field<string>)

  predicate ValidUpdateStore(d: UpdateStoreDto)
  {
    FieldMax(d.name, 100) && FieldMax(d.address, 400)
  }

  // ---- users ----

  /** POST /users/register body (its validation decorators are not part of this model). */
  datatype CreateUserDto = CreateUserDto(name: string, email: string, password: string,
                                         address: Option<string>, role: Option<Role>)

  datatype CreateAdminDto = CreateAdminDto(name: string, email: string, password: string,
                                           address: Option<string>)

  predicate ValidCreateAdmin(d: CreateAdminDto)
  {
    20 <= JsLength(d.name) <= 60 && IsEmail(d.email) && PasswordField(d.password) && OptionalMax(d.address, 400)
  }

  /** Every field optional, and `null` accepted; `role` is typed by the enum (`@IsEnum(UserRole)`). */
  datatype UpdateUserDto = UpdateUserDto(name: Field<string>, email: Field<string>,
                                         password: Field<string>, address: Field<string>,
                                         role: Field<Role>)

  predicate ValidUpdateUser(d: UpdateUserDto)
  {
    (d.name.Given? ==> 20 <= JsLength(d.name.value) <= 60) &&
    (d.email.Given? ==> IsEmail(d.email.value)) &&
    (d.password.Given? ==> PasswordField(d.password.value)) &&
    FieldMax(d.address, 400)
  }

  datatype UpdatePasswordDto = UpdatePasswordDto(currentPassword: string, newPassword: string)

  /** `currentPassword` is any string; `newPassword` is a valid password. */
  predicate ValidUpdatePassword(d: UpdatePasswordDto)
  {
    PasswordField(d.newPassword)
  }

  // ---- query strings ----

  /** The query parameters `PaginationQueryDto` declares: the `page` and `limit` the services read. */
  function PaginationKeys(): set<string> { {"page", "limit"} }

  /** The query parameters `SortFilterDto` declares. */
  function SortFilterKeys(): set<string> { {"sortBy", "sortOrder", "search", "filterBy"} }

  /** `whitelist` with `forbidNonWhitelisted`: a DTO refuses a query that carries any
      parameter it does not declare. */
  predicate Whitelisted(keys: set<string>, declared: set<string>)
  {
    keys <= declared
  }

  /** `findAll(@Query() paginationQuery: PaginationQueryDto, @Query() sortFilter: SortFilterDto)`:
      the pipe checks the whole query string against each of the two DTOs. */
  predicate ListUsersQueryAcceptedAsWritten(keys: set<string>)
  {
    Whitelisted(keys, PaginationKeys()) && Whitelisted(keys, SortFilterKeys())
  }

  /** The two DTOs share no parameter, so as written only a query with no parameters at all
      gets through; the page, limit, search and filterBy the admin list sends are refused. */
  lemma AsWrittenListUsersOnlyBareQuery(keys: set<string>)
    ensures ListUsersQueryAcceptedAsWritten(keys) <==> keys == {}
    ensures !ListUsersQueryAcceptedAsWritten({"page", "limit"})
  {
    if keys != {} {
      var k :| k in keys;
      assert !(k in PaginationKeys() && k in SortFilterKeys());
    }
    assert "page" in {"page", "limit"};
  }

  /** The evidently intended check: one query DTO declaring the parameters of both. */
  predicate ListUsersQueryAccepted(keys: set<string>)
  {
    Whitelisted(keys, PaginationKeys() + SortFilterKeys())
  }

  /** Every combination of the six declared parameters is accepted, and nothing else is. */
  lemma ListUsersQueryAcceptedIff(keys: set<string>)
    ensures ListUsersQueryAccepted(keys) <==>
      forall k :: k in keys ==> k in PaginationKeys() || k in SortFilterKeys()
    ensures ListUsersQueryAccepted({"page", "limit", "search", "filterBy"})
  {
  }

  // ---- consequences ----

  /** In the password DTOs the length decorators are redundant: the regex alone decides. Its
      alphabet is ASCII, so the UTF-16 length is the character count. */
  lemma PasswordFieldIsRegex(p: string)
    ensures PasswordField(p) <==> ValidatePassword(p)
  {
    ValidPasswordLength(p);
    if ValidatePassword(p) {
      assert forall i :: 0 <= i < |p| ==> !IsAstral(p[i]) by {
        forall i | 0 <= i < |p| ensures !IsAstral(p[i]) { assert IsAllowed(p[i]); }
      }
      JsLengthNoAstral(p);
    }
  }

  /** A valid update body never supplies an empty email or password, the two values the
      service's truthiness tests would treat as absent. */
  lemma ValidUpdateUserNotEmpty(d: UpdateUserDto)
    requires ValidUpdateUser(d)
    ensures d.email.Given? ==> d.email.value != ""
    ensures d.password.Given? ==> d.password.value != ""
  {
  }

  /** A store built from a valid creation body fits the stores columns. */
  lemma ValidCreateStoreFits(d: CreateStoreDto, id: Id, now: nat)
    requires ValidCreateStore(d)
    ensures StoreFitsColumns(Store(id, d.name, d.address, Some(d.ownerId), now))
  {
    JsLengthBounds(d.name);
    if d.address.Some? {
      JsLengthBounds(d.address.value);
    }
  }

  /** An admin built from a valid body fits the users columns once its email has at most
      120 characters; `@IsEmail()` alone does not bound the email that tightly. */
  lemma ValidCreateAdminFits(d: CreateAdminDto, id: Id, hashed: string, now: nat)
    requires ValidCreateAdmin(d) && |d.email| <= 120
    ensures UserFitsColumns(User(id, d.name, d.email, hashed, d.address, ADMIN, now))
  {
    JsLengthBounds(d.name);
    if d.address.Some? {
      JsLengthBounds(d.address.value);
    }
  }

  /** A name of eleven astral characters (emoji, say) passes `@MinLength(20)`, because JavaScript
      counts 22 code units, while the varchar column counts 11 characters. */
  lemma AstralNameCountsTwice()
    ensures var name := seq(11, i => '\U{1F600}');
      |name| == 11 && JsLength(name) == 22 && 20 <= JsLength(name) <= 60
  {
    var name := seq(11, i => '\U{1F600}');
    JsLengthAllAstral(name);
  }

  /** A 121-character address satisfies `IsEmail` yet does not fit the email column. */
  lemma EmailLongerThanColumn()
    ensures exists e :: IsEmail(e) && |e| > 120
  {
    var e := seq(121, i => if i == 1 then '@' else 'a');
    assert e[1] == '@';
    assert IsEmail(e);
  }
}
