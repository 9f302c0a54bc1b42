/** The user HTTP handlers. The module declares only the service, the logger
    and the token helper: the pagination and id schemas the handlers use are
    never declared, and the service is never given a user schema. Each such
    handler appears twice here, as written (`…AsWritten`) and with the names
    declared and the schema passed as the sibling controllers do. */
module AuthController {
  import opened Base
  import opened Json
  import Joi
  import Store
  import Crypto
  import Http
  import S = AuthService

  // ---------------------------------------------------------------------
  // Names in scope

  /** The module-level names `authController.js` declares. */
  const Declared: set<string> := {"authService", "logger", "generateToken"}

  /** Evaluating a free name: the `ReferenceError` message when the module
      never declared it. */
  function Resolve(name: string): (r: Option<string>)
    ensures r.None? <==> name in Declared
    ensures r.Some? ==> r.value == Undefined(name)
  {
    if name in Declared then None else Some(Undefined(name))
  }

  /** The message of the `ReferenceError` for an undeclared name. */
  function Undefined(name: string): string {
    name + " is not defined"
  }

  lemma SchemasUndeclared()
    ensures Resolve("paginationSchema") == Some(Undefined("paginationSchema"))
    ensures Resolve("idSchema") == Some(Undefined("idSchema"))
  {
    assert "paginationSchema" !in Declared by {
      assert |"paginationSchema"| == 16;
      assert |"authService"| == 11 && |"logger"| == 6 && |"generateToken"| == 13;
    }
    assert "idSchema" !in Declared by {
      assert |"idSchema"| == 8;
      assert |"authService"| == 11 && |"logger"| == 6 && |"generateToken"| == 13;
    }
  }

  // ---------------------------------------------------------------------
  // Sign-up

  /** The body names the admin role. */
  predicate AdminRequest(body: Object) {
    "role" in body && body["role"] == Str("admin")
  }

  /** `{ ...req.body }` with `farmName` and `location` deleted when the role
      is "admin". */
  function StripAdminFields(body: Object): (b: Object)
    ensures AdminRequest(body) ==> b.Keys == body.Keys - {"farmName", "location"}
    ensures !AdminRequest(body) ==> b == body
    ensures forall k :: k in b ==> k in body && b[k] == body[k]
  {
    if AdminRequest(body) then body - {"farmName", "location"} else body
  }

  /** `createUser` as written: the service is called without a schema, so
      every request ends in 400 and nothing is stored. */
  function CreateUserAsWritten(t: S.UserTable, body: Object, newId: Id, hasher: Crypto.Hasher): (r: (S.UserTable, Http.Response<S.UserRow>))
    ensures r == (t, Http.Fail(400, Http.BadRequest, S.NoSchema))
  {
    Created(t, S.CreateUser(t, StripAdminFields(body), None, newId, hasher))
  }

  /** The `createUser` response to what the service returned: 201 with the
      new user, or 400 with the message it threw. */
  function Created(t: S.UserTable, created: Result<(S.UserTable, S.UserRow)>): (r: (S.UserTable, Http.Response<S.UserRow>))
    ensures created.Ok? ==> r == (created.value.0, Http.Success(201, "User created successfully", created.value.1))
    ensures created.Err? ==> r == (t, Http.Fail(400, Http.BadRequest, created.message))
  {
    if created.Ok? then (created.value.0, Http.Success(201, "User created successfully", created.value.1))
    else (t, Http.Fail(400, Http.BadRequest, created.message))
  }

  /** The schema for the role a body asks for: the admin schema for
      "admin", the retailer schema otherwise. */
  function RoleSchema(body: Object): (s: Joi.Schema)
    ensures S.KnownSchema(Some(s))
    ensures AdminRequest(body) <==> s == S.AdminUserSchema
  {
    if AdminRequest(body) then S.AdminUserSchema else S.RetailerUserSchema
  }

  /** `createUser` with the role's schema passed: 201 exactly for an
      admitted body whose address no user holds; any failure is 400. */
  function CreateUser(t: S.UserTable, body: Object, newId: Id, hasher: Crypto.Hasher): (r: (S.UserTable, Http.Response<S.UserRow>))
    requires Store.Valid(t)
    ensures var b := StripAdminFields(body);
            r.1.Code() == 201 <==> Joi.Admits(RoleSchema(body), b) && newId !in t.rows && !S.EmailTaken(t, TextOf(body, "email"))
    ensures r.1.Code() in {201, 400}
    ensures r.1.Code() == 201 ==> r.1.payload.Data? && r.1.payload.value.fields.password == hasher.hash(TextOf(body, "password"))
    ensures r.1.Code() == 201 ==> r.0.rows == t.rows[newId := r.1.payload.value] && Store.Valid(r.0)
    ensures r.1.Code() == 400 ==> r.0 == t
  {
    var b := StripAdminFields(body);
    RoleSchemaFitsStripped(body);
    Created(t, S.CreateUser(t, b, Some(RoleSchema(body)), newId, hasher))
  }

  /** Whatever the stripped body is admitted by, the original body carried
      the same e-mail and password. */
  lemma RoleSchemaFitsStripped(body: Object)
    ensures var b := StripAdminFields(body);
            Joi.Admits(RoleSchema(body), b) ==> "email" in body && "password" in body && b["email"] == body["email"] && b["password"] == body["password"]
  {
    var b := StripAdminFields(body);
    if Joi.Admits(RoleSchema(body), b) {
      S.AdmittedUserBody(RoleSchema(body), b);
    }
  }

  /** An admin sign-up that also sends a farm and a location is admitted:
      the handler drops them before the admin schema, which forbids them,
      sees the body. */
  lemma AdminSignUpDropsFarmFields(body: Object)
    requires S.Credentials(body)
    requires body.Keys == {"name", "email", "password", "farmName", "location", "role"}
    requires body["role"] == Str("admin")
    ensures !Joi.Admits(S.AdminUserSchema, body)
    ensures Joi.Admits(RoleSchema(body), StripAdminFields(body))
  {
    S.AdminSchemaAdmits(body);
    var b := StripAdminFields(body);
    assert b.Keys == {"name", "email", "password", "role"};
    assert S.AdminWellFormed(b);
    S.AdminSchemaAdmits(b);
  }

  /** Every sign-up fails as written; with the schema passed, a fresh
      address and id on an empty table succeeds. */
  lemma CreateUserDiscrepancy(body: Object, newId: Id, hasher: Crypto.Hasher)
    requires S.AdminWellFormed(body) && AdminRequest(body)
    ensures CreateUserAsWritten(Store.Table(map[], []), body, newId, hasher).1.Code() == 400
    ensures CreateUser(Store.Table(map[], []), body, newId, hasher).1.Code() == 201
  {
    var t: S.UserTable := Store.Table(map[], []);
    var b := StripAdminFields(body);
    assert b == body - {"farmName", "location"};
    assert b.Keys == body.Keys;
    assert b == body;
    S.AdminSchemaAdmits(body);
    assert !S.EmailTaken(t, b["email"].s);
  }

  // ---------------------------------------------------------------------
  // Login

  /** The user object of the login response: no password. */
  datatype PublicUser = PublicUser(
    id: Id,
    name: string,
    email: string,
    farmName: Option<string>,
    location: Option<string>,
    role: Option<string>)

  function PublicView(u: S.UserRow): PublicUser {
    PublicUser(u.id, u.fields.name, u.fields.email, u.fields.farmName, u.fields.location, u.fields.role)
  }

  /** `const { email, password } = req.body`: an absent key is `undefined`. */
  function Member(body: Object, key: string): (v: Option<Value>)
    ensures v.Some? <==> key in body
    ensures v.Some? ==> v.value == body[key]
  {
    if key in body then Some(body[key]) else None
  }

  /** `loginUser`: 200 with the user's public fields, 401 for any failure.
      The access token beside them is not modelled. */
  function LoginUser(t: S.UserTable, body: Object, hasher: Crypto.Hasher): (r: Http.Response<PublicUser>)
    ensures r.Code() in {200, 401}
    ensures var e, p := Member(body, "email"), Member(body, "password");
            S.LoginWellFormed(e, p) && Store.Valid(t) && S.UniqueEmails(t) ==>
              (r.Code() == 200 <==> S.CanLogIn(t, e.value.s, p.value.s, hasher))
    ensures !S.LoginWellFormed(Member(body, "email"), Member(body, "password")) ==> r.Code() == 401
    ensures r.Code() == 200 ==> r.payload.Data? && r.payload.value.email == body["email"].s
    ensures r.Code() == 200 && Store.Valid(t) ==>
              r.payload.Data? && r.payload.value.id in t.rows && r.payload.value == PublicView(t.rows[r.payload.value.id])
    ensures r.Code() == 401 ==> r.payload.ErrorText? && (IsValidationMessage(r.payload.error) || r.payload.error == S.LoginFailed)
  {
    var found := S.LoginUser(t, Member(body, "email"), Member(body, "password"), hasher);
    if found.Ok? then Http.Success(200, "User logged in successfully", PublicView(found.value))
    else Http.Fail(401, "Unauthorized", found.message)
  }

  /** The table with one user's stored hash replaced. */
  function SwapHash(t: S.UserTable, id: Id, other: string): (t': S.UserTable)
    requires id in t.rows
    ensures t'.rows.Keys == t.rows.Keys && t'.order == t.order
    ensures t'.rows[id].fields.password == other
    ensures forall x :: x in t.rows ==> t'.rows[x].fields.email == t.rows[x].fields.email
    ensures forall x :: x in t.rows ==> PublicView(t'.rows[x]) == PublicView(t.rows[x]) && t'.rows[x].deletedAt == t.rows[x].deletedAt
    ensures forall x :: x in t.rows && x != id ==> t'.rows[x] == t.rows[x]
  {
    Store.Table(t.rows[id := t.rows[id].(fields := t.rows[id].fields.(password := other))], t.order)
  }

  /** Replacing a hash keeps the table valid, the e-mails unique and the
      set of addresses in use. */
  lemma SwapHashKeepsInvariants(t: S.UserTable, id: Id, other: string)
    requires Store.Valid(t) && S.UniqueEmails(t) && id in t.rows
    ensures Store.Valid(SwapHash(t, id, other)) && S.UniqueEmails(SwapHash(t, id, other))
    ensures forall e :: S.EmailTaken(SwapHash(t, id, other), e) <==> S.EmailTaken(t, e)
  {
    var t' := SwapHash(t, id, other);
    forall x | x in t'.rows ensures t'.rows[x].id == x {
      assert t'.rows[x].id == PublicView(t'.rows[x]).id;
    }
    forall e ensures S.EmailTaken(t', e) <==> S.EmailTaken(t, e) {
      if S.EmailTaken(t, e) {
        var x :| x in t.rows && t.rows[x].fields.email == e;
        assert t'.rows[x].fields.email == e;
      }
      if S.EmailTaken(t', e) {
        var x :| x in t'.rows && t'.rows[x].fields.email == e;
        assert t.rows[x].fields.email == e;
      }
    }
  }

  /** The login response depends on a user's stored hash only through
      whether the password sent matches it: swapping the hash for another
      that matches (or fails) alike leaves the response unchanged. */
  lemma LoginResponseHidesHash(t: S.UserTable, body: Object, hasher: Crypto.Hasher, id: Id, other: string)
    requires Store.Valid(t) && S.UniqueEmails(t) && id in t.rows
    requires "password" in body && body["password"].Str?
    requires hasher.matches(body["password"].s, other) == hasher.matches(body["password"].s, t.rows[id].fields.password)
    ensures LoginUser(t, body, hasher) == LoginUser(SwapHash(t, id, other), body, hasher)
  {
    var t' := SwapHash(t, id, other);
    SwapHashKeepsInvariants(t, id, other);
    var e := Member(body, "email");
    if S.LoginWellFormed(e, Member(body, "password")) {
      if S.EmailTaken(t, e.value.s) {
        var x :| x in t.rows && t.rows[x].fields.email == e.value.s;
        S.FindByEmailUnique(t, x);
        S.FindByEmailUnique(t', x);
      }
    }
  }

  // ---------------------------------------------------------------------
  // Listing and lookup

  /** `req.query.role` when it is a single string. */
  function RoleOf(query: Object): (role: Option<string>)
    ensures role.Some? <==> "role" in query && query["role"].Str?
  {
    if "role" in query && query["role"].Str? then Some(query["role"].s) else None
  }

  /** `getUsers` as written: `paginationSchema` is not defined, so every
      request is 500. */
  function GetUsersAsWritten(t: S.UserTable, query: Object): (r: Http.Response<seq<S.UserRow>>)
    ensures r == Http.Fail(500, Http.InternalError, Undefined("paginationSchema"))
  {
    SchemasUndeclared();
    var missing := Resolve("paginationSchema");
    if missing.Some? then Http.Fail(500, Http.InternalError, missing.value)
    else GetUsers(t, query)
  }

  /** `getUsers` with the pagination schema declared: 400 for a bad query,
      500 when the offset does not fit, else 200 with the page of users of
      the role asked for. */
  function GetUsers(t: S.UserTable, query: Object): (r: Http.Response<seq<S.UserRow>>)
    ensures r.Code() == 400 <==> !Http.ValidPaging(query)
    ensures r.Code() == 500 <==> Http.SkipOverflows(query)
    ensures r.Code() in {200, 400, 500}
    ensures r.Code() == 500 ==> r == Http.Fail(500, Http.InternalError, S.FetchAllFailed)
    ensures r.Code() == 200 ==> r.payload.Data? && |r.payload.value| <= Http.Pagination(query).value.limit
    ensures r.Code() == 200 ==> forall u :: u in r.payload.value ==> u in Store.Rows(t)
    ensures r.Code() == 200 ==> Store.IsPage(r.payload.value, Store.Rows(t), Http.Pagination(query).value.page, Http.Pagination(query).value.limit)
  {
    var paging := Http.Pagination(query);
    if paging.Err? then Http.Fail(400, Http.BadRequest, paging.message)
    else Http.Listed("Users fetched successfully", S.GetUsers(t, RoleOf(query), paging.value.page, paging.value.limit))
  }

  /** The role filter cannot be reached: the pagination schema refuses the
      unknown `role` key, so a query naming a role is 400 and a 200 lists
      users of every role. */
  lemma RoleQueryRefused(t: S.UserTable, query: Object)
    ensures "role" in query ==> GetUsers(t, query).Code() == 400
    ensures GetUsers(t, query).Code() == 200 ==> S.GetUsers(t, None, Http.Pagination(query).value.page, Http.Pagination(query).value.limit) == Ok(GetUsers(t, query).payload.value)
  {
  }

  /** `getUserById` as written: `idSchema` is not defined; always 500. */
  function GetUserByIdAsWritten(t: S.UserTable, id: string, query: Object): (r: Http.Response<S.UserRow>)
    ensures r == Http.Fail(500, Http.InternalError, Undefined("idSchema"))
  {
    SchemasUndeclared();
    var missing := Resolve("idSchema");
    if missing.Some? then Http.Fail(500, Http.InternalError, missing.value)
    else GetUserById(t, id, query)
  }

  /** `getUserById` with the id schema declared: 200 for a live user whose
      stored role is the `role` query value, 500 otherwise. */
  function GetUserById(t: S.UserTable, id: string, query: Object): (r: Http.Response<S.UserRow>)
    ensures r.Code() == 200 <==> id != "" && id in t.rows && Store.Live(t.rows[id]) && t.rows[id].fields.role.Some? && t.rows[id].fields.role == RoleOf(query)
    ensures r.Code() == 200 ==> r.payload == Http.Data(t.rows[id])
    ensures r.Code() in {200, 400, 500}
    ensures "role" !in query ==> r.Code() != 200
  {
    var bad := Http.CheckId(id);
    if bad.Some? then Http.Fail(400, Http.BadRequest, bad.value)
    else
      var found := S.GetUserById(t, id, RoleOf(query));
      if found.Ok? then Http.Success(200, "User fetched successfully", found.value)
      else Http.Fail(500, Http.InternalError, found.message)
  }

  // ---------------------------------------------------------------------
  // Update and deletion

  /** `updateUser` as written: `idSchema` is not defined, and the catch
      answers 400. */
  function UpdateUserAsWritten(t: S.UserTable, id: string, body: Object, hasher: Crypto.Hasher): (r: (S.UserTable, Http.Response<S.UserRow>))
    ensures r == (t, Http.Fail(400, Http.BadRequest, Undefined("idSchema")))
  {
    SchemasUndeclared();
    var missing := Resolve("idSchema");
    if missing.Some? then (t, Http.Fail(400, Http.BadRequest, missing.value))
    else UpdateUser(t, id, body, hasher)
  }

  /** `updateUser` with the id schema declared and the role's schema
      passed: 200 for a live user of the role the body names whose new
      address no other user holds; everything else is 400. */
  function UpdateUser(t: S.UserTable, id: string, body: Object, hasher: Crypto.Hasher): (r: (S.UserTable, Http.Response<S.UserRow>))
    ensures r.1.Code() == 200 <==>
              && id != "" && Joi.Admits(RoleSchema(body), body) && id in t.rows && Store.Live(t.rows[id])
              && S.RoleMatches(t.rows[id].fields.role, OptTextOf(body, "role"))
              && !S.EmailHeldByOther(t, id, TextOf(body, "email"))
    ensures r.1.Code() in {200, 400}
    ensures r.1.Code() == 200 ==> r.1.payload.Data? && r.1.payload.value.fields.role == t.rows[id].fields.role
    ensures r.1.Code() == 200 ==> r.0.rows == t.rows[id := r.1.payload.value]
    ensures r.1.Code() == 400 ==> r.0 == t
  {
    var bad := Http.CheckId(id);
    if bad.Some? then (t, Http.Fail(400, Http.BadRequest, bad.value))
    else
      var updated := S.UpdateUser(t, id, body, Some(RoleSchema(body)), hasher);
      if updated.Ok? then (updated.value.0, Http.Success(200, "User updated successfully", updated.value.1))
      else (t, Http.Fail(400, Http.BadRequest, updated.message))
  }

  /** `deleteUser` as written: `idSchema` is not defined; always 500. */
  function DeleteUserAsWritten(t: S.UserTable, id: string, now: Time): (r: (S.UserTable, Http.Response<S.UserRow>))
    ensures r == (t, Http.Fail(500, Http.InternalError, Undefined("idSchema")))
  {
    SchemasUndeclared();
    var missing := Resolve("idSchema");
    if missing.Some? then (t, Http.Fail(500, Http.InternalError, missing.value))
    else DeleteUser(t, id, now)
  }

  /** `deleteUser` with the id schema declared: 200 with `data: null` for
      any stored user, deleted or not; 500 otherwise. */
  function DeleteUser(t: S.UserTable, id: string, now: Time): (r: (S.UserTable, Http.Response<S.UserRow>))
    ensures r.1.Code() == 200 <==> id != "" && id in t.rows
    ensures r.1.Code() == 200 ==> r.1.payload.NullData? && r.0.rows == t.rows[id := t.rows[id].(deletedAt := Some(now))]
    ensures r.1.Code() in {200, 400, 500}
    ensures r.1.Code() != 200 ==> r.0 == t
  {
    var bad := Http.CheckId(id);
    if bad.Some? then (t, Http.Fail(400, Http.BadRequest, bad.value))
    else
      var deleted := S.DeleteUser(t, id, now);
      if deleted.Ok? then (deleted.value.0, Http.Done("User deleted successfully"))
      else (t, Http.Fail(500, Http.InternalError, deleted.message))
  }

  /** `permanentlyDeleteUser` as written: `idSchema` is not defined; always
      500. */
  function PermanentlyDeleteUserAsWritten(t: S.UserTable, id: string): (r: (S.UserTable, Http.Response<S.UserRow>))
    ensures r == (t, Http.Fail(500, Http.InternalError, Undefined("idSchema")))
  {
    SchemasUndeclared();
    var missing := Resolve("idSchema");
    if missing.Some? then (t, Http.Fail(500, Http.InternalError, missing.value))
    else PermanentlyDeleteUser(t, id)
  }

  /** `permanentlyDeleteUser` with the id schema declared: 200 with
      `data: null` for any stored user, 500 otherwise. */
  function PermanentlyDeleteUser(t: S.UserTable, id: string): (r: (S.UserTable, Http.Response<S.UserRow>))
    ensures r.1.Code() == 200 <==> id != "" && id in t.rows
    ensures r.1.Code() == 200 ==> r.1.payload.NullData? && r.0.rows == t.rows - {id}
    ensures r.1.Code() in {200, 400, 500}
    ensures r.1.Code() != 200 ==> r.0 == t
  {
    var bad := Http.CheckId(id);
    if bad.Some? then (t, Http.Fail(400, Http.BadRequest, bad.value))
    else
      var purged := S.PermanentlyDeleteUser(t, id);
      if purged.Ok? then (purged.value.0, Http.Done("User permanently deleted successfully"))
      else (t, Http.Fail(500, Http.InternalError, purged.message))
  }

  /** For a stored user and a well-formed request, the handlers as written
      fail where the declared ones succeed. */
  lemma UndeclaredSchemaDiscrepancy(t: S.UserTable, id: string, now: Time)
    requires id != "" && id in t.rows
    ensures GetUsersAsWritten(t, map[]).Code() == 500 && GetUsers(t, map[]).Code() == 200
    ensures DeleteUserAsWritten(t, id, now).1.Code() == 500 && DeleteUser(t, id, now).1.Code() == 200
    ensures PermanentlyDeleteUserAsWritten(t, id).1.Code() == 500 && PermanentlyDeleteUser(t, id).1.Code() == 200
  {
    assert Http.ValidPaging(map[]);
  }

  /** A live user with a role, asked for by that role, is 500 as written
      and 200 once `idSchema` is declared. */
  lemma GetUserByIdDiscrepancy(t: S.UserTable, id: string)
    requires id != "" && id in t.rows && Store.Live(t.rows[id]) && t.rows[id].fields.role.Some?
    ensures var q := map["role" := Str(t.rows[id].fields.role.value)];
            GetUserByIdAsWritten(t, id, q).Code() == 500 && GetUserById(t, id, q) == Http.Success(200, "User fetched successfully", t.rows[id])
  {
  }
}
