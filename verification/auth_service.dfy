/** The unified user table behind sign-up and login, and its service. Users
    carry a role ("admin" or "retailer", or none); e-mail addresses are
    unique in the table, which `findUnique({ where: { email } })` presumes.
    `createUser` and `updateUser` take the Joi schema as an argument; the file
    declares one for admins and one for retailers. */
module AuthService {
  import opened Base
  import opened Json
  import Joi
  import Store
  import Crypto

  /** The columns of a user. `None` is SQL null. */
  datatype User = User(
    name: string,
    email: string,
    password: string,
    farmName: Option<string>,
    location: Option<string>,
    profileImage: Option<string>,
    role: Option<string>)

  type UserTable = Store.Table<User>
  type UserRow = Store.Row<User>

  const NameRule: Joi.Rule := Joi.Rule("name", Joi.Text, true, [], None)
  const EmailRule: Joi.Rule := Joi.Rule("email", Joi.Email, true, [], None)
  const PasswordRule: Joi.Rule := Joi.Rule("password", Joi.Text, true, [], None)

  const AdminUserSchema: Joi.Schema := [
    NameRule, EmailRule, PasswordRule,
    Joi.Rule("role", Joi.Text, false, ["admin"], Some(Str("admin")))
  ]

  const RetailerUserSchema: Joi.Schema := [
    NameRule, EmailRule, PasswordRule,
    Joi.Rule("farmName", Joi.Text, true, [], None),
    Joi.Rule("location", Joi.Text, true, [], None),
    Joi.Rule("role", Joi.Text, false, ["retailer"], Some(Str("retailer")))
  ]

  const LoginSchema: Joi.Schema := [EmailRule, PasswordRule]

  /** What `schema.validate(user)` throws when no schema was passed. */
  const NoSchema: string := "Cannot read properties of undefined (reading 'validate')"
  const CreateFailedPrefix: string := "Error creating user: "
  const DuplicateEmail: string := "User with the same email already exists"
  const LoginRefused: string := "Invalid email or password"
  const LoginFailed: string := "Error logging in user"
  const NotFound: string := "User not found"
  const FetchAllFailed: string := "Error fetching users"
  const FetchFailed: string := "Error fetching user"
  const UpdateFailed: string := "Error updating user"
  const DeleteFailed: string := "Error deleting user"
  const PurgeFailed: string := "Error permanently deleting user"

  /** The schemas the service is given: none, or one of the two the file
      declares. */
  predicate KnownSchema(schema: Option<Joi.Schema>) {
    schema.None? || schema.value == AdminUserSchema || schema.value == RetailerUserSchema
  }

  // ---------------------------------------------------------------------
  // What the two user schemas admit

  /** A body with a usable name, e-mail and password. */
  predicate Credentials(body: Object) {
    && "name" in body && body["name"].Str? && body["name"].s != ""
    && "email" in body && body["email"].Str? && body["email"].s != "" && Joi.IsEmail(body["email"].s)
    && "password" in body && body["password"].Str? && body["password"].s != ""
  }

  /** An admin sign-up body: credentials, optionally `role: "admin"`, and
      nothing else. */
  predicate AdminWellFormed(body: Object) {
    && Credentials(body)
    && body.Keys <= {"name", "email", "password", "role"}
    && ("role" in body ==> body["role"] == Str("admin"))
  }

  /** A retailer sign-up body: credentials, a farm name and a location,
      optionally `role: "retailer"`, and nothing else. */
  predicate RetailerWellFormed(body: Object) {
    && Credentials(body)
    && "farmName" in body && body["farmName"].Str? && body["farmName"].s != ""
    && "location" in body && body["location"].Str? && body["location"].s != ""
    && body.Keys <= {"name", "email", "password", "farmName", "location", "role"}
    && ("role" in body ==> body["role"] == Str("retailer"))
  }

  lemma CredentialsAdmitted(schema: Joi.Schema, body: Object)
    requires |schema| >= 3 && schema[0] == NameRule && schema[1] == EmailRule && schema[2] == PasswordRule
    requires Joi.Admits(schema, body)
    ensures Credentials(body)
  {
    assert Joi.KeyOk(schema[0], body) && Joi.KeyOk(schema[1], body) && Joi.KeyOk(schema[2], body);
  }

  lemma AdminSchemaAdmits(body: Object)
    ensures Joi.Admits(AdminUserSchema, body) <==> AdminWellFormed(body)
  {
    var s := AdminUserSchema;
    assert Joi.KeysOf(s) == {"name", "email", "password", "role"} by {
      assert s[0].key == "name" && s[1].key == "email" && s[2].key == "password" && s[3].key == "role";
    }
    if Joi.Admits(s, body) {
      CredentialsAdmitted(s, body);
      assert Joi.KeyOk(s[3], body);
    }
    if AdminWellFormed(body) {
      forall i | 0 <= i < |s| ensures Joi.KeyOk(s[i], body) {
      }
    }
  }

  lemma RetailerSchemaKeys()
    ensures Joi.KeysOf(RetailerUserSchema) == {"name", "email", "password", "farmName", "location", "role"}
  {
    var s := RetailerUserSchema;
    assert s[0].key == "name" && s[1].key == "email" && s[2].key == "password";
    assert s[3].key == "farmName" && s[4].key == "location" && s[5].key == "role";
  }

  lemma RetailerSchemaAdmits(body: Object)
    ensures Joi.Admits(RetailerUserSchema, body) <==> RetailerWellFormed(body)
  {
    var s := RetailerUserSchema;
    RetailerSchemaKeys();
    if Joi.Admits(s, body) {
      CredentialsAdmitted(s, body);
      assert Joi.KeyOk(s[3], body) && Joi.KeyOk(s[4], body) && Joi.KeyOk(s[5], body);
    }
    if RetailerWellFormed(body) {
      forall i | 0 <= i < |s| ensures Joi.KeyOk(s[i], body) {
      }
    }
  }

  /** What an admitted body looks like under either schema: credentials,
      string-valued optional columns, and never a `profileImage`. */
  predicate UserBody(body: Object) {
    && Credentials(body)
    && ("farmName" in body ==> body["farmName"].Str?)
    && ("location" in body ==> body["location"].Str?)
    && ("role" in body ==> body["role"].Str?)
    && "profileImage" !in body
  }

  lemma AdmittedUserBody(schema: Joi.Schema, body: Object)
    requires schema == AdminUserSchema || schema == RetailerUserSchema
    ensures Joi.Admits(schema, body) ==> UserBody(body)
  {
    if schema == AdminUserSchema {
      AdminSchemaAdmits(body);
      if Joi.Admits(schema, body) {
        assert "farmName" !in body && "location" !in body && "profileImage" !in body;
      }
    } else {
      RetailerSchemaAdmits(body);
      if Joi.Admits(schema, body) {
        assert "profileImage" !in body;
      }
    }
  }

  // ---------------------------------------------------------------------
  // Looking users up by e-mail

  ghost predicate EmailTaken(t: UserTable, e: string) {
    exists id :: id in t.rows && t.rows[id].fields.email == e
  }

  /** The database's unique constraint on the e-mail column. */
  ghost predicate UniqueEmails(t: UserTable) {
    forall a, b :: a in t.rows && b in t.rows && t.rows[a].fields.email == t.rows[b].fields.email ==> a == b
  }

  function HasEmail(e: string): UserRow -> bool {
    (u: UserRow) => u.fields.email == e
  }

  /** `findUnique({ where: { email } })`, soft-deleted users included. */
  function FindByEmail(t: UserTable, e: string): (r: Option<UserRow>)
    ensures r.Some? ==> r.value.fields.email == e
    ensures Store.Valid(t) ==> (r.Some? <==> EmailTaken(t, e))
    ensures Store.Valid(t) && r.Some? ==> r.value.id in t.rows && t.rows[r.value.id] == r.value
  {
    var matching := Store.Filter(Store.Rows(t), HasEmail(e));
    assert Store.Valid(t) && EmailTaken(t, e) ==> |matching| > 0 by {
      if Store.Valid(t) && EmailTaken(t, e) {
        var id :| id in t.rows && t.rows[id].fields.email == e;
        assert t.rows[id].id == id;
        assert HasEmail(e)(t.rows[id]);
        Store.ListingOfRow(t, id);
        Store.FilterKeeps(Store.Rows(t), HasEmail(e), t.rows[id]);
      }
    }
    if |matching| > 0 then
      Store.FilterFirst(Store.Rows(t), HasEmail(e));
      assert Store.Valid(t) ==> matching[0].id in t.rows && t.rows[matching[0].id] == matching[0] by {
        if Store.Valid(t) {
          Store.RowOfListing(t, matching[0]);
        }
      }
      Some(matching[0])
    else None
  }

  /** With unique e-mails the look-up finds the one user with that address. */
  lemma FindByEmailUnique(t: UserTable, id: Id)
    requires Store.Valid(t) && UniqueEmails(t) && id in t.rows
    ensures FindByEmail(t, t.rows[id].fields.email) == Some(t.rows[id])
  {
  }

  // ---------------------------------------------------------------------
  // The operations

  /** `createUser(user, schema)`. */
  function CreateUser(t: UserTable, body: Object, schema: Option<Joi.Schema>, newId: Id, hasher: Crypto.Hasher): (r: Result<(UserTable, UserRow)>)
    requires KnownSchema(schema)
    ensures schema.None? ==> r == Err(NoSchema)
    ensures schema.Some? && !Joi.Admits(schema.value, body) ==> r == Err(ValidationMessage(Joi.Complaint(schema.value, body)))
    ensures schema.Some? && Joi.Admits(schema.value, body) ==> UserBody(body)
    ensures schema.Some? && Joi.Admits(schema.value, body) && Store.Valid(t) ==>
              (r.Ok? <==> newId !in t.rows && !EmailTaken(t, body["email"].s))
    ensures schema.Some? && Joi.Admits(schema.value, body) && Store.Valid(t) && EmailTaken(t, body["email"].s) ==>
              r == Err(CreateFailedPrefix + DuplicateEmail)
    ensures r.Err? ==> r.message in {NoSchema, CreateFailedPrefix + DuplicateEmail, CreateFailedPrefix + Store.StoreFailure}
                       || IsValidationMessage(r.message)
    ensures r.Ok? ==> UserBody(body) && r.value.1.id == newId && r.value.1.deletedAt == None
    ensures r.Ok? ==> r.value.1.fields == User(body["name"].s, body["email"].s, hasher.hash(body["password"].s),
                                               OptTextOf(body, "farmName"), OptTextOf(body, "location"), None, OptTextOf(body, "role"))
    ensures r.Ok? ==> r.value.0.rows == t.rows[newId := r.value.1]
    ensures r.Ok? && Store.Valid(t) ==> Store.Valid(r.value.0)
  {
    if schema.None? then Err(NoSchema)
    else
      AdmittedUserBody(schema.value, body);
      var v := Joi.Validate(schema.value, body);
      if v.Err? then Err(ValidationMessage(v.message))
      else
        var e := body["email"].s;
        if FindByEmail(t, e).Some? then Err(CreateFailedPrefix + DuplicateEmail)
        else
          var user := User(body["name"].s, e, hasher.hash(body["password"].s),
                           OptTextOf(body, "farmName"), OptTextOf(body, "location"), None, OptTextOf(body, "role"));
          var created := Store.Create(t, newId, user);
          Store.CreateValid(t, newId, user);
          if created.Err? then Err(CreateFailedPrefix + created.message) else created
  }

  /** The stored password is the hash of the one sent, and differs from it
      whenever the hash never returns its input. */
  lemma CreatedPasswordIsHashed(t: UserTable, body: Object, schema: Option<Joi.Schema>, newId: Id, hasher: Crypto.Hasher)
    requires KnownSchema(schema)
    requires CreateUser(t, body, schema, newId, hasher).Ok?
    ensures CreateUser(t, body, schema, newId, hasher).value.1.fields.password == hasher.hash(body["password"].s)
    ensures Crypto.Hiding(hasher) ==> CreateUser(t, body, schema, newId, hasher).value.1.fields.password != body["password"].s
  {
  }

  /** Creation keeps e-mails unique. */
  lemma CreateKeepsEmailsUnique(t: UserTable, body: Object, schema: Option<Joi.Schema>, newId: Id, hasher: Crypto.Hasher)
    requires KnownSchema(schema)
    requires Store.Valid(t) && UniqueEmails(t)
    requires CreateUser(t, body, schema, newId, hasher).Ok?
    ensures UniqueEmails(CreateUser(t, body, schema, newId, hasher).value.0)
  {
    var t' := CreateUser(t, body, schema, newId, hasher).value.0;
    var e := body["email"].s;
    assert !EmailTaken(t, e);
    forall a, b | a in t'.rows && b in t'.rows && t'.rows[a].fields.email == t'.rows[b].fields.email
      ensures a == b
    {
      if a != newId && b != newId {
        assert t'.rows[a] == t.rows[a] && t'.rows[b] == t.rows[b];
      }
    }
  }

  /** The object `{ email, password }` the login validates: an argument that
      is `undefined` is an absent key. */
  function LoginObject(email: Option<Value>, password: Option<Value>): (o: Object)
    ensures "email" in o <==> email.Some?
    ensures "password" in o <==> password.Some?
    ensures email.Some? ==> o["email"] == email.value
    ensures password.Some? ==> o["password"] == password.value
    ensures o.Keys <= {"email", "password"}
  {
    var withEmail: Object := if email.Some? then map["email" := email.value] else map[];
    if password.Some? then withEmail["password" := password.value] else withEmail
  }

  predicate LoginWellFormed(email: Option<Value>, password: Option<Value>) {
    && email.Some? && email.value.Str? && email.value.s != "" && Joi.IsEmail(email.value.s)
    && password.Some? && password.value.Str? && password.value.s != ""
  }

  lemma LoginSchemaAdmits(email: Option<Value>, password: Option<Value>)
    ensures Joi.Admits(LoginSchema, LoginObject(email, password)) <==> LoginWellFormed(email, password)
  {
    var o := LoginObject(email, password);
    assert Joi.KeysOf(LoginSchema) == {"email", "password"} by {
      assert LoginSchema[0].key == "email" && LoginSchema[1].key == "password";
    }
    if Joi.Admits(LoginSchema, o) {
      assert Joi.KeyOk(LoginSchema[0], o) && Joi.KeyOk(LoginSchema[1], o);
    }
    if LoginWellFormed(email, password) {
      forall i | 0 <= i < |LoginSchema| ensures Joi.KeyOk(LoginSchema[i], o) {
      }
    }
  }

  /** A user a login with this e-mail and password is let in as. */
  ghost predicate CanLogIn(t: UserTable, e: string, p: string, hasher: Crypto.Hasher) {
    exists id :: id in t.rows && t.rows[id].fields.email == e && Store.Live(t.rows[id]) && hasher.matches(p, t.rows[id].fields.password)
  }

  /** `loginUser(email, password)`: an unknown address, a soft-deleted user
      and a wrong password end in the same message. */
  function LoginUser(t: UserTable, email: Option<Value>, password: Option<Value>, hasher: Crypto.Hasher): (r: Result<UserRow>)
    ensures !LoginWellFormed(email, password) ==> r == Err(ValidationMessage(Joi.Complaint(LoginSchema, LoginObject(email, password))))
    ensures LoginWellFormed(email, password) && Store.Valid(t) && UniqueEmails(t) ==>
              (r.Ok? <==> CanLogIn(t, email.value.s, password.value.s, hasher))
    ensures r.Ok? ==> LoginWellFormed(email, password)
    ensures r.Ok? ==> r.value.fields.email == email.value.s && Store.Live(r.value) && hasher.matches(password.value.s, r.value.fields.password)
    ensures r.Ok? && Store.Valid(t) ==> r.value.id in t.rows && t.rows[r.value.id] == r.value
    ensures r.Err? ==> IsValidationMessage(r.message) || r.message == LoginFailed
  {
    LoginSchemaAdmits(email, password);
    var v := Joi.Validate(LoginSchema, LoginObject(email, password));
    if v.Err? then Err(ValidationMessage(v.message))
    else
      var found := FindByEmail(t, email.value.s);
      if found.None? || !Store.Live(found.value) then Err(LoginFailed)
      else if !hasher.matches(password.value.s, found.value.fields.password) then Err(LoginFailed)
      else Ok(found.value)
  }

  /** With a hasher that accepts a password against its own hash, a user who
      has just signed up can log in with the same address and password. */
  lemma SignUpThenLogIn(t: UserTable, body: Object, schema: Option<Joi.Schema>, newId: Id, hasher: Crypto.Hasher)
    requires KnownSchema(schema)
    requires Store.Valid(t) && UniqueEmails(t) && Crypto.Sound(hasher)
    requires CreateUser(t, body, schema, newId, hasher).Ok?
    ensures var (t', row) := CreateUser(t, body, schema, newId, hasher).value;
            LoginUser(t', Some(body["email"]), Some(body["password"]), hasher) == Ok(row)
  {
    var (t', row) := CreateUser(t, body, schema, newId, hasher).value;
    CreateKeepsEmailsUnique(t, body, schema, newId, hasher);
    assert t'.rows[newId] == row;
    FindByEmailUnique(t', newId);
  }

  /** `where: { role }`; an absent role filters nothing. */
  function RoleFilter(role: Option<string>): UserRow -> bool {
    if role.None? then Store.Everything() else (u: UserRow) => u.fields.role == role
  }

  /** `getUsers(role, page, limit)`: no `deletedAt` filter; "Error
      fetching users" when the offset does not fit the query. */
  function GetUsers(t: UserTable, role: Option<string>, page: nat, limit: nat): (r: Result<seq<UserRow>>)
    requires page >= 1
    ensures r.Ok? <==> Store.SkipFits(page, limit)
    ensures r.Err? ==> r.message == FetchAllFailed
    ensures r.Ok? ==> |r.value| <= limit
    ensures r.Ok? ==> Store.IsPage(r.value, Store.Filter(Store.Rows(t), RoleFilter(role)), page, limit)
    ensures r.Ok? ==> forall u :: u in r.value ==> u in Store.Rows(t)
    ensures r.Ok? && role.Some? ==> forall u :: u in r.value ==> u.fields.role == role
    ensures r.Ok? && role.None? ==> Store.IsPage(r.value, Store.Rows(t), page, limit)
  {
    Store.FilterEverything(Store.Rows(t));
    Rethrow(Store.FindMany(t, RoleFilter(role), page, limit), FetchAllFailed)
  }

  /** Every user with the requested role, soft-deleted or not, is on some
      page of the listing. */
  lemma GetUsersListsEveryMatch(t: UserTable, role: Option<string>, id: Id, limit: nat) returns (page: nat)
    requires Store.Valid(t) && Store.Addressable(t) && limit >= 1
    requires id in t.rows && (role.None? || t.rows[id].fields.role == role)
    ensures page >= 1 && GetUsers(t, role, page, limit).Ok? && t.rows[id] in GetUsers(t, role, page, limit).value
  {
    assert RoleFilter(role)(t.rows[id]);
    page := Store.FindManyListsEveryKeptRow(t, RoleFilter(role), id, limit);
  }

  /** `user.role !== role` is false only for a stored role equal to the one
      asked for: a null column never equals an absent argument. */
  predicate RoleMatches(stored: Option<string>, asked: Option<string>) {
    stored.Some? && asked == stored
  }

  /** `getUserById(id, role)`. */
  function GetUserById(t: UserTable, id: Id, role: Option<string>): (r: Result<UserRow>)
    ensures r.Ok? <==> id in t.rows && Store.Live(t.rows[id]) && t.rows[id].fields.role.Some? && t.rows[id].fields.role == role
    ensures r.Ok? ==> r.value == t.rows[id]
    ensures r.Err? ==> r.message == FetchFailed
  {
    var found := Store.Find(t, id);
    if found.None? || !Store.Live(found.value) || !RoleMatches(found.value.fields.role, role) then Err(FetchFailed)
    else Ok(found.value)
  }

  /** A Prisma `data` member that is `undefined` leaves the column as it is. */
  function Given(v: Option<string>, kept: Option<string>): (r: Option<string>)
    ensures v.Some? ==> r == v
    ensures v.None? ==> r == kept
  {
    if v.Some? then v else kept
  }

  /** Another user already holds this address. */
  predicate EmailHeldByOther(t: UserTable, id: Id, e: string) {
    exists other :: other in t.rows && other != id && t.rows[other].fields.email == e
  }

  /** `updateUser(id, user, schema)`: the user must be live and have the
      role the body names; the password is hashed again. An e-mail another
      user holds violates the unique constraint. */
  function UpdateUser(t: UserTable, id: Id, body: Object, schema: Option<Joi.Schema>, hasher: Crypto.Hasher): (r: Result<(UserTable, UserRow)>)
    requires KnownSchema(schema)
    ensures schema.None? ==> r == Err(NoSchema)
    ensures schema.Some? && !Joi.Admits(schema.value, body) ==> r == Err(ValidationMessage(Joi.Complaint(schema.value, body)))
    ensures schema.Some? && Joi.Admits(schema.value, body) ==> UserBody(body)
    ensures schema.Some? && Joi.Admits(schema.value, body) ==>
              (r.Ok? <==> && id in t.rows && Store.Live(t.rows[id])
                          && RoleMatches(t.rows[id].fields.role, OptTextOf(body, "role"))
                          && !EmailHeldByOther(t, id, body["email"].s))
    ensures r.Err? ==> r.message == NoSchema || r.message == UpdateFailed || IsValidationMessage(r.message)
    ensures r.Ok? ==> UserBody(body)
    ensures r.Ok? ==> r.value.1.id == t.rows[id].id && r.value.1.deletedAt == t.rows[id].deletedAt
    ensures r.Ok? ==> r.value.1.fields.name == body["name"].s && r.value.1.fields.email == body["email"].s
    ensures r.Ok? ==> r.value.1.fields.password == hasher.hash(body["password"].s)
    ensures r.Ok? ==> r.value.1.fields.role == t.rows[id].fields.role
    ensures r.Ok? ==> r.value.1.fields.profileImage == t.rows[id].fields.profileImage
    ensures r.Ok? ==> r.value.1.fields.farmName == (if "farmName" in body then Some(body["farmName"].s) else t.rows[id].fields.farmName)
    ensures r.Ok? ==> r.value.1.fields.location == (if "location" in body then Some(body["location"].s) else t.rows[id].fields.location)
    ensures r.Ok? ==> r.value.0 == Store.Table(t.rows[id := r.value.1], t.order)
  {
    if schema.None? then Err(NoSchema)
    else
      AdmittedUserBody(schema.value, body);
      var v := Joi.Validate(schema.value, body);
      if v.Err? then Err(ValidationMessage(v.message))
      else
        var found := Store.Find(t, id);
        if found.None? || !Store.Live(found.value) || !RoleMatches(found.value.fields.role, OptTextOf(body, "role")) then Err(UpdateFailed)
        else if EmailHeldByOther(t, id, body["email"].s) then Err(UpdateFailed)
        else
          var before := found.value.fields;
          var user := User(body["name"].s, body["email"].s, hasher.hash(body["password"].s),
                           Given(OptTextOf(body, "farmName"), before.farmName),
                           Given(OptTextOf(body, "location"), before.location),
                           Given(OptTextOf(body, "profileImage"), before.profileImage),
                           Given(OptTextOf(body, "role"), before.role));
          Rethrow(Store.Update(t, id, user), UpdateFailed)
  }

  /** An update keeps e-mails unique. */
  lemma UpdateKeepsEmailsUnique(t: UserTable, id: Id, body: Object, schema: Option<Joi.Schema>, hasher: Crypto.Hasher)
    requires KnownSchema(schema)
    requires UniqueEmails(t)
    requires UpdateUser(t, id, body, schema, hasher).Ok?
    ensures UniqueEmails(UpdateUser(t, id, body, schema, hasher).value.0)
  {
    var t' := UpdateUser(t, id, body, schema, hasher).value.0;
    var e := body["email"].s;
    assert !EmailHeldByOther(t, id, e);
    forall a, b | a in t'.rows && b in t'.rows && t'.rows[a].fields.email == t'.rows[b].fields.email
      ensures a == b
    {
      if a != id && b != id {
        assert t'.rows[a] == t.rows[a] && t'.rows[b] == t.rows[b];
      }
    }
  }

  /** An update body without a role never matches: `existingUser.role !==
      undefined` holds for every stored role. */
  lemma UpdateWithoutRoleFails(t: UserTable, id: Id, body: Object, schema: Option<Joi.Schema>, hasher: Crypto.Hasher)
    requires KnownSchema(schema)
    requires "role" !in body
    ensures UpdateUser(t, id, body, schema, hasher).Err?
  {
  }

  /** `deleteUser(id)`: no look-up first; a second call re-stamps. */
  function DeleteUser(t: UserTable, id: Id, now: Time): (r: Result<(UserTable, UserRow)>)
    ensures r.Ok? <==> id in t.rows
    ensures r.Ok? ==> r.value.1 == t.rows[id].(deletedAt := Some(now))
    ensures r.Ok? ==> r.value.0 == Store.Table(t.rows[id := r.value.1], t.order)
    ensures r.Err? ==> r.message == DeleteFailed
  {
    Rethrow(Store.Stamp(t, id, now), DeleteFailed)
  }

  /** `permanentlyDeleteUser(id)`: soft-deleted users can be purged too. */
  function PermanentlyDeleteUser(t: UserTable, id: Id): (r: Result<(UserTable, UserRow)>)
    ensures r.Ok? <==> id in t.rows
    ensures r.Ok? ==> r.value.1 == t.rows[id]
    ensures r.Ok? ==> r.value.0.rows == t.rows - {id}
    ensures r.Ok? && Store.Valid(t) ==> Store.Valid(r.value.0)
    ensures r.Err? ==> r.message == PurgeFailed
  {
    var found := Store.Find(t, id);
    if found.None? then Err(PurgeFailed)
    else
      Store.RemoveValid(t, id);
      Rethrow(Store.Remove(t, id), PurgeFailed)
  }

  /** A soft-deleted user keeps the address: signing up again with it fails,
      while logging in with it fails too. */
  lemma SoftDeletedUserBlocksEmail(t: UserTable, id: Id, now: Time, body: Object, schema: Option<Joi.Schema>, newId: Id, hasher: Crypto.Hasher)
    requires KnownSchema(schema) && schema.Some?
    requires Store.Valid(t) && UniqueEmails(t)
    requires id in t.rows
    requires Joi.Admits(schema.value, body)
    ensures UserBody(body)
    ensures var t' := DeleteUser(t, id, now).value.0;
            body["email"].s == t.rows[id].fields.email ==>
              && CreateUser(t', body, schema, newId, hasher) == Err(CreateFailedPrefix + DuplicateEmail)
              && LoginUser(t', Some(body["email"]), Some(body["password"]), hasher) == Err(LoginFailed)
  {
    AdmittedUserBody(schema.value, body);
    var t' := DeleteUser(t, id, now).value.0;
    if body["email"].s == t.rows[id].fields.email {
      assert t'.rows[id].fields.email == body["email"].s;
      assert Store.Valid(t') && UniqueEmails(t');
      FindByEmailUnique(t', id);
      LoginSchemaAdmits(Some(body["email"]), Some(body["password"]));
    }
  }

  /** A second soft delete succeeds and moves the stamp; fetching by id then
      fails, and the user can still be purged. */
  lemma SoftDeleteRestamps(t: UserTable, id: Id, now: Time, later: Time, role: Option<string>)
    requires DeleteUser(t, id, now).Ok?
    ensures var t' := DeleteUser(t, id, now).value.0;
            && GetUserById(t', id, role) == Err(FetchFailed)
            && DeleteUser(t', id, later).Ok?
            && DeleteUser(t', id, later).value.1.deletedAt == Some(later)
            && PermanentlyDeleteUser(t', id).Ok?
  {
  }

  /** After a purge the id is gone for every id-keyed operation. */
  lemma PurgedUserIsGone(t: UserTable, id: Id, now: Time, role: Option<string>)
    requires PermanentlyDeleteUser(t, id).Ok?
    ensures var t' := PermanentlyDeleteUser(t, id).value.0;
            && GetUserById(t', id, role).Err?
            && DeleteUser(t', id, now).Err?
            && PermanentlyDeleteUser(t', id).Err?
  {
  }
}
