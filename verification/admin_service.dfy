/** The admin table and its service: validate, then one store call inside a
    `try` whose `catch` replaces every failure by a fixed "Error …ing admin"
    message. Admins are stored exactly as sent, password included, and the
    listing hides soft-deleted admins. */
module AdminService {
  import opened Base
  import opened Json
  import Joi
  import Store

  datatype Admin = Admin(name: string, email: string, password: string, profileImage: string)

  type AdminTable = Store.Table<Admin>
  type AdminRow = Store.Row<Admin>

  const AdminSchema: Joi.Schema := [
    Joi.Rule("name", Joi.Text, true, [], None),
    Joi.Rule("email", Joi.Email, true, [], None),
    Joi.Rule("password", Joi.Text, true, [], None),
    Joi.Rule("profileImage", Joi.Text, true, [], None)
  ]

  const NotFound: string := "Admin not found"
  const CreateFailed: string := "Error creating admin"
  const FetchAllFailed: string := "Error fetching admins"
  const FetchFailed: string := "Error fetching admin"
  const UpdateFailed: string := "Error updating admin"
  const DeleteFailed: string := "Error deleting admin"
  const PurgeFailed: string := "Error permanently deleting admin"

  /** An admitted body has exactly the four keys, each a non-empty string
      (and the e-mail well formed). */
  predicate WellFormed(body: Object) {
    && body.Keys == {"name", "email", "password", "profileImage"}
    && body["name"].Str? && body["name"].s != ""
    && body["email"].Str? && body["email"].s != "" && Joi.IsEmail(body["email"].s)
    && body["password"].Str? && body["password"].s != ""
    && body["profileImage"].Str? && body["profileImage"].s != ""
  }

  lemma SchemaAdmits(body: Object)
    ensures Joi.Admits(AdminSchema, body) <==> WellFormed(body)
  {
    assert Joi.KeysOf(AdminSchema) == {"name", "email", "password", "profileImage"} by {
      assert AdminSchema[0].key == "name" && AdminSchema[1].key == "email";
      assert AdminSchema[2].key == "password" && AdminSchema[3].key == "profileImage";
    }
    if Joi.Admits(AdminSchema, body) {
      assert Joi.KeyOk(AdminSchema[0], body) && Joi.KeyOk(AdminSchema[1], body);
      assert Joi.KeyOk(AdminSchema[2], body) && Joi.KeyOk(AdminSchema[3], body);
    }
    if WellFormed(body) {
      assert forall i :: 0 <= i < |AdminSchema| ==> Joi.KeyOk(AdminSchema[i], body);
    }
  }

  /** The record `data: admin` writes: the body as given. */
  function AdminOf(body: Object): Admin {
    Admin(TextOf(body, "name"), TextOf(body, "email"), TextOf(body, "password"), TextOf(body, "profileImage"))
  }

  /** `createAdmin(admin)`. */
  function CreateAdmin(t: AdminTable, body: Object, newId: Id): (r: Result<(AdminTable, AdminRow)>)
    ensures !WellFormed(body) ==> r == Err(ValidationMessage(Joi.Complaint(AdminSchema, body)))
    ensures WellFormed(body) ==> (r.Ok? <==> newId !in t.rows)
    ensures r.Err? ==> IsValidationMessage(r.message) || r.message == CreateFailed
    ensures WellFormed(body) && r.Err? ==> r.message == CreateFailed
    ensures r.Ok? ==> r.value.1.id == newId && r.value.1.deletedAt == None
    ensures r.Ok? ==> r.value.1.fields == Admin(body["name"].s, body["email"].s, body["password"].s, body["profileImage"].s)
    ensures r.Ok? ==> r.value.0.rows == t.rows[newId := r.value.1]
    ensures r.Ok? && Store.Valid(t) ==> Store.Valid(r.value.0)
  {
    SchemaAdmits(body);
    var v := Joi.Validate(AdminSchema, body);
    if v.Err? then Err(ValidationMessage(v.message))
    else
      var created := Store.Create(t, newId, AdminOf(body));
      Store.CreateValid(t, newId, AdminOf(body));
      Rethrow(created, CreateFailed)
  }

  /** No look-up precedes `create`: with no unique constraint on `email`,
      two admins with one e-mail address are both created. */
  lemma DuplicateEmailAccepted(t: AdminTable, body: Object, id1: Id, id2: Id)
    requires WellFormed(body) && id1 != id2 && id1 !in t.rows && id2 !in t.rows
    ensures var first := CreateAdmin(t, body, id1);
            && first.Ok?
            && CreateAdmin(first.value.0, body, id2).Ok?
            && CreateAdmin(first.value.0, body, id2).value.1.fields.email == first.value.1.fields.email
  {
  }

  /** The stored password is the one sent, unhashed. */
  lemma AdminPasswordStoredInPlain(t: AdminTable, body: Object, newId: Id)
    requires CreateAdmin(t, body, newId).Ok?
    ensures CreateAdmin(t, body, newId).value.1.fields.password == body["password"].s
    ensures "password" in body && body["password"] == Str(CreateAdmin(t, body, newId).value.1.fields.password)
  {
  }

  /** `getAdmins(page, limit)`: live admins only, or "Error fetching
      admins" when the offset does not fit the query. */
  function GetAdmins(t: AdminTable, page: nat, limit: nat): (r: Result<seq<AdminRow>>)
    requires page >= 1
    ensures r.Ok? <==> Store.SkipFits(page, limit)
    ensures r.Err? ==> r.message == FetchAllFailed
    ensures r.Ok? ==> |r.value| <= limit
    ensures r.Ok? ==> Store.IsPage(r.value, Store.Filter(Store.Rows(t), Store.LiveOnly()), page, limit)
    ensures r.Ok? ==> forall a :: a in r.value ==> Store.Live(a) && a in Store.Rows(t)
  {
    Rethrow(Store.FindMany(t, Store.LiveOnly(), page, limit), FetchAllFailed)
  }

  /** `getAdminById(id)`. */
  function GetAdminById(t: AdminTable, id: Id): (r: Result<AdminRow>)
    ensures r.Ok? <==> id in t.rows && Store.Live(t.rows[id])
    ensures r.Ok? ==> r.value == t.rows[id]
    ensures r.Err? ==> r.message == FetchFailed
  {
    Rethrow(Store.FindLive(t, id, NotFound), FetchFailed)
  }

  /** `updateAdmin(id, admin)`: the four columns are overwritten with the
      body as given; id, stamp and place are kept. */
  function UpdateAdmin(t: AdminTable, id: Id, body: Object): (r: Result<(AdminTable, AdminRow)>)
    ensures !WellFormed(body) ==> r == Err(ValidationMessage(Joi.Complaint(AdminSchema, body)))
    ensures WellFormed(body) ==> (r.Ok? <==> id in t.rows && Store.Live(t.rows[id]))
    ensures r.Err? ==> IsValidationMessage(r.message) || r.message == UpdateFailed
    ensures WellFormed(body) && r.Err? ==> r.message == UpdateFailed
    ensures r.Ok? ==> r.value.1 == t.rows[id].(fields := Admin(body["name"].s, body["email"].s, body["password"].s, body["profileImage"].s))
    ensures r.Ok? ==> r.value.0 == Store.Table(t.rows[id := r.value.1], t.order)
  {
    SchemaAdmits(body);
    var v := Joi.Validate(AdminSchema, body);
    if v.Err? then Err(ValidationMessage(v.message))
    else
      var found := Store.FindLive(t, id, NotFound);
      if found.Err? then Err(UpdateFailed)
      else Rethrow(Store.Update(t, id, AdminOf(body)), UpdateFailed)
  }

  /** `deleteAdmin(id)`: a bare `update` of `deletedAt`, with no look-up
      first, so an already soft-deleted admin is stamped again. */
  function DeleteAdmin(t: AdminTable, id: Id, now: Time): (r: Result<(AdminTable, AdminRow)>)
    ensures r.Ok? <==> id in t.rows
    ensures r.Ok? ==> r.value.1 == t.rows[id].(deletedAt := Some(now))
    ensures r.Ok? ==> r.value.0 == Store.Table(t.rows[id := r.value.1], t.order)
    ensures r.Err? ==> r.message == DeleteFailed
  {
    Rethrow(Store.Stamp(t, id, now), DeleteFailed)
  }

  /** `permanentlyDeleteAdmin(id)`: soft-deleted admins can be purged too. */
  function PermanentlyDeleteAdmin(t: AdminTable, id: Id): (r: Result<(AdminTable, AdminRow)>)
    ensures r.Ok? <==> id in t.rows
    ensures r.Ok? ==> r.value.1 == t.rows[id] && id !in r.value.0.rows
    ensures r.Ok? ==> r.value.0.rows == t.rows - {id}
    ensures r.Ok? && Store.Valid(t) ==> Store.Valid(r.value.0)
    ensures r.Err? ==> r.message == PurgeFailed
  {
    var found := Store.Find(t, id);
    if found.None? then Err(PurgeFailed)
    else
      Store.RemoveValid(t, id);
      Rethrow(Store.Remove(t, id), PurgeFailed)
  }

  /** A created admin can be fetched back by its id. */
  lemma CreatedAdminIsFetchable(t: AdminTable, body: Object, newId: Id)
    requires CreateAdmin(t, body, newId).Ok?
    ensures var (t', row) := CreateAdmin(t, body, newId).value;
            GetAdminById(t', newId) == Ok(row)
  {
  }

  /** After a soft delete the admin cannot be fetched, updated or listed on
      any page, can be stamped again, and can still be purged. */
  lemma SoftDeletedAdminIsHidden(t: AdminTable, id: Id, now: Time, later: Time, body: Object, page: nat, limit: nat)
    requires DeleteAdmin(t, id, now).Ok?
    requires page >= 1
    ensures var t' := DeleteAdmin(t, id, now).value.0;
            && GetAdminById(t', id) == Err(FetchFailed)
            && UpdateAdmin(t', id, body).Err?
            && (GetAdmins(t', page, limit).Ok? ==> t'.rows[id] !in GetAdmins(t', page, limit).value)
            && DeleteAdmin(t', id, later).Ok?
            && DeleteAdmin(t', id, later).value.1.deletedAt == Some(later)
            && PermanentlyDeleteAdmin(t', id).Ok?
  {
  }

  /** A live admin appears on some page of the listing. */
  lemma LiveAdminIsListed(t: AdminTable, id: Id, limit: nat)
    requires Store.Valid(t) && Store.Addressable(t) && limit >= 1
    requires id in t.rows && Store.Live(t.rows[id])
    ensures exists page :: page >= 1 && GetAdmins(t, page, limit).Ok? && t.rows[id] in GetAdmins(t, page, limit).value
  {
    assert Store.LiveOnly<Admin>()(t.rows[id]);
    var page := Store.FindManyListsEveryKeptRow(t, Store.LiveOnly(), id, limit);
    assert GetAdmins(t, page, limit).Ok? && t.rows[id] in GetAdmins(t, page, limit).value;
  }

  /** After a purge the admin is gone for every operation keyed by id. */
  lemma PurgedAdminIsGone(t: AdminTable, id: Id, now: Time, body: Object)
    requires PermanentlyDeleteAdmin(t, id).Ok?
    ensures var t' := PermanentlyDeleteAdmin(t, id).value.0;
            && GetAdminById(t', id).Err?
            && UpdateAdmin(t', id, body).Err?
            && DeleteAdmin(t', id, now).Err?
            && PermanentlyDeleteAdmin(t', id).Err?
  {
  }
}
