/** The retailer table and its service. The service file imports the whole
    exports object of the hashing utility under the name `hashPassword`, so
    the two calls `hashPassword(password)` throw a TypeError that the
    surrounding `catch` turns into the generic message. `CreateRetailerAsWritten`
    and `UpdateRetailerAsWritten` keep that behaviour; `CreateRetailer` and
    `UpdateRetailer` call the hash function the author meant, and the
    controllers use them. */
module RetailerService {
  import opened Base
  import opened Json
  import Joi
  import Store
  import Crypto

  datatype Retailer = Retailer(name: string, email: string, password: string, profileImage: string)

  type RetailerTable = Store.Table<Retailer>
  type RetailerRow = Store.Row<Retailer>

  const RetailerSchema: Joi.Schema := [
    Joi.Rule("name", Joi.Text, true, [], None),
    Joi.Rule("email", Joi.Email, true, [], None),
    Joi.Rule("password", Joi.Text, true, [], None),
    Joi.Rule("profileImage", Joi.Text, true, [], None)
  ]

  const NotFound: string := "Retailer not found"
  const CreateFailed: string := "Error creating retailer"
  const FetchAllFailed: string := "Error fetching retailers"
  const FetchFailed: string := "Error fetching retailer"
  const UpdateFailed: string := "Error updating retailer"
  const DeleteFailed: string := "Error deleting retailer"
  const PurgeFailed: string := "Error permanently deleting retailer"

  /** An admitted body has exactly name, email, password and profileImage,
      each a non-empty string. */
  predicate WellFormed(body: Object) {
    && body.Keys == {"name", "email", "password", "profileImage"}
    && body["name"].Str? && body["name"].s != ""
    && body["email"].Str? && body["email"].s != "" && Joi.IsEmail(body["email"].s)
    && body["password"].Str? && body["password"].s != ""
    && body["profileImage"].Str? && body["profileImage"].s != ""
  }

  lemma SchemaAdmits(body: Object)
    ensures Joi.Admits(RetailerSchema, body) <==> WellFormed(body)
  {
    assert Joi.KeysOf(RetailerSchema) == {"name", "email", "password", "profileImage"} by {
      assert RetailerSchema[0].key == "name" && RetailerSchema[1].key == "email";
      assert RetailerSchema[2].key == "password" && RetailerSchema[3].key == "profileImage";
    }
    if Joi.Admits(RetailerSchema, body) {
      assert Joi.KeyOk(RetailerSchema[0], body) && Joi.KeyOk(RetailerSchema[1], body);
      assert Joi.KeyOk(RetailerSchema[2], body) && Joi.KeyOk(RetailerSchema[3], body);
    }
    if WellFormed(body) {
      assert forall i :: 0 <= i < |RetailerSchema| ==> Joi.KeyOk(RetailerSchema[i], body);
    }
  }

  /** The four columns written, with the password already hashed. */
  function RetailerOf(body: Object, hasher: Crypto.Hasher): Retailer {
    Retailer(TextOf(body, "name"), TextOf(body, "email"), hasher.hash(TextOf(body, "password")), TextOf(body, "profileImage"))
  }

  /** `createRetailer` as written: once validation passes, the call of the
      exports object throws and the creation always fails. */
  function CreateRetailerAsWritten(t: RetailerTable, body: Object, newId: Id): (r: Result<(RetailerTable, RetailerRow)>)
    ensures !WellFormed(body) ==> r == Err(ValidationMessage(Joi.Complaint(RetailerSchema, body)))
    ensures WellFormed(body) ==> r == Err(CreateFailed)
  {
    SchemaAdmits(body);
    var v := Joi.Validate(RetailerSchema, body);
    if v.Err? then Err(ValidationMessage(v.message))
    else Err(CreateFailed)   // TypeError: hashPassword is not a function
  }

  /** `createRetailer` with the hash function called. No e-mail check: two
      retailers may share an address. */
  function CreateRetailer(t: RetailerTable, body: Object, newId: Id, hasher: Crypto.Hasher): (r: Result<(RetailerTable, RetailerRow)>)
    ensures !WellFormed(body) ==> r == Err(ValidationMessage(Joi.Complaint(RetailerSchema, body)))
    ensures WellFormed(body) ==> (r.Ok? <==> newId !in t.rows)
    ensures r.Err? ==> IsValidationMessage(r.message) || r.message == CreateFailed
    ensures WellFormed(body) && r.Err? ==> r.message == CreateFailed
    ensures r.Ok? ==> r.value.1 == Store.Row(newId, Retailer(body["name"].s, body["email"].s, hasher.hash(body["password"].s), body["profileImage"].s), None)
    ensures r.Ok? ==> r.value.0.rows == t.rows[newId := r.value.1]
    ensures r.Ok? && Store.Valid(t) ==> Store.Valid(r.value.0)
  {
    SchemaAdmits(body);
    var v := Joi.Validate(RetailerSchema, body);
    if v.Err? then Err(ValidationMessage(v.message))
    else
      Store.CreateValid(t, newId, RetailerOf(body, hasher));
      Rethrow(Store.Create(t, newId, RetailerOf(body, hasher)), CreateFailed)
  }

  /** The retailer table does not refuse a second retailer with an e-mail
      already in use. */
  lemma DuplicateEmailAccepted(t: RetailerTable, body: Object, id1: Id, id2: Id, hasher: Crypto.Hasher)
    requires WellFormed(body) && id1 != id2 && id1 !in t.rows && id2 !in t.rows
    ensures var first := CreateRetailer(t, body, id1, hasher);
            && first.Ok?
            && CreateRetailer(first.value.0, body, id2, hasher).Ok?
            && CreateRetailer(first.value.0, body, id2, hasher).value.1.fields.email == first.value.1.fields.email
  {
  }

  /** A valid body and a fresh id: the creation fails as written and succeeds
      once the hash function is called. */
  lemma CreateRetailerDiscrepancy(hasher: Crypto.Hasher)
    ensures var body := map["name" := Str("Farm A"), "email" := Str("a@x.com"), "password" := Str("secret"), "profileImage" := Str("uploads/a.png")];
            var empty := Store.Table(map[], []);
            && CreateRetailerAsWritten(empty, body, "r1").Err?
            && CreateRetailer(empty, body, "r1", hasher).Ok?
            && CreateRetailer(empty, body, "r1", hasher).value.1.fields.password == hasher.hash("secret")
  {
    var body := map["name" := Str("Farm A"), "email" := Str("a@x.com"), "password" := Str("secret"), "profileImage" := Str("uploads/a.png")];
    assert body.Keys == {"name", "email", "password", "profileImage"};
    var at := set i | 0 <= i < |"a@x.com"| && "a@x.com"[i] == '@';
    assert at == {1} by {
      assert "a@x.com"[1] == '@';
      forall i | i in at ensures i == 1 {
        assert "a@x.com"[i] == '@';
      }
    }
    assert Joi.IsEmail("a@x.com");
  }

  /** `getRetailers(page, limit)`: no `deletedAt` filter; "Error fetching
      retailers" when the offset does not fit the query. */
  function GetRetailers(t: RetailerTable, page: nat, limit: nat): (r: Result<seq<RetailerRow>>)
    requires page >= 1
    ensures r.Ok? <==> Store.SkipFits(page, limit)
    ensures r.Err? ==> r.message == FetchAllFailed
    ensures r.Ok? ==> |r.value| <= limit
    ensures r.Ok? ==> Store.IsPage(r.value, Store.Rows(t), page, limit)
    ensures r.Ok? ==> forall a :: a in r.value ==> a in Store.Rows(t)
  {
    Store.FilterEverything(Store.Rows(t));
    Rethrow(Store.FindMany(t, Store.Everything(), page, limit), FetchAllFailed)
  }

  /** `getRetailerById(id)`. */
  function GetRetailerById(t: RetailerTable, id: Id): (r: Result<RetailerRow>)
    ensures r.Ok? <==> id in t.rows && Store.Live(t.rows[id])
    ensures r.Ok? ==> r.value == t.rows[id]
    ensures r.Err? ==> r.message == FetchFailed
  {
    Rethrow(Store.FindLive(t, id, NotFound), FetchFailed)
  }

  /** `updateRetailer` as written: a missing or soft-deleted retailer fails
      before the hash call, and every other admitted update fails at it. */
  function UpdateRetailerAsWritten(t: RetailerTable, id: Id, body: Object): (r: Result<(RetailerTable, RetailerRow)>)
    ensures !WellFormed(body) ==> r == Err(ValidationMessage(Joi.Complaint(RetailerSchema, body)))
    ensures WellFormed(body) ==> r == Err(UpdateFailed)
  {
    SchemaAdmits(body);
    var v := Joi.Validate(RetailerSchema, body);
    if v.Err? then Err(ValidationMessage(v.message))
    else
      var found := Store.FindLive(t, id, NotFound);
      if found.Err? then Err(UpdateFailed)
      else Err(UpdateFailed)   // `if (retailer.password)` holds, and the call throws
  }

  /** `updateRetailer` with the hash function called: the existence check
      comes first, then the four columns are overwritten, password hashed. */
  function UpdateRetailer(t: RetailerTable, id: Id, body: Object, hasher: Crypto.Hasher): (r: Result<(RetailerTable, RetailerRow)>)
    ensures !WellFormed(body) ==> r == Err(ValidationMessage(Joi.Complaint(RetailerSchema, body)))
    ensures WellFormed(body) ==> (r.Ok? <==> id in t.rows && Store.Live(t.rows[id]))
    ensures r.Err? ==> IsValidationMessage(r.message) || r.message == UpdateFailed
    ensures WellFormed(body) && r.Err? ==> r.message == UpdateFailed
    ensures r.Ok? ==> r.value.1 == t.rows[id].(fields := Retailer(body["name"].s, body["email"].s, hasher.hash(body["password"].s), body["profileImage"].s))
    ensures r.Ok? ==> r.value.0 == Store.Table(t.rows[id := r.value.1], t.order)
  {
    SchemaAdmits(body);
    var v := Joi.Validate(RetailerSchema, body);
    if v.Err? then Err(ValidationMessage(v.message))
    else
      var found := Store.FindLive(t, id, NotFound);
      if found.Err? then Err(UpdateFailed)
      else Rethrow(Store.Update(t, id, RetailerOf(body, hasher)), UpdateFailed)
  }

  /** Updating a live retailer: fails as written, succeeds once corrected. */
  lemma UpdateRetailerDiscrepancy(t: RetailerTable, id: Id, body: Object, hasher: Crypto.Hasher)
    requires WellFormed(body)
    requires id in t.rows && Store.Live(t.rows[id])
    ensures UpdateRetailerAsWritten(t, id, body) == Err(UpdateFailed)
    ensures UpdateRetailer(t, id, body, hasher).Ok?
  {
  }

  /** `deleteRetailer(id)`: no look-up first; a second call re-stamps. */
  function DeleteRetailer(t: RetailerTable, id: Id, now: Time): (r: Result<(RetailerTable, RetailerRow)>)
    ensures r.Ok? <==> id in t.rows
    ensures r.Ok? ==> r.value.1 == t.rows[id].(deletedAt := Some(now))
    ensures r.Ok? ==> r.value.0 == Store.Table(t.rows[id := r.value.1], t.order)
    ensures r.Err? ==> r.message == DeleteFailed
  {
    Rethrow(Store.Stamp(t, id, now), DeleteFailed)
  }

  /** `permanentlyDeleteRetailer(id)`. */
  function PermanentlyDeleteRetailer(t: RetailerTable, id: Id): (r: Result<(RetailerTable, RetailerRow)>)
    ensures r.Ok? <==> id in t.rows
    ensures r.Ok? ==> r.value.1 == t.rows[id]
    ensures r.Ok? ==> r.value.0.rows == t.rows - {id}
    ensures r.Ok? && Store.Valid(t) ==> Store.Valid(r.value.0)
    ensures r.Err? ==> r.message == PurgeFailed
  {
    var found := Store.Find(t, id);
    if found.None? then Err(PurgeFailed)
    else
      Store.RemoveValid(t, id);
      Rethrow(Store.Remove(t, id), PurgeFailed)
  }

  /** A soft-deleted retailer stays in the listing: it is on some page. */
  lemma SoftDeletedRetailerIsListed(t: RetailerTable, id: Id, now: Time, limit: nat)
    requires Store.Valid(t) && Store.Addressable(t) && limit >= 1
    requires DeleteRetailer(t, id, now).Ok?
    ensures var t' := DeleteRetailer(t, id, now).value.0;
            exists page :: page >= 1 && GetRetailers(t', page, limit).Ok? && t'.rows[id] in GetRetailers(t', page, limit).value
  {
    var t' := DeleteRetailer(t, id, now).value.0;
    assert Store.Valid(t');
    assert Store.Everything<Retailer>()(t'.rows[id]);
    var page := Store.FindManyListsEveryKeptRow(t', Store.Everything(), id, limit);
    assert GetRetailers(t', page, limit).Ok? && t'.rows[id] in GetRetailers(t', page, limit).value;
  }

  /** After a soft delete the retailer cannot be fetched or updated, is
      stamped again by a second delete, and can still be purged. */
  lemma SoftDeletedRetailerLifecycle(t: RetailerTable, id: Id, now: Time, later: Time, body: Object, hasher: Crypto.Hasher)
    requires DeleteRetailer(t, id, now).Ok?
    ensures var t' := DeleteRetailer(t, id, now).value.0;
            && GetRetailerById(t', id) == Err(FetchFailed)
            && UpdateRetailer(t', id, body, hasher).Err?
            && DeleteRetailer(t', id, later).Ok?
            && DeleteRetailer(t', id, later).value.1.deletedAt == Some(later)
            && PermanentlyDeleteRetailer(t', id).Ok?
  {
  }

  /** After a purge every id-keyed operation fails. */
  lemma PurgedRetailerIsGone(t: RetailerTable, id: Id, now: Time, body: Object, hasher: Crypto.Hasher)
    requires PermanentlyDeleteRetailer(t, id).Ok?
    ensures var t' := PermanentlyDeleteRetailer(t, id).value.0;
            && GetRetailerById(t', id).Err?
            && UpdateRetailer(t', id, body, hasher).Err?
            && DeleteRetailer(t', id, now).Err?
            && PermanentlyDeleteRetailer(t', id).Err?
  {
  }
}
