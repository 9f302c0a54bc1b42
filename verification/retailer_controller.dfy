/** The retailer HTTP handlers. `createRetailer` first copies the uploaded
    file's path into the body; without an upload that copy throws. The
    service as written never hashes successfully, so creation and update are
    given twice: `...AsWritten` over the service as it is, and the plain name
    over the service with its hash call working as intended. */
module RetailerController {
  import opened Base
  import opened Json
  import Store
  import Joi
  import Crypto
  import Http
  import S = RetailerService

  /** What `req.file.path` throws when no file was uploaded. */
  const NoUpload: string := "Cannot read properties of undefined (reading 'path')"

  /** `req.body.profileImage = req.file.path`. */
  function WithUpload(body: Object, path: string): (b: Object)
    ensures b.Keys == body.Keys + {"profileImage"}
    ensures b["profileImage"] == Str(path)
    ensures forall k :: k in body && k != "profileImage" ==> b[k] == body[k]
  {
    body["profileImage" := Str(path)]
  }

  /** `createRetailer` over the service as written: no request is ever
      created. A valid form with an upload fails in the hash call. */
  function CreateRetailerAsWritten(t: S.RetailerTable, body: Object, file: Option<string>, newId: Id): (r: (S.RetailerTable, Http.Response<S.RetailerRow>))
    ensures r.0 == t && r.1.Code() == 400
    ensures file.None? ==> r.1 == Http.Fail(400, Http.BadRequest, NoUpload)
    ensures file.Some? && S.WellFormed(WithUpload(body, file.value)) ==> r.1 == Http.Fail(400, Http.BadRequest, S.CreateFailed)
    ensures file.Some? && !S.WellFormed(WithUpload(body, file.value)) ==> r.1.payload.ErrorText? && IsValidationMessage(r.1.payload.error)
  {
    if file.None? then (t, Http.Fail(400, Http.BadRequest, NoUpload))
    else Created(t, S.CreateRetailerAsWritten(t, WithUpload(body, file.value), newId))
  }

  /** The `try` / `catch` around `retailerService.createRetailer`. */
  function Created(t: S.RetailerTable, created: Result<(S.RetailerTable, S.RetailerRow)>): (r: (S.RetailerTable, Http.Response<S.RetailerRow>))
    ensures created.Ok? ==> r == (created.value.0, Http.Success(201, "Retailer created successfully", created.value.1))
    ensures created.Err? ==> r == (t, Http.Fail(400, Http.BadRequest, created.message))
  {
    if created.Ok? then (created.value.0, Http.Success(201, "Retailer created successfully", created.value.1))
    else (t, Http.Fail(400, Http.BadRequest, created.message))
  }

  /** `createRetailer` with the hash called: 201 with the new retailer, else
      400 — including a request without an upload. `file` is the uploaded
      file's path. */
  function CreateRetailer(t: S.RetailerTable, body: Object, file: Option<string>, newId: Id, hasher: Crypto.Hasher): (r: (S.RetailerTable, Http.Response<S.RetailerRow>))
    ensures file.None? ==> r == (t, Http.Fail(400, Http.BadRequest, NoUpload))
    ensures r.1.Code() == 201 <==> file.Some? && S.WellFormed(WithUpload(body, file.value)) && newId !in t.rows
    ensures r.1.Code() in {201, 400}
    ensures r.1.Code() == 201 ==> r.1.payload.Data? && r.1.payload.value.fields.profileImage == file.value
    ensures r.1.Code() == 201 ==> r.0.rows == t.rows[newId := r.1.payload.value]
    ensures r.1.Code() == 400 ==> r.0 == t
  {
    if file.None? then (t, Http.Fail(400, Http.BadRequest, NoUpload))
    else Created(t, S.CreateRetailer(t, WithUpload(body, file.value), newId, hasher))
  }

  /** The uploaded path wins over any `profileImage` the client sent, and
      it is what makes an otherwise complete form valid. */
  lemma UploadSuppliesProfileImage(t: S.RetailerTable, body: Object, path: string, newId: Id, hasher: Crypto.Hasher)
    requires path != "" && newId !in t.rows
    requires body.Keys == {"name", "email", "password"} || body.Keys == {"name", "email", "password", "profileImage"}
    requires body["name"].Str? && body["name"].s != "" && body["password"].Str? && body["password"].s != ""
    requires body["email"].Str? && body["email"].s != "" && Joi.IsEmail(body["email"].s)
    ensures CreateRetailer(t, body, Some(path), newId, hasher).1.Code() == 201
    ensures CreateRetailer(t, body, Some(path), newId, hasher).1.payload.value.fields.profileImage == path
  {
    var b := WithUpload(body, path);
    assert b.Keys == {"name", "email", "password", "profileImage"};
    assert S.WellFormed(b);
  }

  /** `getRetailers`: 400 for a bad query, 500 when the offset does not
      fit, else 200 with the page, deleted retailers included. */
  function GetRetailers(t: S.RetailerTable, query: Object): (r: Http.Response<seq<S.RetailerRow>>)
    ensures r.Code() == 400 <==> !Http.ValidPaging(query)
    ensures r.Code() == 500 <==> Http.SkipOverflows(query)
    ensures r.Code() in {200, 400, 500}
    ensures r.Code() == 500 ==> r == Http.Fail(500, Http.InternalError, S.FetchAllFailed)
    ensures r.Code() == 200 ==> r.payload.Data? && |r.payload.value| <= Http.Pagination(query).value.limit
    ensures r.Code() == 200 ==> forall a :: a in r.payload.value ==> a in Store.Rows(t)
    ensures r.Code() == 200 ==> Store.IsPage(r.payload.value, Store.Rows(t), Http.Pagination(query).value.page, Http.Pagination(query).value.limit)
  {
    var paging := Http.Pagination(query);
    if paging.Err? then Http.Fail(400, Http.BadRequest, paging.message)
    else Http.Listed("Retailers fetched successfully", S.GetRetailers(t, paging.value.page, paging.value.limit))
  }

  /** `getRetailerById`: 200 with a live retailer, 500 otherwise; the 404
      branch is never taken. */
  function GetRetailerById(t: S.RetailerTable, id: string): (r: Http.Response<S.RetailerRow>)
    ensures r.Code() == 200 <==> id != "" && id in t.rows && Store.Live(t.rows[id])
    ensures r.Code() == 200 ==> r.payload == Http.Data(t.rows[id])
    ensures r.Code() in {200, 400, 500}
    ensures r.Code() == 400 <==> id == ""
  {
    var bad := Http.CheckId(id);
    if bad.Some? then Http.Fail(400, Http.BadRequest, bad.value)
    else
      var found := S.GetRetailerById(t, id);
      if found.Ok? then Http.Success(200, "Retailer fetched successfully", found.value)
      else Http.Fail(500, Http.InternalError, found.message)
  }

  /** `updateRetailer` over the service as written: a valid update of any
      retailer, live or not, fails with 400. */
  function UpdateRetailerAsWritten(t: S.RetailerTable, id: string, body: Object): (r: (S.RetailerTable, Http.Response<S.RetailerRow>))
    ensures r.0 == t && r.1.Code() == 400
    ensures id != "" && S.WellFormed(body) ==> r.1 == Http.Fail(400, Http.BadRequest, S.UpdateFailed)
  {
    var bad := Http.CheckId(id);
    if bad.Some? then (t, Http.Fail(400, Http.BadRequest, bad.value))
    else
      NotFoundIsNeverThrown();
      Updated(t, S.UpdateRetailerAsWritten(t, id, body))
  }

  /** The `try` / `catch` around `retailerService.updateRetailer`. */
  function Updated(t: S.RetailerTable, updated: Result<(S.RetailerTable, S.RetailerRow)>): (r: (S.RetailerTable, Http.Response<S.RetailerRow>))
    ensures updated.Ok? ==> r == (updated.value.0, Http.Success(200, "Retailer updated successfully", updated.value.1))
    ensures updated.Err? && updated.message == S.NotFound ==> r == (t, Http.Fail(404, S.NotFound, updated.message))
    ensures updated.Err? && updated.message != S.NotFound ==> r == (t, Http.Fail(400, Http.BadRequest, updated.message))
  {
    if updated.Ok? then (updated.value.0, Http.Success(200, "Retailer updated successfully", updated.value.1))
    else if updated.message == S.NotFound then (t, Http.Fail(404, S.NotFound, updated.message))
    else (t, Http.Fail(400, Http.BadRequest, updated.message))
  }

  /** "Retailer not found" is neither the update failure nor a validation
      message, so no update failure reaches the 404 branch. */
  lemma NotFoundIsNeverThrown()
    ensures S.NotFound != S.UpdateFailed
    ensures forall d :: S.NotFound != ValidationMessage(d)
  {
    forall d ensures S.NotFound != ValidationMessage(d) {
      assert S.NotFound[0] != ValidationMessage(d)[0];
    }
  }

  /** `updateRetailer` with the hash called: 200 with the updated retailer,
      else 400 or the never-taken 404. */
  function UpdateRetailer(t: S.RetailerTable, id: string, body: Object, hasher: Crypto.Hasher): (r: (S.RetailerTable, Http.Response<S.RetailerRow>))
    ensures r.1.Code() == 200 <==> id != "" && S.WellFormed(body) && id in t.rows && Store.Live(t.rows[id])
    ensures r.1.Code() != 200 ==> r.0 == t
    ensures r.1.Code() == 200 ==> r.1.payload.Data? && r.0.rows == t.rows[id := r.1.payload.value]
  {
    var bad := Http.CheckId(id);
    if bad.Some? then (t, Http.Fail(400, Http.BadRequest, bad.value))
    else Updated(t, S.UpdateRetailer(t, id, body, hasher))
  }

  /** A missing or soft-deleted retailer gets 400, never 404. */
  lemma UpdateRetailerNever404(t: S.RetailerTable, id: string, body: Object, hasher: Crypto.Hasher)
    ensures UpdateRetailer(t, id, body, hasher).1.Code() in {200, 400}
    ensures id != "" && S.WellFormed(body) && !(id in t.rows && Store.Live(t.rows[id])) ==>
              UpdateRetailer(t, id, body, hasher).1 == Http.Fail(400, Http.BadRequest, S.UpdateFailed)
  {
    NotFoundIsNeverThrown();
  }

  /** `deleteRetailer`: 204 with no body, 500 on failure. */
  function DeleteRetailer(t: S.RetailerTable, id: string, now: Time): (r: (S.RetailerTable, Http.Response<S.RetailerRow>))
    ensures r.1.Code() == 204 <==> id != "" && id in t.rows
    ensures r.1.Code() == 204 ==> r.1.NoContent? && r.0.rows == t.rows[id := t.rows[id].(deletedAt := Some(now))]
    ensures r.1.Code() in {204, 400, 500}
    ensures r.1.Code() != 204 ==> r.0 == t
  {
    var bad := Http.CheckId(id);
    if bad.Some? then (t, Http.Fail(400, Http.BadRequest, bad.value))
    else
      var deleted := S.DeleteRetailer(t, id, now);
      if deleted.Ok? then (deleted.value.0, Http.NoContent)
      else (t, Http.Fail(500, Http.InternalError, deleted.message))
  }

  /** `permanentlyDeleteRetailer`: 200 with `data: null`, 500 on failure. */
  function PermanentlyDeleteRetailer(t: S.RetailerTable, id: string): (r: (S.RetailerTable, Http.Response<S.RetailerRow>))
    ensures r.1.Code() == 200 <==> id != "" && id in t.rows
    ensures r.1.Code() == 200 ==> r.1.payload.NullData? && r.0.rows == t.rows - {id}
    ensures r.1.Code() in {200, 400, 500}
    ensures r.1.Code() != 200 ==> r.0 == t
  {
    var bad := Http.CheckId(id);
    if bad.Some? then (t, Http.Fail(400, Http.BadRequest, bad.value))
    else
      var purged := S.PermanentlyDeleteRetailer(t, id);
      if purged.Ok? then (purged.value.0, Http.Done("Retailer permanently deleted successfully"))
      else (t, Http.Fail(500, Http.InternalError, purged.message))
  }

  /** The form `UploadSuppliesProfileImage` completes is refused as written
      and created once the hash is called; a valid update of a live retailer
      likewise answers 400 as written and 200 once corrected. */
  lemma RetailerHandlersDiscrepancy(t: S.RetailerTable, body: Object, path: string, newId: Id, id: string, update: Object, hasher: Crypto.Hasher)
    requires path != "" && newId !in t.rows
    requires body.Keys == {"name", "email", "password"}
    requires body["name"].Str? && body["name"].s != "" && body["password"].Str? && body["password"].s != ""
    requires body["email"].Str? && body["email"].s != "" && Joi.IsEmail(body["email"].s)
    requires id != "" && id in t.rows && Store.Live(t.rows[id]) && S.WellFormed(update)
    ensures CreateRetailerAsWritten(t, body, Some(path), newId).1 == Http.Fail(400, Http.BadRequest, S.CreateFailed)
    ensures CreateRetailer(t, body, Some(path), newId, hasher).1.Code() == 201
    ensures UpdateRetailerAsWritten(t, id, update).1 == Http.Fail(400, Http.BadRequest, S.UpdateFailed)
    ensures UpdateRetailer(t, id, update, hasher).1.Code() == 200
  {
    UploadSuppliesProfileImage(t, body, path, newId, hasher);
  }
}
