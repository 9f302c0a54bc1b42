/** The admin HTTP handlers: each runs the request checks, calls the service,
    and turns the outcome into an envelope. The service rewrites "Admin not
    found" into a generic message before it throws, so the handlers' 404
    branches never fire. */
module AdminController {
  import opened Base
  import opened Json
  import Store
  import Http
  import Joi
  import S = AdminService

  /** `createAdmin`: 201 with the new admin, or 400 with the service's
      message. */
  function CreateAdmin(t: S.AdminTable, body: Object, newId: Id): (r: (S.AdminTable, Http.Response<S.AdminRow>))
    ensures r.1.Code() == 201 <==> S.WellFormed(body) && newId !in t.rows
    ensures r.1.Code() in {201, 400}
    ensures r.1.Code() == 201 ==> r.1.payload.Data? && r.0.rows == t.rows[newId := r.1.payload.value]
    ensures r.1.Code() == 400 ==> r.0 == t
  {
    var created := S.CreateAdmin(t, body, newId);
    if created.Ok? then (created.value.0, Http.Success(201, "Admin created successfully", created.value.1))
    else (t, Http.Fail(400, Http.BadRequest, created.message))
  }

  /** `getAdmins`: 400 for a bad query, 500 when the listing throws
      because the offset does not fit, else 200 with the page. */
  function GetAdmins(t: S.AdminTable, query: Object): (r: Http.Response<seq<S.AdminRow>>)
    ensures r.Code() == 400 <==> !Http.ValidPaging(query)
    ensures r.Code() == 500 <==> Http.SkipOverflows(query)
    ensures r.Code() in {200, 400, 500}
    ensures r.Code() == 500 ==> r == Http.Fail(500, Http.InternalError, S.FetchAllFailed)
    ensures r.Code() == 200 ==> r.payload.Data? && |r.payload.value| <= Http.Pagination(query).value.limit
    ensures r.Code() == 200 ==> forall a :: a in r.payload.value ==> Store.Live(a) && a in Store.Rows(t)
    ensures r.Code() == 200 ==> Store.IsPage(r.payload.value, Store.Filter(Store.Rows(t), Store.LiveOnly()), Http.Pagination(query).value.page, Http.Pagination(query).value.limit)
  {
    var paging := Http.Pagination(query);
    if paging.Err? then Http.Fail(400, Http.BadRequest, paging.message)
    else Http.Listed("Admins fetched successfully", S.GetAdmins(t, paging.value.page, paging.value.limit))
  }

  /** A client asking for `?page=p&limit=l`, within the safe-integer range
      and with an offset the store accepts, gets 200 with exactly the live
      admins at positions `(p - 1) * l` up to `p * l` of the listing. */
  lemma GetAdminsServesTheAskedPage(t: S.AdminTable, p: nat, l: nat)
    requires 1 <= p <= Joi.MaxSafe && 1 <= l <= Joi.MaxSafe
    requires (p - 1) * l <= Store.MaxSkip
    ensures var r := GetAdmins(t, map["page" := Str(ShowNat(p)), "limit" := Str(ShowNat(l))]);
            r.Code() == 200 && r.payload.Data? && Store.IsPage(r.payload.value, Store.Filter(Store.Rows(t), Store.LiveOnly()), p, l)
  {
    Http.PaginationOfQueryText(p, l);
  }

  /** Two safe numbers whose offset passes `2^63 - 1`: Joi admits the query,
      the listing throws, and the handler answers 500. */
  lemma GetAdminsOffsetOverflow(t: S.AdminTable)
    ensures var r := GetAdmins(t, map["page" := Str(ShowNat(0x1_0000_0001)), "limit" := Str(ShowNat(0x1_0000_0000))]);
            r == Http.Fail(500, Http.InternalError, S.FetchAllFailed)
  {
    Http.PaginationOfQueryText(0x1_0000_0001, 0x1_0000_0000);
  }

  /** `getAdminById`: 200 with a live admin, 500 otherwise. The `else`
      (404) branch needs a falsy result the service never returns. */
  function GetAdminById(t: S.AdminTable, id: string): (r: Http.Response<S.AdminRow>)
    ensures r.Code() == 200 <==> id != "" && id in t.rows && Store.Live(t.rows[id])
    ensures r.Code() == 200 ==> r.payload == Http.Data(t.rows[id])
    ensures r.Code() in {200, 400, 500}
    ensures r.Code() == 400 <==> id == ""
  {
    var bad := Http.CheckId(id);
    if bad.Some? then Http.Fail(400, Http.BadRequest, bad.value)
    else
      var found := S.GetAdminById(t, id);
      if found.Ok? then Http.Success(200, "Admin fetched successfully", found.value)
      else Http.Fail(500, Http.InternalError, found.message)
  }

  /** `updateAdmin`: 200 with the updated admin, 400 for everything else. */
  function UpdateAdmin(t: S.AdminTable, id: string, body: Object): (r: (S.AdminTable, Http.Response<S.AdminRow>))
    ensures r.1.Code() == 200 <==> id != "" && S.WellFormed(body) && id in t.rows && Store.Live(t.rows[id])
    ensures r.1.Code() != 200 ==> r.0 == t
    ensures r.1.Code() == 200 ==> r.1.payload.Data? && r.0.rows == t.rows[id := r.1.payload.value]
  {
    var bad := Http.CheckId(id);
    if bad.Some? then (t, Http.Fail(400, Http.BadRequest, bad.value))
    else
      var updated := S.UpdateAdmin(t, id, body);
      if updated.Ok? then (updated.value.0, Http.Success(200, "Admin updated successfully", updated.value.1))
      else if updated.message == S.NotFound then (t, Http.Fail(404, S.NotFound, updated.message))
      else (t, Http.Fail(400, Http.BadRequest, updated.message))
  }

  /** The 404 branch of `updateAdmin` is dead: a missing or soft-deleted
      admin gets 400 with the generic message. */
  lemma UpdateAdminNever404(t: S.AdminTable, id: string, body: Object)
    ensures UpdateAdmin(t, id, body).1.Code() in {200, 400}
    ensures id != "" && S.WellFormed(body) && !(id in t.rows && Store.Live(t.rows[id])) ==>
              UpdateAdmin(t, id, body).1 == Http.Fail(400, Http.BadRequest, S.UpdateFailed)
  {
    assert S.NotFound != S.UpdateFailed;
    assert forall d :: S.NotFound != ValidationMessage(d) by {
      forall d ensures S.NotFound != ValidationMessage(d) {
        assert S.NotFound[0] != ValidationMessage(d)[0];
      }
    }
  }

  /** `deleteAdmin`: 204 with no body, 500 on failure. */
  function DeleteAdmin(t: S.AdminTable, id: string, now: Time): (r: (S.AdminTable, Http.Response<S.AdminRow>))
    ensures r.1.Code() == 204 <==> id != "" && id in t.rows
    ensures r.1.Code() == 204 ==> r.1.NoContent? && r.0.rows == t.rows[id := t.rows[id].(deletedAt := Some(now))]
    ensures r.1.Code() in {204, 400, 500}
    ensures r.1.Code() != 204 ==> r.0 == t
  {
    var bad := Http.CheckId(id);
    if bad.Some? then (t, Http.Fail(400, Http.BadRequest, bad.value))
    else
      var deleted := S.DeleteAdmin(t, id, now);
      if deleted.Ok? then (deleted.value.0, Http.NoContent)
      else (t, Http.Fail(500, Http.InternalError, deleted.message))
  }

  /** `permanentlyDeleteAdmin`: 200 with `data: null`, 500 on failure. */
  function PermanentlyDeleteAdmin(t: S.AdminTable, id: string): (r: (S.AdminTable, Http.Response<S.AdminRow>))
    ensures r.1.Code() == 200 <==> id != "" && id in t.rows
    ensures r.1.Code() == 200 ==> r.1.payload.NullData? && r.0.rows == t.rows - {id}
    ensures r.1.Code() in {200, 400, 500}
    ensures r.1.Code() != 200 ==> r.0 == t
  {
    var bad := Http.CheckId(id);
    if bad.Some? then (t, Http.Fail(400, Http.BadRequest, bad.value))
    else
      var purged := S.PermanentlyDeleteAdmin(t, id);
      if purged.Ok? then (purged.value.0, Http.Done("Admin permanently deleted successfully"))
      else (t, Http.Fail(500, Http.InternalError, purged.message))
  }
}
