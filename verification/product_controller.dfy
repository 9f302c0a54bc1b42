/** The product HTTP handlers. Creation and update failures are all 400;
    lookups and deletions that fail are 500. The listing by category has no
    handler and so no route. */
module ProductController {
  import opened Base
  import opened Json
  import Store
  import Http
  import S = ProductService

  /** `createProduct`: 201 with the new product, 400 with the service's
      message otherwise. */
  function CreateProduct(t: S.ProductTable, body: Object, newId: Id): (r: (S.ProductTable, Http.Response<S.ProductRow>))
    ensures r.1.Code() == 201 <==> S.WellFormed(body) && body["availability"].Bool? && newId !in t.rows
    ensures r.1.Code() in {201, 400}
    ensures r.1.Code() == 201 ==> r.1.payload.Data? && r.1.payload.value.id == newId && S.Describes(r.1.payload.value.fields, body)
    ensures r.1.Code() == 201 ==> r.0.rows == t.rows[newId := r.1.payload.value]
    ensures r.1.Code() == 400 ==> r.0 == t && r.1.payload.ErrorText?
  {
    var created := S.CreateProduct(t, body, newId);
    if created.Ok? then (created.value.0, Http.Success(201, "Product created successfully", created.value.1))
    else (t, Http.Fail(400, Http.BadRequest, created.message))
  }

  /** `getProducts`: 400 for a bad query, 500 when the offset does not fit,
      else 200 with the page, deleted products included. */
  function GetProducts(t: S.ProductTable, query: Object): (r: Http.Response<seq<S.ProductRow>>)
    ensures r.Code() == 400 <==> !Http.ValidPaging(query)
    ensures r.Code() == 500 <==> Http.SkipOverflows(query)
    ensures r.Code() in {200, 400, 500}
    ensures r.Code() == 500 ==> r == Http.Fail(500, Http.InternalError, S.FetchAllFailed)
    ensures r.Code() == 200 ==> r.payload.Data? && |r.payload.value| <= Http.Pagination(query).value.limit
    ensures r.Code() == 200 ==> forall p :: p in r.payload.value ==> p in Store.Rows(t)
    ensures r.Code() == 200 ==> Store.IsPage(r.payload.value, Store.Rows(t), Http.Pagination(query).value.page, Http.Pagination(query).value.limit)
  {
    var paging := Http.Pagination(query);
    if paging.Err? then Http.Fail(400, Http.BadRequest, paging.message)
    else Http.Listed("Products fetched successfully", S.GetProducts(t, paging.value.page, paging.value.limit))
  }

  /** `getProductById`: 200 with a live product, 500 otherwise; the 404
      branch needs a falsy result the service never returns. */
  function GetProductById(t: S.ProductTable, id: string): (r: Http.Response<S.ProductRow>)
    ensures r.Code() == 200 <==> id != "" && id in t.rows && Store.Live(t.rows[id])
    ensures r.Code() == 200 ==> r.payload == Http.Data(t.rows[id])
    ensures r.Code() in {200, 400, 500}
    ensures r.Code() == 500 ==> r.payload == Http.ErrorText(S.FetchFailed)
  {
    var bad := Http.CheckId(id);
    if bad.Some? then Http.Fail(400, Http.BadRequest, bad.value)
    else
      var found := S.GetProductById(t, id);
      if found.Ok? then Http.Success(200, "Product fetched successfully", found.value)
      else Http.Fail(500, Http.InternalError, found.message)
  }

  /** What `createProduct` answered 201 with, `getProductById` serves back
      under the new id. */
  lemma CreatedProductIsServed(t: S.ProductTable, body: Object, newId: Id)
    requires newId != ""
    requires CreateProduct(t, body, newId).1.Code() == 201
    ensures var (t', created) := CreateProduct(t, body, newId);
            GetProductById(t', newId) == Http.Success(200, "Product fetched successfully", created.payload.value)
  {
    S.CreatedProductIsFetchable(t, body, newId);
  }

  /** `updateProduct`: 200 with the updated product, 400 for everything
      else, a missing product included. */
  function UpdateProduct(t: S.ProductTable, id: string, body: Object): (r: (S.ProductTable, Http.Response<S.ProductRow>))
    ensures r.1.Code() == 200 <==> id != "" && S.WellFormed(body) && body["availability"].Bool? && id in t.rows && Store.Live(t.rows[id])
    ensures r.1.Code() in {200, 400}
    ensures r.1.Code() == 200 ==> r.1.payload.Data? && S.Describes(r.1.payload.value.fields, body)
    ensures r.1.Code() == 200 ==> r.0.rows == t.rows[id := r.1.payload.value]
    ensures r.1.Code() == 400 ==> r.0 == t
    ensures id != "" && S.WellFormed(body) && !(id in t.rows && Store.Live(t.rows[id])) ==>
              r.1 == Http.Fail(400, Http.BadRequest, S.UpdateFailed)
  {
    var bad := Http.CheckId(id);
    if bad.Some? then (t, Http.Fail(400, Http.BadRequest, bad.value))
    else
      var updated := S.UpdateProduct(t, id, body);
      if updated.Ok? then (updated.value.0, Http.Success(200, "Product updated successfully", updated.value.1))
      else (t, Http.Fail(400, Http.BadRequest, updated.message))
  }

  /** `deleteProduct`: 200 with `data: null` for a live product, 500
      otherwise. */
  function DeleteProduct(t: S.ProductTable, id: string, now: Time): (r: (S.ProductTable, Http.Response<S.ProductRow>))
    ensures r.1.Code() == 200 <==> id != "" && id in t.rows && Store.Live(t.rows[id])
    ensures r.1.Code() == 200 ==> r.1.payload.NullData? && r.0.rows == t.rows[id := t.rows[id].(deletedAt := Some(now))]
    ensures r.1.Code() in {200, 400, 500}
    ensures r.1.Code() != 200 ==> r.0 == t
  {
    var bad := Http.CheckId(id);
    if bad.Some? then (t, Http.Fail(400, Http.BadRequest, bad.value))
    else
      var deleted := S.DeleteProduct(t, id, now);
      if deleted.Ok? then (deleted.value.0, Http.Done("Product deleted successfully"))
      else (t, Http.Fail(500, Http.InternalError, deleted.message))
  }

  /** Deleting a product twice: the first answers 200, the second 500, and
      the product can then no longer be fetched. */
  lemma SecondDeleteFails(t: S.ProductTable, id: string, now: Time, later: Time)
    requires id != "" && id in t.rows && Store.Live(t.rows[id])
    ensures var (t', first) := DeleteProduct(t, id, now);
            && first.Code() == 200
            && DeleteProduct(t', id, later) == (t', Http.Fail(500, Http.InternalError, S.DeleteFailed))
            && GetProductById(t', id).Code() == 500
  {
  }

  /** `permanentlyDeleteProduct`: 200 with `data: null`, 500 on failure.
      Unlike the other handlers, a rejected id answers 400 with `data: null`
      rather than the Joi message. */
  function PermanentlyDeleteProduct(t: S.ProductTable, id: string): (r: (S.ProductTable, Http.Response<S.ProductRow>))
    ensures id == "" ==> r == (t, Http.Envelope(400, Http.BadRequest, false, Http.NullData))
    ensures r.1.Code() == 200 <==> id != "" && id in t.rows
    ensures r.1.Code() == 200 ==> r.1.payload.NullData? && r.0.rows == t.rows - {id}
    ensures r.1.Code() in {200, 400, 500}
    ensures r.1.Code() != 200 ==> r.0 == t
  {
    var bad := Http.CheckId(id);
    if bad.Some? then (t, Http.Envelope(400, Http.BadRequest, false, Http.NullData))
    else
      var purged := S.PermanentlyDeleteProduct(t, id);
      if purged.Ok? then (purged.value.0, Http.Done("Product permanently deleted successfully"))
      else (t, Http.Fail(500, Http.InternalError, purged.message))
  }
}
