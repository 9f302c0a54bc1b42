/** The order HTTP handlers. `updateOrder`, `deleteOrder` and
    `permanentlyDeleteOrder` sort failures by message: "Order not found" is
    404, which the service never throws, and (for `updateOrder`) a message
    starting with "Validation error" is 400; everything else is 500. */
module OrderController {
  import opened Base
  import opened Json
  import Store
  import Http
  import ProductService
  import S = OrderService

  /** `createOrder`: 201 with the new order, 400 with the service's message
      otherwise. The product id is not checked against the product table. */
  function CreateOrder(t: S.OrderTable, body: Object, newId: Id): (r: (S.OrderTable, Http.Response<S.OrderRow>))
    ensures r.1.Code() == 201 <==> S.WellFormed(body) && newId !in t.rows
    ensures r.1.Code() in {201, 400}
    ensures r.1.Code() == 201 ==> r.1.payload.Data? && r.1.payload.value.fields.productId == body["productId"].s
    ensures r.1.Code() == 201 ==> r.0.rows == t.rows[newId := r.1.payload.value]
    ensures r.1.Code() == 400 ==> r.0 == t
  {
    var created := S.CreateOrder(t, body, newId);
    if created.Ok? then (created.value.0, Http.Success(201, "Order created successfully", created.value.1))
    else (t, Http.Fail(400, Http.BadRequest, created.message))
  }

  /** How the `catch` of `updateOrder` sorts a thrown message. */
  function UpdateFailure<D>(message: string): (r: Http.Response<D>)
    ensures r.Code() == 404 <==> message == S.NotFound
    ensures r.Code() == 400 <==> message != S.NotFound && IsValidationMessage(message)
    ensures r.Code() in {400, 404, 500} && r.payload == Http.ErrorText(message)
  {
    if message == S.NotFound then Http.Fail(404, S.NotFound, message)
    else if StartsWith(message, ValidationPrefix) then Http.Fail(400, Http.BadRequest, message)
    else Http.Fail(500, Http.InternalError, message)
  }

  /** `updateOrder`: 200 with the updated order; 400 for a bad id or body;
      500 for a missing or deleted order. */
  function UpdateOrder(t: S.OrderTable, id: string, body: Object): (r: (S.OrderTable, Http.Response<S.OrderRow>))
    ensures r.1.Code() == 200 <==> id != "" && S.WellFormed(body) && id in t.rows && Store.Live(t.rows[id])
    ensures r.1.Code() == 200 ==> r.1.payload.Data? && r.0.rows == t.rows[id := r.1.payload.value]
    ensures r.1.Code() != 200 ==> r.0 == t
  {
    var bad := Http.CheckId(id);
    if bad.Some? then (t, Http.Fail(400, Http.BadRequest, bad.value))
    else
      var updated := S.UpdateOrder(t, id, body);
      if updated.Ok? then (updated.value.0, Http.Success(200, "Order updated successfully", updated.value.1))
      else (t, UpdateFailure(updated.message))
  }

  /** The status of a rejected `updateOrder`: never 404, 400 exactly for a
      bad id or body, 500 for an order that is missing or deleted. */
  lemma UpdateOrderStatus(t: S.OrderTable, id: string, body: Object)
    ensures UpdateOrder(t, id, body).1.Code() in {200, 400, 500}
    ensures UpdateOrder(t, id, body).1.Code() == 400 <==> id == "" || !S.WellFormed(body)
    ensures id != "" && S.WellFormed(body) && !(id in t.rows && Store.Live(t.rows[id])) ==>
              UpdateOrder(t, id, body).1 == Http.Fail(500, Http.InternalError, S.UpdateFailed)
  {
    assert !StartsWith(S.UpdateFailed, ValidationPrefix) by {
      assert S.UpdateFailed[0] != ValidationPrefix[0];
    }
    assert forall d :: S.NotFound != ValidationMessage(d) by {
      forall d ensures S.NotFound != ValidationMessage(d) {
        assert S.NotFound[0] != ValidationMessage(d)[0];
      }
    }
  }

  /** `getOrders`: 400 for a bad query, 500 when the offset does not fit,
      else 200 with the page of live orders. */
  function GetOrders(t: S.OrderTable, query: Object): (r: Http.Response<seq<S.OrderRow>>)
    ensures r.Code() == 400 <==> !Http.ValidPaging(query)
    ensures r.Code() == 500 <==> Http.SkipOverflows(query)
    ensures r.Code() in {200, 400, 500}
    ensures r.Code() == 500 ==> r == Http.Fail(500, Http.InternalError, S.FetchAllFailed)
    ensures r.Code() == 200 ==> r.payload.Data? && |r.payload.value| <= Http.Pagination(query).value.limit
    ensures r.Code() == 200 ==> forall o :: o in r.payload.value ==> Store.Live(o) && o in Store.Rows(t)
    ensures r.Code() == 200 ==> Store.IsPage(r.payload.value, Store.Filter(Store.Rows(t), Store.LiveOnly()), Http.Pagination(query).value.page, Http.Pagination(query).value.limit)
  {
    var paging := Http.Pagination(query);
    if paging.Err? then Http.Fail(400, Http.BadRequest, paging.message)
    else Http.Listed("Orders fetched successfully", S.GetOrders(t, paging.value.page, paging.value.limit))
  }

  /** `getOrderById`: 200 with the live order and its product, 500 when
      either is missing; the 404 branch is never taken. */
  function GetOrderById(t: S.OrderTable, products: ProductService.ProductTable, id: string): (r: Http.Response<(S.OrderRow, ProductService.ProductRow)>)
    ensures r.Code() == 200 <==> id != "" && id in t.rows && Store.Live(t.rows[id]) && t.rows[id].fields.productId in products.rows
    ensures r.Code() == 200 ==> r.payload == Http.Data((t.rows[id], products.rows[t.rows[id].fields.productId]))
    ensures r.Code() in {200, 400, 500}
    ensures r.Code() == 500 ==> r.payload == Http.ErrorText(S.FetchFailed)
  {
    var bad := Http.CheckId(id);
    if bad.Some? then Http.Fail(400, Http.BadRequest, bad.value)
    else
      var found := S.GetOrderById(t, products, id);
      if found.Ok? then Http.Success(200, "Order fetched successfully", found.value)
      else Http.Fail(500, Http.InternalError, found.message)
  }

  /** How the `catch` of the two deletions sorts a thrown message: the 404
      answer carries `data: null`. */
  function DeleteFailure<D>(message: string): (r: Http.Response<D>)
    ensures r.Code() == 404 <==> message == S.NotFound
    ensures r.Code() == 404 ==> r.payload.NullData?
    ensures r.Code() != 404 ==> r == Http.Fail(500, Http.InternalError, message)
  {
    if message == S.NotFound then Http.Envelope(404, S.NotFound, false, Http.NullData)
    else Http.Fail(500, Http.InternalError, message)
  }

  /** `deleteOrder`: 200 with `data: null` for a live order, 500 otherwise. */
  function DeleteOrder(t: S.OrderTable, id: string, now: Time): (r: (S.OrderTable, Http.Response<S.OrderRow>))
    ensures r.1.Code() == 200 <==> id != "" && id in t.rows && Store.Live(t.rows[id])
    ensures r.1.Code() == 200 ==> r.1.payload.NullData? && r.0.rows == t.rows[id := t.rows[id].(deletedAt := Some(now))]
    ensures r.1.Code() != 200 ==> r.0 == t
  {
    var bad := Http.CheckId(id);
    if bad.Some? then (t, Http.Fail(400, Http.BadRequest, bad.value))
    else
      var deleted := S.DeleteOrder(t, id, now);
      if deleted.Ok? then (deleted.value.0, Http.Done("Order deleted successfully"))
      else (t, DeleteFailure(deleted.message))
  }

  /** `permanentlyDeleteOrder`: 200 with `data: null`, 500 on failure. */
  function PermanentlyDeleteOrder(t: S.OrderTable, id: string): (r: (S.OrderTable, Http.Response<S.OrderRow>))
    ensures r.1.Code() == 200 <==> id != "" && id in t.rows
    ensures r.1.Code() == 200 ==> r.1.payload.NullData? && r.0.rows == t.rows - {id}
    ensures r.1.Code() != 200 ==> r.0 == t
  {
    var bad := Http.CheckId(id);
    if bad.Some? then (t, Http.Fail(400, Http.BadRequest, bad.value))
    else
      var purged := S.PermanentlyDeleteOrder(t, id);
      if purged.Ok? then (purged.value.0, Http.Done("Order permanently deleted successfully"))
      else (t, DeleteFailure(purged.message))
  }

  /** Neither deletion answers 404: a missing order is 500. */
  lemma DeletionsNever404(t: S.OrderTable, id: string, now: Time)
    ensures DeleteOrder(t, id, now).1.Code() in {200, 400, 500}
    ensures PermanentlyDeleteOrder(t, id).1.Code() in {200, 400, 500}
    ensures id != "" && id !in t.rows ==>
              DeleteOrder(t, id, now).1 == Http.Fail(500, Http.InternalError, S.DeleteFailed)
              && PermanentlyDeleteOrder(t, id).1 == Http.Fail(500, Http.InternalError, S.PurgeFailed)
  {
    assert S.NotFound != S.DeleteFailed && S.NotFound != S.PurgeFailed;
  }

  /** An order whose product was purged still lists but answers 500 by id. */
  lemma OrphanedOrderAnswers500(t: S.OrderTable, products: ProductService.ProductTable, id: string)
    requires id != "" && id in t.rows && Store.Live(t.rows[id])
    requires ProductService.PermanentlyDeleteProduct(products, t.rows[id].fields.productId).Ok?
    ensures var products' := ProductService.PermanentlyDeleteProduct(products, t.rows[id].fields.productId).value.0;
            GetOrderById(t, products', id) == Http.Fail(500, Http.InternalError, S.FetchFailed)
  {
  }
}
