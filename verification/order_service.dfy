/** The order table and its service. The body is written as sent: the
    `status` default Joi computes is discarded, so an order created without a
    status stores none, and an update without one keeps the stored status.
    Fetching an order also loads its product; soft-deleted orders are hidden
    from every read and cannot be deleted twice. */
module OrderService {
  import opened Base
  import opened Json
  import Joi
  import Store
  import ProductService

  datatype Order = Order(
    productId: Id,
    clientName: string,
    phoneNumber: string,
    email: string,
    address: string,
    status: Option<string>)

  type OrderTable = Store.Table<Order>
  type OrderRow = Store.Row<Order>

  const Statuses: seq<string> := ["Processing", "Delivered", "Cancelled"]

  const OrderSchema: Joi.Schema := [
    Joi.Rule("productId", Joi.Text, true, [], None),
    Joi.Rule("clientName", Joi.Text, true, [], None),
    Joi.Rule("phoneNumber", Joi.Text, true, [], None),
    Joi.Rule("email", Joi.Email, true, [], None),
    Joi.Rule("address", Joi.Text, true, [], None),
    Joi.Rule("status", Joi.Text, false, Statuses, Some(Str("Processing")))
  ]

  const NotFound: string := "Order not found"
  const ProductMissing: string := "Product information is missing for this order"
  const CreateFailed: string := "Error creating order"
  const FetchAllFailed: string := "Error fetching orders"
  const FetchFailed: string := "Error fetching order"
  const UpdateFailed: string := "Error updating order"
  const DeleteFailed: string := "Error deleting order"
  const PurgeFailed: string := "Error permanently deleting order"

  const RequiredKeys: set<string> := {"productId", "clientName", "phoneNumber", "email", "address"}

  /** An admitted body: the five required keys, each a non-empty string (the
      e-mail well formed), and optionally a status from the list; nothing
      else. */
  predicate WellFormed(body: Object) {
    && RequiredKeys <= body.Keys <= RequiredKeys + {"status"}
    && body["productId"].Str? && body["productId"].s != ""
    && body["clientName"].Str? && body["clientName"].s != ""
    && body["phoneNumber"].Str? && body["phoneNumber"].s != ""
    && body["email"].Str? && body["email"].s != "" && Joi.IsEmail(body["email"].s)
    && body["address"].Str? && body["address"].s != ""
    && ("status" in body ==> body["status"].Str? && body["status"].s in Statuses)
  }

  lemma SchemaKeys()
    ensures Joi.KeysOf(OrderSchema) == RequiredKeys + {"status"}
  {
    assert OrderSchema[0].key == "productId" && OrderSchema[1].key == "clientName";
    assert OrderSchema[2].key == "phoneNumber" && OrderSchema[3].key == "email";
    assert OrderSchema[4].key == "address" && OrderSchema[5].key == "status";
  }

  lemma AdmittedFirst(body: Object)
    requires Joi.Admits(OrderSchema, body)
    ensures "productId" in body && "clientName" in body && "phoneNumber" in body
    ensures body["productId"].Str? && body["productId"].s != ""
    ensures body["clientName"].Str? && body["clientName"].s != ""
    ensures body["phoneNumber"].Str? && body["phoneNumber"].s != ""
  {
    assert Joi.KeyOk(OrderSchema[0], body) && Joi.KeyOk(OrderSchema[1], body);
    assert Joi.KeyOk(OrderSchema[2], body);
  }

  lemma AdmittedRest(body: Object)
    requires Joi.Admits(OrderSchema, body)
    ensures "email" in body && "address" in body
    ensures body["email"].Str? && body["email"].s != "" && Joi.IsEmail(body["email"].s)
    ensures body["address"].Str? && body["address"].s != ""
    ensures "status" in body ==> body["status"].Str? && body["status"].s in Statuses
  {
    assert Joi.KeyOk(OrderSchema[3], body) && Joi.KeyOk(OrderSchema[4], body);
    assert Joi.KeyOk(OrderSchema[5], body);
  }

  lemma SchemaAdmits(body: Object)
    ensures Joi.Admits(OrderSchema, body) <==> WellFormed(body)
  {
    SchemaKeys();
    if Joi.Admits(OrderSchema, body) {
      AdmittedFirst(body);
      AdmittedRest(body);
      assert RequiredKeys <= body.Keys by {
        forall k | k in RequiredKeys ensures k in body {
        }
      }
    }
    if WellFormed(body) {
      forall i | 0 <= i < |OrderSchema| ensures Joi.KeyOk(OrderSchema[i], body) {
        assert i < 5 ==> OrderSchema[i].key in RequiredKeys;
      }
    }
  }

  /** The record `data: order` writes. */
  function OrderOf(body: Object): Order {
    Order(TextOf(body, "productId"), TextOf(body, "clientName"), TextOf(body, "phoneNumber"),
          TextOf(body, "email"), TextOf(body, "address"), OptTextOf(body, "status"))
  }

  /** `createOrder(order)`. The product id is not checked here. */
  function CreateOrder(t: OrderTable, body: Object, newId: Id): (r: Result<(OrderTable, OrderRow)>)
    ensures !WellFormed(body) ==> r == Err(ValidationMessage(Joi.Complaint(OrderSchema, body)))
    ensures WellFormed(body) ==> (r.Ok? <==> newId !in t.rows)
    ensures r.Err? ==> IsValidationMessage(r.message) || r.message == CreateFailed
    ensures WellFormed(body) && r.Err? ==> r.message == CreateFailed
    ensures r.Ok? ==> r.value.1.id == newId && r.value.1.deletedAt == None
    ensures r.Ok? ==> r.value.1.fields == Order(body["productId"].s, body["clientName"].s, body["phoneNumber"].s,
                                                body["email"].s, body["address"].s,
                                                if "status" in body then Some(body["status"].s) else None)
    ensures r.Ok? ==> r.value.0.rows == t.rows[newId := r.value.1]
    ensures r.Ok? && Store.Valid(t) ==> Store.Valid(r.value.0)
  {
    SchemaAdmits(body);
    var v := Joi.Validate(OrderSchema, body);
    if v.Err? then Err(ValidationMessage(v.message))
    else
      Store.CreateValid(t, newId, OrderOf(body));
      Rethrow(Store.Create(t, newId, OrderOf(body)), CreateFailed)
  }

  /** The six keys have six different lengths, hence are distinct. */
  lemma SchemaKeysDistinct()
    ensures Joi.DistinctKeys(OrderSchema)
  {
    forall i, j | 0 <= i < j < |OrderSchema| ensures OrderSchema[i].key != OrderSchema[j].key {
      assert |OrderSchema[i].key| != |OrderSchema[j].key|;
    }
  }

  /** Without a status, Joi's validated value carries "Processing". */
  lemma ValidatedStatusDefaults(body: Object)
    requires WellFormed(body) && "status" !in body
    ensures Joi.Validate(OrderSchema, body).Ok?
    ensures "status" in Joi.Validate(OrderSchema, body).value
    ensures Joi.Validate(OrderSchema, body).value["status"] == Str("Processing")
  {
    SchemaAdmits(body);
    SchemaKeysDistinct();
    var v := Joi.Validate(OrderSchema, body).value;
    assert Joi.Returns(OrderSchema, body, v);
    var rule := OrderSchema[5];
    assert rule.key == "status" && rule.default == Some(Str("Processing"));
    assert rule.key !in body;
  }

  /** Joi's "Processing" default never reaches the store: an order created
      without a status stores none, though validation reported one. */
  lemma DefaultStatusNotStored(t: OrderTable, body: Object, newId: Id)
    requires CreateOrder(t, body, newId).Ok?
    requires "status" !in body
    ensures Joi.Validate(OrderSchema, body).Ok?
    ensures "status" in Joi.Validate(OrderSchema, body).value
    ensures Joi.Validate(OrderSchema, body).value["status"] == Str("Processing")
    ensures CreateOrder(t, body, newId).value.1.fields.status == None
  {
    ValidatedStatusDefaults(body);
  }

  /** `getOrders(page, limit)`: live orders only, or "Error fetching
      orders" when the offset does not fit the query. */
  function GetOrders(t: OrderTable, page: nat, limit: nat): (r: Result<seq<OrderRow>>)
    requires page >= 1
    ensures r.Ok? <==> Store.SkipFits(page, limit)
    ensures r.Err? ==> r.message == FetchAllFailed
    ensures r.Ok? ==> |r.value| <= limit
    ensures r.Ok? ==> Store.IsPage(r.value, Store.Filter(Store.Rows(t), Store.LiveOnly()), page, limit)
    ensures r.Ok? ==> forall o :: o in r.value ==> Store.Live(o) && o in Store.Rows(t)
  {
    Rethrow(Store.FindMany(t, Store.LiveOnly(), page, limit), FetchAllFailed)
  }

  /** `getOrderById(id)` with `include: { product: true }`: a live order and
      the product its `productId` names, deleted or not. */
  function GetOrderById(t: OrderTable, products: ProductService.ProductTable, id: Id): (r: Result<(OrderRow, ProductService.ProductRow)>)
    ensures r.Ok? <==> id in t.rows && Store.Live(t.rows[id]) && t.rows[id].fields.productId in products.rows
    ensures r.Ok? ==> r.value == (t.rows[id], products.rows[t.rows[id].fields.productId])
    ensures r.Err? ==> r.message == FetchFailed
  {
    var found := Store.FindLive(t, id, NotFound);
    if found.Err? then Err(FetchFailed)
    else
      var product := Store.Find(products, found.value.fields.productId);
      if product.None? then Err(FetchFailed)   // "Product information is missing for this order"
      else Ok((found.value, product.value))
  }

  /** `updateOrder(id, order)`: the five required columns overwritten, the
      status only when the body has one. */
  function UpdateOrder(t: OrderTable, id: Id, body: Object): (r: Result<(OrderTable, OrderRow)>)
    ensures !WellFormed(body) ==> r == Err(ValidationMessage(Joi.Complaint(OrderSchema, body)))
    ensures WellFormed(body) ==> (r.Ok? <==> id in t.rows && Store.Live(t.rows[id]))
    ensures r.Err? ==> IsValidationMessage(r.message) || r.message == UpdateFailed
    ensures WellFormed(body) && r.Err? ==> r.message == UpdateFailed
    ensures r.Ok? ==> r.value.1 == t.rows[id].(fields := Order(body["productId"].s, body["clientName"].s, body["phoneNumber"].s,
                                                                body["email"].s, body["address"].s,
                                                                if "status" in body then Some(body["status"].s) else t.rows[id].fields.status))
    ensures r.Ok? ==> r.value.0 == Store.Table(t.rows[id := r.value.1], t.order)
  {
    SchemaAdmits(body);
    var v := Joi.Validate(OrderSchema, body);
    if v.Err? then Err(ValidationMessage(v.message))
    else
      var found := Store.FindLive(t, id, NotFound);
      if found.Err? then Err(UpdateFailed)
      else
        var given := OrderOf(body);
        var status := if given.status.Some? then given.status else found.value.fields.status;
        Rethrow(Store.Update(t, id, given.(status := status)), UpdateFailed)
  }

  /** An update that names no status keeps the stored one. */
  lemma UpdateKeepsStatus(t: OrderTable, id: Id, body: Object)
    requires UpdateOrder(t, id, body).Ok?
    requires "status" !in body
    ensures UpdateOrder(t, id, body).value.1.fields.status == t.rows[id].fields.status
  {
  }

  /** `deleteOrder(id)`: only a live order can be soft-deleted. */
  function DeleteOrder(t: OrderTable, id: Id, now: Time): (r: Result<(OrderTable, OrderRow)>)
    ensures r.Ok? <==> id in t.rows && Store.Live(t.rows[id])
    ensures r.Ok? ==> r.value.1 == t.rows[id].(deletedAt := Some(now))
    ensures r.Ok? ==> r.value.0 == Store.Table(t.rows[id := r.value.1], t.order)
    ensures r.Err? ==> r.message == DeleteFailed
  {
    var found := Store.FindLive(t, id, NotFound);
    if found.Err? then Err(DeleteFailed)
    else Rethrow(Store.Stamp(t, id, now), DeleteFailed)
  }

  /** `permanentlyDeleteOrder(id)`. */
  function PermanentlyDeleteOrder(t: OrderTable, id: Id): (r: Result<(OrderTable, OrderRow)>)
    ensures r.Ok? <==> id in t.rows
    ensures r.Ok? ==> r.value.1 == t.rows[id]
    ensures r.Ok? ==> r.value.0.rows == t.rows - {id}
    ensures r.Ok? && Store.Valid(t) ==> Store.Valid(r.value.0)
    ensures r.Err? ==> r.message == PurgeFailed
  {
    var found := Store.Find(t, id);
    if found.None? then Err(PurgeFailed)
    else
      Store.RemoveValid(t, id);
      Rethrow(Store.Remove(t, id), PurgeFailed)
  }

  /** An order whose product was purged can no longer be fetched, although
      it is still live and listed. */
  lemma OrphanedOrderUnreadable(t: OrderTable, products: ProductService.ProductTable, id: Id, limit: nat) returns (page: nat)
    requires Store.Valid(t) && Store.Addressable(t) && limit >= 1
    requires id in t.rows && Store.Live(t.rows[id])
    requires ProductService.PermanentlyDeleteProduct(products, t.rows[id].fields.productId).Ok?
    ensures var products' := ProductService.PermanentlyDeleteProduct(products, t.rows[id].fields.productId).value.0;
            GetOrderById(t, products', id) == Err(FetchFailed)
    ensures page >= 1 && GetOrders(t, page, limit).Ok? && t.rows[id] in GetOrders(t, page, limit).value
  {
    assert Store.LiveOnly<Order>()(t.rows[id]);
    page := Store.FindManyListsEveryKeptRow(t, Store.LiveOnly(), id, limit);
  }

  /** A created order can be fetched back, with its product, as long as the
      product exists. */
  lemma CreatedOrderIsFetchable(t: OrderTable, products: ProductService.ProductTable, body: Object, newId: Id)
    requires CreateOrder(t, body, newId).Ok?
    requires body["productId"].s in products.rows
    ensures var (t', row) := CreateOrder(t, body, newId).value;
            GetOrderById(t', products, newId) == Ok((row, products.rows[body["productId"].s]))
  {
  }

  /** After a soft delete the order is hidden from every read and from the
      listing, the second delete fails, and it can still be purged. */
  lemma SoftDeletedOrderIsHidden(t: OrderTable, products: ProductService.ProductTable, id: Id, now: Time, later: Time, body: Object, page: nat, limit: nat)
    requires DeleteOrder(t, id, now).Ok?
    requires page >= 1
    ensures var t' := DeleteOrder(t, id, now).value.0;
            && GetOrderById(t', products, id) == Err(FetchFailed)
            && UpdateOrder(t', id, body).Err?
            && (GetOrders(t', page, limit).Ok? ==> t'.rows[id] !in GetOrders(t', page, limit).value)
            && DeleteOrder(t', id, later) == Err(DeleteFailed)
            && PermanentlyDeleteOrder(t', id).Ok?
  {
  }

  /** After a purge every id-keyed operation fails. */
  lemma PurgedOrderIsGone(t: OrderTable, products: ProductService.ProductTable, id: Id, now: Time, body: Object)
    requires PermanentlyDeleteOrder(t, id).Ok?
    ensures var t' := PermanentlyDeleteOrder(t, id).value.0;
            && GetOrderById(t', products, id).Err?
            && UpdateOrder(t', id, body).Err?
            && DeleteOrder(t', id, now).Err?
            && PermanentlyDeleteOrder(t', id).Err?
  {
  }
}
