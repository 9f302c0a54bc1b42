/** The product table and its service. Validation converts nothing that is
    stored: the create and update calls write the body's own values, with the
    price passed through `parseFloat`, so a price Joi accepted as a numeric
    string is stored as that number, while an availability Joi accepted as the
    string "true" or "false" reaches the store as a string and is refused
    there. Products have no listing filter on `deletedAt`; the soft delete
    refuses a product that is already deleted. */
module ProductService {
  import opened Base
  import opened Json
  import Joi
  import Store

  datatype Product = Product(
    name: string,
    price: real,
    availability: bool,
    description: string,
    image: string,
    retailerId: Id,
    category: string)

  type ProductTable = Store.Table<Product>
  type ProductRow = Store.Row<Product>

  /** The category list, spelled as in the source ("Serials"). */
  const Categories: seq<string> := ["Poultry", "Dairy", "Serials", "Vegetables", "Fruits"]

  const ProductSchema: Joi.Schema := [
    Joi.Rule("name", Joi.Text, true, [], None),
    Joi.Rule("price", Joi.Number, true, [], None),
    Joi.Rule("availability", Joi.Boolean, true, [], None),
    Joi.Rule("description", Joi.Text, true, [], None),
    Joi.Rule("image", Joi.Text, true, [], None),
    Joi.Rule("retailerId", Joi.Text, true, [], None),
    Joi.Rule("category", Joi.Text, true, Categories, None)
  ]

  /** `Joi.string().valid(...categories).required()` on a bare argument. */
  const CategoryRule: Joi.Rule := Joi.Rule("value", Joi.Text, true, Categories, None)

  const NotFound: string := "Product not found"
  const CreateFailed: string := "Error creating product"
  const FetchAllFailed: string := "Error fetching products"
  const FetchByCategoryFailed: string := "Error fetching products by category"
  const FetchFailed: string := "Error fetching product"
  const UpdateFailed: string := "Error updating product"
  const DeleteFailed: string := "Error deleting product"
  const PurgeFailed: string := "Error permanently deleting product"

  const ProductKeys: set<string> := {"name", "price", "availability", "description", "image", "retailerId", "category"}

  /** An admitted body: exactly the seven keys; the four texts non-empty
      strings, a price Joi reads as a number (of either sign), an
      availability Joi reads as a boolean, a category from the list. */
  predicate WellFormed(body: Object) {
    && body.Keys == ProductKeys
    && body["name"].Str? && body["name"].s != ""
    && Joi.IsNumber(body["price"])
    && Joi.AsBoolean(body["availability"]).Some?
    && body["description"].Str? && body["description"].s != ""
    && body["image"].Str? && body["image"].s != ""
    && body["retailerId"].Str? && body["retailerId"].s != ""
    && body["category"].Str? && body["category"].s in Categories
  }

  lemma SchemaKeys()
    ensures Joi.KeysOf(ProductSchema) == ProductKeys
  {
    assert ProductSchema[0].key == "name" && ProductSchema[1].key == "price";
    assert ProductSchema[2].key == "availability" && ProductSchema[3].key == "description";
    assert ProductSchema[4].key == "image" && ProductSchema[5].key == "retailerId";
    assert ProductSchema[6].key == "category";
  }

  lemma AdmittedTexts(body: Object)
    requires Joi.Admits(ProductSchema, body)
    ensures "name" in body && "description" in body && "image" in body && "retailerId" in body
    ensures body["name"].Str? && body["name"].s != ""
    ensures body["description"].Str? && body["description"].s != ""
    ensures body["image"].Str? && body["image"].s != ""
    ensures body["retailerId"].Str? && body["retailerId"].s != ""
  {
    assert Joi.KeyOk(ProductSchema[0], body) && Joi.KeyOk(ProductSchema[3], body);
    assert Joi.KeyOk(ProductSchema[4], body) && Joi.KeyOk(ProductSchema[5], body);
  }

  lemma AdmittedOthers(body: Object)
    requires Joi.Admits(ProductSchema, body)
    ensures "price" in body && "availability" in body && "category" in body
    ensures Joi.IsNumber(body["price"])
    ensures Joi.AsBoolean(body["availability"]).Some?
    ensures body["category"].Str? && body["category"].s in Categories
  {
    assert Joi.KeyOk(ProductSchema[1], body) && Joi.KeyOk(ProductSchema[2], body);
    assert Joi.KeyOk(ProductSchema[6], body);
  }

  lemma SchemaAdmitsOnlyWellFormed(body: Object)
    requires Joi.Admits(ProductSchema, body)
    ensures WellFormed(body)
  {
    AdmittedKeys(body);
    AdmittedTexts(body);
    AdmittedOthers(body);
  }

  lemma AdmittedKeys(body: Object)
    requires Joi.Admits(ProductSchema, body)
    ensures body.Keys == ProductKeys
  {
    SchemaKeys();
    AdmittedTexts(body);
    AdmittedOthers(body);
    assert ProductKeys <= body.Keys by {
      forall k | k in ProductKeys ensures k in body {
      }
    }
  }

  lemma SchemaAdmitsWellFormed(body: Object)
    requires WellFormed(body)
    ensures Joi.Admits(ProductSchema, body)
  {
    SchemaKeys();
    forall i | 0 <= i < |ProductSchema| ensures Joi.KeyOk(ProductSchema[i], body) {
      assert ProductSchema[i].key in body;
    }
  }

  lemma SchemaAdmits(body: Object)
    ensures Joi.Admits(ProductSchema, body) <==> WellFormed(body)
  {
    if Joi.Admits(ProductSchema, body) {
      SchemaAdmitsOnlyWellFormed(body);
    }
    if WellFormed(body) {
      SchemaAdmitsWellFormed(body);
    }
  }

  /** The record the store accepts for an admitted body, or `None` when the
      availability is not a JSON boolean and the store rejects the write. */
  function ProductOf(body: Object): (p: Option<Product>)
    requires WellFormed(body)
    ensures p.Some? <==> body["availability"].Bool?
  {
    if !body["availability"].Bool? then None
    else Some(Product(
      body["name"].s,
      Joi.AsNumber(body["price"]).value,
      body["availability"].b,
      body["description"].s,
      body["image"].s,
      body["retailerId"].s,
      body["category"].s))
  }

  /** The product an admitted, storable body describes. */
  predicate Describes(p: Product, body: Object)
    requires WellFormed(body)
  {
    && p.name == body["name"].s
    && Some(p.price) == Joi.AsNumber(body["price"])
    && Bool(p.availability) == body["availability"]
    && p.description == body["description"].s
    && p.image == body["image"].s
    && p.retailerId == body["retailerId"].s
    && p.category == body["category"].s
  }

  /** `createProduct(product)`. */
  function CreateProduct(t: ProductTable, body: Object, newId: Id): (r: Result<(ProductTable, ProductRow)>)
    ensures !WellFormed(body) ==> r == Err(ValidationMessage(Joi.Complaint(ProductSchema, body)))
    ensures WellFormed(body) ==> (r.Ok? <==> newId !in t.rows && body["availability"].Bool?)
    ensures r.Err? ==> IsValidationMessage(r.message) || r.message == CreateFailed
    ensures WellFormed(body) && r.Err? ==> r.message == CreateFailed
    ensures r.Ok? ==> r.value.1.id == newId && r.value.1.deletedAt == None
    ensures r.Ok? ==> WellFormed(body) && Describes(r.value.1.fields, body)
    ensures r.Ok? ==> r.value.0.rows == t.rows[newId := r.value.1]
    ensures r.Ok? && Store.Valid(t) ==> Store.Valid(r.value.0)
  {
    SchemaAdmits(body);
    var v := Joi.Validate(ProductSchema, body);
    if v.Err? then Err(ValidationMessage(v.message))
    else
      var p := ProductOf(body);
      if p.None? then Err(CreateFailed)
      else
        Store.CreateValid(t, newId, p.value);
        Rethrow(Store.Create(t, newId, p.value), CreateFailed)
  }

  /** A negative price passes validation and is stored. */
  lemma NegativePriceStored(t: ProductTable, newId: Id)
    requires newId !in t.rows
    ensures var body := map["name" := Str("Eggs"), "price" := Num(-5.0), "availability" := Bool(true),
                            "description" := Str("A dozen"), "image" := Str("uploads/e.png"),
                            "retailerId" := Str("r1"), "category" := Str("Poultry")];
            && CreateProduct(t, body, newId).Ok?
            && CreateProduct(t, body, newId).value.1.fields.price == -5.0
  {
    var body := map["name" := Str("Eggs"), "price" := Num(-5.0), "availability" := Bool(true),
                    "description" := Str("A dozen"), "image" := Str("uploads/e.png"),
                    "retailerId" := Str("r1"), "category" := Str("Poultry")];
    assert body.Keys == ProductKeys;
    assert WellFormed(body);
  }

  /** An availability sent as the string "true" passes validation but the
      write fails, and the caller sees the generic message. */
  lemma TextAvailabilityRefused(t: ProductTable, newId: Id)
    ensures var body := map["name" := Str("Milk"), "price" := Str("2.5"), "availability" := Str("true"),
                            "description" := Str("Fresh"), "image" := Str("uploads/m.png"),
                            "retailerId" := Str("r1"), "category" := Str("Dairy")];
            && Joi.Admits(ProductSchema, body)
            && CreateProduct(t, body, newId) == Err(CreateFailed)
  {
    var body := map["name" := Str("Milk"), "price" := Str("2.5"), "availability" := Str("true"),
                    "description" := Str("Fresh"), "image" := Str("uploads/m.png"),
                    "retailerId" := Str("r1"), "category" := Str("Dairy")];
    assert body.Keys == ProductKeys;
    assert Joi.AsNumber(body["price"]).Some? by {
      assert "2.5"[0] != '-';
      assert DotIndex("2.5") == 1;
    }
    assert WellFormed(body);
    SchemaAdmits(body);
  }

  /** `getProducts(page, limit)`: soft-deleted products included; "Error
      fetching products" when the offset does not fit the query. */
  function GetProducts(t: ProductTable, page: nat, limit: nat): (r: Result<seq<ProductRow>>)
    requires page >= 1
    ensures r.Ok? <==> Store.SkipFits(page, limit)
    ensures r.Err? ==> r.message == FetchAllFailed
    ensures r.Ok? ==> |r.value| <= limit
    ensures r.Ok? ==> Store.IsPage(r.value, Store.Rows(t), page, limit)
    ensures r.Ok? ==> forall p :: p in r.value ==> p in Store.Rows(t)
  {
    Store.FilterEverything(Store.Rows(t));
    Rethrow(Store.FindMany(t, Store.Everything(), page, limit), FetchAllFailed)
  }

  function InCategory(c: string): ProductRow -> bool {
    (p: ProductRow) => p.fields.category == c
  }

  /** `getProductsByCategory(category, page, limit)`; `None` is an absent
      argument. */
  function GetProductsByCategory(t: ProductTable, category: Option<Value>, page: nat, limit: nat): (r: Result<seq<ProductRow>>)
    requires page >= 1
    ensures r.Ok? <==> category.Some? && category.value.Str? && category.value.s in Categories && Store.SkipFits(page, limit)
    ensures r.Err? && !(category.Some? && category.value.Str? && category.value.s in Categories) ==> IsValidationMessage(r.message)
    ensures r.Err? && category.Some? && category.value.Str? && category.value.s in Categories ==> r.message == FetchByCategoryFailed
    ensures r.Ok? ==> |r.value| <= limit
    ensures r.Ok? ==> Store.IsPage(r.value, Store.Filter(Store.Rows(t), InCategory(category.value.s)), page, limit)
    ensures r.Ok? ==> forall p :: p in r.value ==> p in Store.Rows(t) && p.fields.category == category.value.s
  {
    var v := Joi.ValidateOne(CategoryRule, category);
    if v.Err? then Err(ValidationMessage(v.message))
    else Rethrow(Store.FindMany(t, InCategory(category.value.s), page, limit), FetchByCategoryFailed)
  }

  /** Every product of a category, deleted or not, is on some page of that
      category's listing. */
  lemma CategoryListsEveryProduct(t: ProductTable, id: Id, limit: nat) returns (page: nat)
    requires Store.Valid(t) && Store.Addressable(t) && limit >= 1
    requires id in t.rows && t.rows[id].fields.category in Categories
    ensures page >= 1
    ensures var r := GetProductsByCategory(t, Some(Str(t.rows[id].fields.category)), page, limit);
            r.Ok? && t.rows[id] in r.value
  {
    var c := t.rows[id].fields.category;
    assert InCategory(c)(t.rows[id]);
    page := Store.FindManyListsEveryKeptRow(t, InCategory(c), id, limit);
  }

  /** `getProductById(id)`. */
  function GetProductById(t: ProductTable, id: Id): (r: Result<ProductRow>)
    ensures r.Ok? <==> id in t.rows && Store.Live(t.rows[id])
    ensures r.Ok? ==> r.value == t.rows[id]
    ensures r.Err? ==> r.message == FetchFailed
  {
    Rethrow(Store.FindLive(t, id, NotFound), FetchFailed)
  }

  /** `updateProduct(id, product)`: all seven columns rewritten. */
  function UpdateProduct(t: ProductTable, id: Id, body: Object): (r: Result<(ProductTable, ProductRow)>)
    ensures !WellFormed(body) ==> r == Err(ValidationMessage(Joi.Complaint(ProductSchema, body)))
    ensures WellFormed(body) ==> (r.Ok? <==> id in t.rows && Store.Live(t.rows[id]) && body["availability"].Bool?)
    ensures r.Err? ==> IsValidationMessage(r.message) || r.message == UpdateFailed
    ensures WellFormed(body) && r.Err? ==> r.message == UpdateFailed
    ensures r.Ok? ==> r.value.1.id == t.rows[id].id && r.value.1.deletedAt == t.rows[id].deletedAt
    ensures r.Ok? ==> WellFormed(body) && Describes(r.value.1.fields, body)
    ensures r.Ok? ==> r.value.0 == Store.Table(t.rows[id := r.value.1], t.order)
  {
    SchemaAdmits(body);
    var v := Joi.Validate(ProductSchema, body);
    if v.Err? then Err(ValidationMessage(v.message))
    else
      var found := Store.FindLive(t, id, NotFound);
      if found.Err? then Err(UpdateFailed)
      else
        var p := ProductOf(body);
        if p.None? then Err(UpdateFailed)
        else Rethrow(Store.Update(t, id, p.value), UpdateFailed)
  }

  /** `deleteProduct(id)`: only a live product can be soft-deleted. */
  function DeleteProduct(t: ProductTable, id: Id, now: Time): (r: Result<(ProductTable, ProductRow)>)
    ensures r.Ok? <==> id in t.rows && Store.Live(t.rows[id])
    ensures r.Ok? ==> r.value.1 == t.rows[id].(deletedAt := Some(now))
    ensures r.Ok? ==> r.value.0 == Store.Table(t.rows[id := r.value.1], t.order)
    ensures r.Err? ==> r.message == DeleteFailed
  {
    var found := Store.FindLive(t, id, NotFound);
    if found.Err? then Err(DeleteFailed)
    else Rethrow(Store.Stamp(t, id, now), DeleteFailed)
  }

  /** `permanentlyDeleteProduct(id)`. */
  function PermanentlyDeleteProduct(t: ProductTable, id: Id): (r: Result<(ProductTable, ProductRow)>)
    ensures r.Ok? <==> id in t.rows
    ensures r.Ok? ==> r.value.1 == t.rows[id]
    ensures r.Ok? ==> r.value.0.rows == t.rows - {id}
    ensures r.Ok? && Store.Valid(t) ==> Store.Valid(r.value.0)
    ensures r.Err? ==> r.message == PurgeFailed
  {
    var found := Store.Find(t, id);
    if found.None? then Err(PurgeFailed)
    else
      Store.RemoveValid(t, id);
      Rethrow(Store.Remove(t, id), PurgeFailed)
  }

  /** A created product can be fetched back by its id. */
  lemma CreatedProductIsFetchable(t: ProductTable, body: Object, newId: Id)
    requires CreateProduct(t, body, newId).Ok?
    ensures var (t', row) := CreateProduct(t, body, newId).value;
            GetProductById(t', newId) == Ok(row)
  {
  }

  /** A soft delete happens once: the second one fails, as do fetch and
      update, while the product stays listed and can still be purged. */
  lemma SoftDeleteIsNotRepeatable(t: ProductTable, id: Id, now: Time, later: Time, body: Object, limit: nat) returns (page: nat)
    requires Store.Valid(t) && Store.Addressable(t) && limit >= 1
    requires DeleteProduct(t, id, now).Ok?
    ensures var t' := DeleteProduct(t, id, now).value.0;
            && DeleteProduct(t', id, later) == Err(DeleteFailed)
            && GetProductById(t', id) == Err(FetchFailed)
            && UpdateProduct(t', id, body).Err?
            && PermanentlyDeleteProduct(t', id).Ok?
            && page >= 1 && GetProducts(t', page, limit).Ok? && t'.rows[id] in GetProducts(t', page, limit).value
  {
    var t' := DeleteProduct(t, id, now).value.0;
    assert Store.Valid(t');
    assert Store.Everything<Product>()(t'.rows[id]);
    page := Store.FindManyListsEveryKeptRow(t', Store.Everything(), id, limit);
  }

  /** After a purge every id-keyed operation fails. */
  lemma PurgedProductIsGone(t: ProductTable, id: Id, now: Time, body: Object)
    requires PermanentlyDeleteProduct(t, id).Ok?
    ensures var t' := PermanentlyDeleteProduct(t, id).value.0;
            && GetProductById(t', id).Err?
            && UpdateProduct(t', id, body).Err?
            && DeleteProduct(t', id, now).Err?
            && PermanentlyDeleteProduct(t', id).Err?
  {
  }
}
