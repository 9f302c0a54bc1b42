/** The response envelope every controller writes and the two request checks
    the controllers share: the `:id` route parameter and the `page` / `limit`
    query. */
module Http {
  import opened Base
  import opened Json
  import Joi
  import Store

  /** The `data` or `error` member of the envelope. */
  datatype Payload<+D> = Data(value: D) | NullData | ErrorText(error: string)

  /** `res.status(code).json({ statusCode, message, status, data | error })`,
      or `res.status(204).end()` with no body at all. `success` is the
      envelope's `status: 'success' | 'error'`. */
  datatype Response<+D> =
    | Envelope(statusCode: nat, message: string, success: bool, payload: Payload<D>)
    | NoContent
  {
    function Code(): nat {
      if NoContent? then 204 else statusCode
    }
  }

  const BadRequest: string := "Bad request"
  const InternalError: string := "Internal server error"

  function Fail<D>(code: nat, message: string, error: string): (r: Response<D>)
    ensures r.Code() == code && r.Envelope? && !r.success && r.payload == ErrorText(error)
  {
    Envelope(code, message, false, ErrorText(error))
  }

  /** A success envelope carrying `data`. */
  function Success<D>(code: nat, message: string, data: D): (r: Response<D>)
    ensures r.Code() == code && r.Envelope? && r.success && r.payload == Data(data)
  {
    Envelope(code, message, true, Data(data))
  }

  /** The tail of every listing handler: 200 with the page the service
      returned, or 500 with the message it threw. */
  function Listed<D>(message: string, found: Result<D>): (r: Response<D>)
    ensures r.Code() == 200 <==> found.Ok?
    ensures found.Ok? ==> r == Success(200, message, found.value)
    ensures found.Err? ==> r == Fail(500, InternalError, found.message)
  {
    if found.Ok? then Success(200, message, found.value) else Fail(500, InternalError, found.message)
  }

  /** A success envelope with `data: null`. */
  function Done<D>(message: string): (r: Response<D>)
    ensures r.Code() == 200 && r.Envelope? && r.success && r.payload.NullData?
  {
    Envelope(200, message, true, NullData)
  }

  /** `idSchema = Joi.string().required()` applied to `req.params.id`. */
  const IdRule: Joi.Rule := Joi.Rule("value", Joi.Text, true, [], None)

  /** The Joi message for a rejected id, `None` when the id is accepted.
      Express never routes an empty `:id`, so in practice this accepts. */
  function CheckId(id: string): (r: Option<string>)
    ensures r.None? <==> id != ""
  {
    var v := Joi.ValidateOne(IdRule, Some(Str(id)));
    if v.Err? then Some(v.message) else None
  }

  /** `paginationSchema`: page and limit are integers of at least 1,
      defaulting to 1 and 10. */
  const PaginationSchema: Joi.Schema := [
    Joi.Rule("page", Joi.Integer(1), false, [], Some(Num(1.0))),
    Joi.Rule("limit", Joi.Integer(1), false, [], Some(Num(10.0)))
  ]

  datatype Paging = Paging(page: nat, limit: nat)

  /** A query value that `Joi.number().integer().min(1)` admits: a whole
      number from 1 up to `Number.MAX_SAFE_INTEGER`. */
  predicate PositiveInteger(v: Value) {
    var n := Joi.AsNumber(v);
    n.Some? && Joi.IsIntegral(n.value) && 1.0 <= n.value <= Joi.MaxSafe as real
  }

  /** The query is admitted exactly when it has no key besides page and
      limit and each of them, if given, is an integer of at least 1. */
  predicate ValidPaging(query: Object) {
    && query.Keys <= {"page", "limit"}
    && ("page" in query ==> PositiveInteger(query["page"]))
    && ("limit" in query ==> PositiveInteger(query["limit"]))
  }

  /** The number a validated page/limit value denotes. */
  function Count(v: Value): nat {
    var n := Joi.AsNumber(v);
    if n.Some? && n.value >= 0.0 then n.value.Floor as nat else 0
  }

  lemma PagingAdmits(query: Object)
    ensures Joi.Admits(PaginationSchema, query) <==> ValidPaging(query)
  {
    assert Joi.KeysOf(PaginationSchema) == {"page", "limit"} by {
      assert PaginationSchema[0].key == "page" && PaginationSchema[1].key == "limit";
    }
    if ValidPaging(query) {
      assert forall i :: 0 <= i < |PaginationSchema| ==> Joi.KeyOk(PaginationSchema[i], query);
    }
    if Joi.Admits(PaginationSchema, query) {
      assert Joi.KeyOk(PaginationSchema[0], query) && Joi.KeyOk(PaginationSchema[1], query);
    }
  }

  /** `paginationSchema.validate(req.query)` and the `value.page`,
      `value.limit` the controllers pass on. */
  function Pagination(query: Object): (r: Result<Paging>)
    ensures r.Ok? <==> ValidPaging(query)
    ensures r.Ok? ==> r.value.page >= 1 && r.value.limit >= 1
    ensures r.Ok? ==> r.value.page == (if "page" in query then Count(query["page"]) else 1)
    ensures r.Ok? ==> r.value.limit == (if "limit" in query then Count(query["limit"]) else 10)
    ensures r.Ok? && "page" in query ==> r.value.page as real == Joi.AsNumber(query["page"]).value
    ensures r.Ok? && "limit" in query ==> r.value.limit as real == Joi.AsNumber(query["limit"]).value
  {
    PagingAdmits(query);
    var v := Joi.Validate(PaginationSchema, query);
    if v.Err? then Err(v.message)
    else
      assert Joi.DistinctKeys(PaginationSchema);
      assert Joi.Returns(PaginationSchema, query, v.value);
      assert PaginationSchema[0].key == "page" && PaginationSchema[1].key == "limit";
      Ok(Paging(Count(v.value["page"]), Count(v.value["limit"])))
  }
  /** A query Joi admits whose offset `(page - 1) * limit` does not fit the
      store's `skip`. */
  predicate SkipOverflows(query: Object) {
    var paging := Pagination(query);
    paging.Ok? && !Store.SkipFits(paging.value.page, paging.value.limit)
  }


  /** A client asking for `?page=<p>&limit=<l>` gets exactly page p of size
      l: the decimal text of a query round-trips through Joi's conversion. */
  lemma PaginationOfQueryText(p: nat, l: nat)
    requires 1 <= p <= Joi.MaxSafe && 1 <= l <= Joi.MaxSafe
    ensures Pagination(map["page" := Str(ShowNat(p)), "limit" := Str(ShowNat(l))]) == Ok(Paging(p, l))
  {
    ParseShowNat(p);
    ParseShowNat(l);
    var q := map["page" := Str(ShowNat(p)), "limit" := Str(ShowNat(l))];
    assert q.Keys == {"page", "limit"};
    assert Count(q["page"]) == p;
    assert Count(q["limit"]) == l;
  }

  /** Beyond `Number.MAX_SAFE_INTEGER` a page number is refused, where the
      plain integer reading would serve it. */
  lemma UnsafePageRefused(l: nat)
    requires 1 <= l <= Joi.MaxSafe
    ensures var q := map["page" := Str(ShowNat(Joi.MaxSafe + 1)), "limit" := Str(ShowNat(l))];
            Pagination(q).Err? && Pagination(map["page" := Str(ShowNat(Joi.MaxSafe))]).Ok?
  {
    var q := map["page" := Str(ShowNat(Joi.MaxSafe + 1)), "limit" := Str(ShowNat(l))];
    assert Pagination(q).Err? by {
      ParseShowNat(Joi.MaxSafe + 1);
      assert !PositiveInteger(q["page"]);
    }
    assert Pagination(map["page" := Str(ShowNat(Joi.MaxSafe))]).Ok? by {
      ParseShowNat(Joi.MaxSafe);
    }
  }
}
