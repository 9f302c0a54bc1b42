/** The persistent store, reduced to what the services observe of one Prisma
    table: rows keyed by id, each carrying a soft-delete stamp, and a fixed
    store-native order in which `findMany` lists them. */
module Store {
  import opened Base

  /** One stored record: its id, the entity's own columns, and `deletedAt`
      (`None` is SQL null, i.e. not soft-deleted). */
  datatype Row<F> = Row(id: Id, fields: F, deletedAt: Option<Time>)

  predicate Live<F>(r: Row<F>) {
    r.deletedAt.None?
  }

  /** The `where: { deletedAt: null }` filter, and no filter at all. */
  function LiveOnly<F>(): Row<F> -> bool {
    (r: Row<F>) => Live(r)
  }

  function Everything<F>(): Row<F> -> bool {
    (r: Row<F>) => true
  }

  /** A table: the rows by id, and the order `findMany` walks them in. New
      rows go to the end; updates keep a row's place. */
  datatype Table<F> = Table(rows: map<Id, Row<F>>, order: seq<Id>)

  /** What the database guarantees of a table: `order` lists every id exactly
      once and each row knows its own id. */
  predicate Valid<F>(t: Table<F>) {
    && (forall i :: 0 <= i < |t.order| ==> t.order[i] in t.rows)
    && (forall id :: id in t.rows ==> id in t.order)
    && (forall i, j :: 0 <= i < j < |t.order| ==> t.order[i] != t.order[j])
    && (forall id :: id in t.rows ==> t.rows[id].id == id)
  }

  /** The message of the error the Prisma client throws when a query cannot be
      carried out (record to update or delete not found, unique constraint
      violated, value of the wrong type). Its exact wording belongs to Prisma;
      only `createUser` lets it reach the caller. */
  const StoreFailure: string := "Invalid prisma invocation"

  /** `findUnique({ where: { id } })`: the row whatever its `deletedAt`. */
  function Find<F>(t: Table<F>, id: Id): (r: Option<Row<F>>)
    ensures r.Some? <==> id in t.rows
    ensures r.Some? ==> r.value == t.rows[id]
  {
    if id in t.rows then Some(t.rows[id]) else None
  }

  /** The check most services make after `findUnique`:
      `if (!row || row.deletedAt) throw new Error(notFound)`. */
  function FindLive<F>(t: Table<F>, id: Id, notFound: string): (r: Result<Row<F>>)
    ensures r.Ok? <==> id in t.rows && Live(t.rows[id])
    ensures r.Ok? ==> r.value == t.rows[id]
    ensures r.Err? ==> r.message == notFound
  {
    if id in t.rows && Live(t.rows[id]) then Ok(t.rows[id]) else Err(notFound)
  }

  /** `create({ data })`, the new row getting the store-generated `id`. A
      taken id violates the primary key. */
  function Create<F>(t: Table<F>, id: Id, f: F): (r: Result<(Table<F>, Row<F>)>)
    ensures r.Ok? <==> id !in t.rows
    ensures r.Ok? ==> r.value.1 == Row(id, f, None)
    ensures r.Ok? ==> r.value.0 == Table(t.rows[id := Row(id, f, None)], t.order + [id])
    ensures r.Err? ==> r.message == StoreFailure
  {
    if id in t.rows then Err(StoreFailure)
    else
      var row := Row(id, f, None);
      Ok((Table(t.rows[id := row], t.order + [id]), row))
  }

  /** `update({ where: { id }, data })` writing the entity's columns; the row
      keeps its id, stamp and place. An absent id is a store error. */
  function Update<F>(t: Table<F>, id: Id, f: F): (r: Result<(Table<F>, Row<F>)>)
    ensures r.Ok? <==> id in t.rows
    ensures r.Ok? ==> r.value.1 == t.rows[id].(fields := f)
    ensures r.Ok? ==> r.value.0 == Table(t.rows[id := t.rows[id].(fields := f)], t.order)
    ensures r.Err? ==> r.message == StoreFailure
  {
    if id !in t.rows then Err(StoreFailure)
    else
      var row := t.rows[id].(fields := f);
      Ok((Table(t.rows[id := row], t.order), row))
  }

  /** `update({ where: { id }, data: { deletedAt: new Date() } })`. Nothing
      stops a second stamp on a row already soft-deleted. */
  function Stamp<F>(t: Table<F>, id: Id, now: Time): (r: Result<(Table<F>, Row<F>)>)
    ensures r.Ok? <==> id in t.rows
    ensures r.Ok? ==> r.value.1 == t.rows[id].(deletedAt := Some(now))
    ensures r.Ok? ==> r.value.0 == Table(t.rows[id := t.rows[id].(deletedAt := Some(now))], t.order)
    ensures r.Err? ==> r.message == StoreFailure
  {
    if id !in t.rows then Err(StoreFailure)
    else
      var row := t.rows[id].(deletedAt := Some(now));
      Ok((Table(t.rows[id := row], t.order), row))
  }

  /** `order` with every occurrence of `id` taken out. */
  function Without(order: seq<Id>, id: Id): (o: seq<Id>)
    ensures forall x :: x in o <==> x in order && x != id
    ensures |o| <= |order|
  {
    if order == [] then []
    else if order[0] == id then Without(order[1..], id)
    else [order[0]] + Without(order[1..], id)
  }

  predicate Distinct<T(==)>(s: seq<T>) {
    forall i, j :: 0 <= i < j < |s| ==> s[i] != s[j]
  }

  lemma {:induction false} WithoutDistinct(order: seq<Id>, id: Id)
    requires Distinct(order)
    ensures Distinct(Without(order, id))
  {
    if order != [] {
      var tail := order[1..];
      assert Distinct(tail) by {
        forall i, j | 0 <= i < j < |tail| ensures tail[i] != tail[j] {
          assert tail[i] == order[i + 1] && tail[j] == order[j + 1];
        }
      }
      WithoutDistinct(tail, id);
      if order[0] != id {
        var w := Without(tail, id);
        assert order[0] !in tail by {
          forall j | 0 <= j < |tail| ensures tail[j] != order[0] {
            assert tail[j] == order[j + 1];
          }
        }
        assert order[0] !in w;
        var r := [order[0]] + w;
        forall i, j | 0 <= i < j < |r| ensures r[i] != r[j] {
          if i == 0 {
            assert r[j] == w[j - 1];
          } else {
            assert r[i] == w[i - 1] && r[j] == w[j - 1];
          }
        }
      }
    }
  }

  /** `delete({ where: { id } })`: the row disappears, soft-deleted or not.
      An absent id is a store error. */
  function Remove<F>(t: Table<F>, id: Id): (r: Result<(Table<F>, Row<F>)>)
    ensures r.Ok? <==> id in t.rows
    ensures r.Ok? ==> r.value.1 == t.rows[id]
    ensures r.Ok? ==> r.value.0.rows == t.rows - {id} && r.value.0.order == Without(t.order, id)
    ensures r.Err? ==> r.message == StoreFailure
  {
    if id !in t.rows then Err(StoreFailure)
    else Ok((Table(t.rows - {id}, Without(t.order, id)), t.rows[id]))
  }

  lemma CreateValid<F>(t: Table<F>, id: Id, f: F)
    ensures Valid(t) && Create(t, id, f).Ok? ==> Valid(Create(t, id, f).value.0)
  {
    if !(Valid(t) && Create(t, id, f).Ok?) {
      return;
    }
    var t' := Create(t, id, f).value.0;
    assert t'.order[|t.order|] == id;
    forall i, j | 0 <= i < j < |t'.order| ensures t'.order[i] != t'.order[j] {
      if j == |t.order| {
        assert t'.order[i] == t.order[i];
      }
    }
  }

  lemma RemoveValid<F>(t: Table<F>, id: Id)
    ensures Valid(t) && Remove(t, id).Ok? ==> Valid(Remove(t, id).value.0)
  {
    if !(Valid(t) && Remove(t, id).Ok?) {
      return;
    }
    WithoutDistinct(t.order, id);
    var t' := Remove(t, id).value.0;
    forall i | 0 <= i < |t'.order| ensures t'.order[i] in t'.rows {
      assert t'.order[i] in Without(t.order, id);
    }
  }

  /** The rows in `order` that are still in `rows`. */
  function RowsIn<F>(rows: map<Id, Row<F>>, order: seq<Id>): (s: seq<Row<F>>)
    ensures |s| <= |order|
  {
    if order == [] then []
    else (if order[0] in rows then [rows[order[0]]] else []) + RowsIn(rows, order[1..])
  }

  lemma {:induction false} RowsInMembers<F>(rows: map<Id, Row<F>>, order: seq<Id>)
    ensures forall r :: r in RowsIn(rows, order) <==> exists id :: id in order && id in rows && rows[id] == r
  {
    if order != [] {
      RowsInMembers(rows, order[1..]);
      assert forall id :: id in order <==> id == order[0] || id in order[1..];
    }
  }

  /** Every row of the table, in store-native order. */
  function Rows<F>(t: Table<F>): seq<Row<F>> {
    RowsIn(t.rows, t.order)
  }

  lemma RowsExactly<F>(t: Table<F>)
    requires Valid(t)
    ensures forall r :: r in Rows(t) <==> exists id :: id in t.rows && t.rows[id] == r
  {
    RowsInMembers(t.rows, t.order);
  }

  /** A listed row is the table's row under its own id. */
  lemma RowOfListing<F>(t: Table<F>, r: Row<F>)
    requires Valid(t) && r in Rows(t)
    ensures r.id in t.rows && t.rows[r.id] == r
  {
    RowsInMembers(t.rows, t.order);
    var id :| id in t.order && id in t.rows && t.rows[id] == r;
  }

  /** Every row of a valid table is listed. */
  lemma ListingOfRow<F>(t: Table<F>, id: Id)
    requires Valid(t) && id in t.rows
    ensures t.rows[id] in Rows(t)
  {
    RowsInMembers(t.rows, t.order);
  }

  lemma {:induction false} RowsInDistinct<F>(rows: map<Id, Row<F>>, order: seq<Id>)
    requires Distinct(order)
    requires forall id :: id in rows ==> rows[id].id == id
    ensures Distinct(RowsIn(rows, order))
  {
    if order != [] {
      var tail := order[1..];
      assert Distinct(tail) by {
        forall i, j | 0 <= i < j < |tail| ensures tail[i] != tail[j] {
          assert tail[i] == order[i + 1] && tail[j] == order[j + 1];
        }
      }
      RowsInDistinct(rows, tail);
      var rest := RowsIn(rows, tail);
      if order[0] in rows {
        var head := rows[order[0]];
        RowsInMembers(rows, tail);
        assert order[0] !in tail by {
          forall j | 0 <= j < |tail| ensures tail[j] != order[0] {
            assert tail[j] == order[j + 1];
          }
        }
        assert head !in rest;
        var s := [head] + rest;
        forall i, j | 0 <= i < j < |s| ensures s[i] != s[j] {
          if i == 0 {
            assert s[j] == rest[j - 1];
          } else {
            assert s[i] == rest[i - 1] && s[j] == rest[j - 1];
          }
        }
      }
    }
  }

  /** `where` of a `findMany`: the rows satisfying `keep`, order preserved. */
  function Filter<T>(s: seq<T>, keep: T -> bool): (f: seq<T>)
    ensures |f| <= |s|
  {
    if s == [] then []
    else (if keep(s[0]) then [s[0]] else []) + Filter(s[1..], keep)
  }

  /** Keeping every row keeps the listing as it is. */
  lemma {:induction false} FilterEverything<F>(s: seq<Row<F>>)
    ensures Filter(s, Everything()) == s
  {
    if s != [] {
      FilterEverything(s[1..]);
      assert s == [s[0]] + s[1..];
    }
  }

  lemma {:induction false} FilterMembers<T>(s: seq<T>, keep: T -> bool)
    ensures forall x :: x in Filter(s, keep) <==> x in s && keep(x)
  {
    if s != [] {
      FilterMembers(s[1..], keep);
      assert forall x :: x in s <==> x == s[0] || x in s[1..];
    }
  }

  /** The first element a filter keeps comes from the input and is kept. */
  lemma FilterFirst<T>(s: seq<T>, keep: T -> bool)
    requires |Filter(s, keep)| > 0
    ensures Filter(s, keep)[0] in s && keep(Filter(s, keep)[0])
  {
    FilterMembers(s, keep);
    assert Filter(s, keep)[0] in Filter(s, keep);
  }

  /** An element the filter keeps is in its result. */
  lemma FilterKeeps<T>(s: seq<T>, keep: T -> bool, x: T)
    requires x in s && keep(x)
    ensures x in Filter(s, keep)
  {
    FilterMembers(s, keep);
  }

  lemma {:induction false} FilterDistinct<T>(s: seq<T>, keep: T -> bool)
    requires Distinct(s)
    ensures Distinct(Filter(s, keep))
  {
    if s != [] {
      var tail := s[1..];
      assert Distinct(tail) by {
        forall i, j | 0 <= i < j < |tail| ensures tail[i] != tail[j] {
          assert tail[i] == s[i + 1] && tail[j] == s[j + 1];
        }
      }
      FilterDistinct(tail, keep);
      FilterMembers(tail, keep);
      var rest := Filter(tail, keep);
      if keep(s[0]) {
        assert s[0] !in tail by {
          forall j | 0 <= j < |tail| ensures tail[j] != s[0] {
            assert tail[j] == s[j + 1];
          }
        }
        var f := [s[0]] + rest;
        forall i, j | 0 <= i < j < |f| ensures f[i] != f[j] {
          if i == 0 {
            assert f[j] == rest[j - 1];
          } else {
            assert f[i] == rest[i - 1] && f[j] == rest[j - 1];
          }
        }
      }
    }
  }

  /** `skip` / `take` of a `findMany`. */
  function Window<T>(s: seq<T>, skip: nat, take: nat): (w: seq<T>)
    ensures |w| <= take
    ensures skip >= |s| ==> w == []
    ensures skip < |s| ==> |w| == if skip + take <= |s| then take else |s| - skip
    ensures forall k :: 0 <= k < |w| ==> skip + k < |s| && w[k] == s[skip + k]
  {
    if skip >= |s| then []
    else if skip + take <= |s| then s[skip..skip + take]
    else s[skip..]
  }

  /** `w` is page `page` of `s` at `limit` entries a page: the positions
      `(page - 1) * limit` up to `page * limit` of `s` that exist, in order,
      and nothing else. */
  ghost predicate IsPage<T>(w: seq<T>, s: seq<T>, page: nat, limit: nat)
    requires page >= 1
  {
    var skip := (page - 1) * limit;
    && |w| == (if skip >= |s| then 0 else if skip + limit <= |s| then limit else |s| - skip)
    && forall k :: 0 <= k < |w| ==> skip + k < |s| && w[k] == s[skip + k]
  }

  /** `skip: (page - 1) * limit, take: limit`. */
  function Page<T>(s: seq<T>, page: nat, limit: nat): (w: seq<T>)
    requires page >= 1
    ensures |w| <= limit
    ensures IsPage(w, s, page, limit)
    ensures forall k :: 0 <= k < |w| ==> (page - 1) * limit + k < |s| && w[k] == s[(page - 1) * limit + k]
  {
    Window(s, (page - 1) * limit, limit)
  }

  /** A row sits on exactly the page its position says: position `i` is on
      page `i / limit + 1`, at place `i % limit`. */
  lemma PageOfIndex<T>(s: seq<T>, i: nat, limit: nat)
    requires i < |s| && limit >= 1
    ensures var p := Page(s, i / limit + 1, limit);
            i % limit < |p| && p[i % limit] == s[i]
  {
    var q := i / limit;
    assert q * limit + i % limit == i;
    assert (q + 1 - 1) * limit == q * limit;
  }

  /** Page `p` ends where a later page `q` can begin at the earliest. */
  lemma {:induction false} PageBefore(p: nat, q: nat, limit: nat)
    requires 1 <= p < q
    ensures (p - 1) * limit + limit <= (q - 1) * limit
  {
    var x := q - 2;
    assert (x + 1) * limit == x * limit + limit;
    if p < q - 1 {
      PageBefore(p, q - 1, limit);
    }
  }

  /** Windows that do not overlap as index ranges share no element of a list
      without repetitions. */
  lemma WindowsDisjoint<T>(s: seq<T>, a: nat, b: nat, limit: nat)
    requires Distinct(s)
    requires a + limit <= b
    ensures forall x :: x in Window(s, a, limit) ==> x !in Window(s, b, limit)
  {
  }

  /** The page number on which position `i` is listed. */
  lemma PageContaining<T>(s: seq<T>, i: nat, limit: nat) returns (page: nat)
    requires i < |s| && limit >= 1
    ensures page >= 1 && s[i] in Page(s, page, limit)
    ensures (page - 1) * limit <= i
  {
    var q := i / limit;
    assert q * limit + i % limit == i;
    page := q + 1;
    PageOfIndex(s, i, limit);
  }

  /** Two different pages of a list without repetitions share no element. */
  lemma PagesDisjoint<T>(s: seq<T>, p: nat, q: nat, limit: nat)
    requires Distinct(s)
    requires p >= 1 && q >= 1 && p != q
    ensures forall x :: x in Page(s, p, limit) ==> x !in Page(s, q, limit)
  {
    if p < q {
      PageBefore(p, q, limit);
      WindowsDisjoint(s, (p - 1) * limit, (q - 1) * limit, limit);
    } else {
      PageBefore(q, p, limit);
      WindowsDisjoint(s, (q - 1) * limit, (p - 1) * limit, limit);
    }
  }

  /** Prisma's `skip` argument is a signed 64-bit integer: an offset past
      `2^63 - 1` is refused, and `findMany` throws. */
  const MaxSkip: nat := 0x7FFF_FFFF_FFFF_FFFF

  /** The offset `(page - 1) * limit` fits Prisma's `skip`. */
  predicate SkipFits(page: nat, limit: nat)
    requires page >= 1
  {
    (page - 1) * limit <= MaxSkip
  }

  /** A table short enough that every position of its listing can be
      reached by a `skip` that fits. */
  predicate Addressable<F>(t: Table<F>) {
    |t.order| <= MaxSkip + 1
  }

  /** `findMany({ where, skip: (page - 1) * limit, take: limit })`: the page,
      or a failure when the query throws because the offset does not fit. */
  function FindMany<F>(t: Table<F>, keep: Row<F> -> bool, page: nat, limit: nat): (s: Result<seq<Row<F>>>)
    requires page >= 1
    ensures s.Ok? <==> SkipFits(page, limit)
    ensures s.Err? ==> s.message == StoreFailure
    ensures s.Ok? ==> |s.value| <= limit
    ensures s.Ok? ==> IsPage(s.value, Filter(Rows(t), keep), page, limit)
    ensures s.Ok? ==> forall r :: r in s.value ==> keep(r) && r in Rows(t)
  {
    if !SkipFits(page, limit) then Err(StoreFailure)
    else
      var all := Filter(Rows(t), keep);
      FilterMembers(Rows(t), keep);
      Ok(Page(all, page, limit))
  }

  /** A listing never repeats a row across pages. */
  lemma FindManyPagesDisjoint<F>(t: Table<F>, keep: Row<F> -> bool, p: nat, q: nat, limit: nat)
    requires Valid(t)
    requires p >= 1 && q >= 1 && p != q && limit >= 1
    ensures FindMany(t, keep, p, limit).Ok? && FindMany(t, keep, q, limit).Ok? ==>
              forall r :: r in FindMany(t, keep, p, limit).value ==> r !in FindMany(t, keep, q, limit).value
  {
    RowsInDistinct(t.rows, t.order);
    FilterDistinct(Rows(t), keep);
    PagesDisjoint(Filter(Rows(t), keep), p, q, limit);
  }

  /** Every stored row that `keep` admits is listed on some page, as long
      as the table is short enough for that page's offset to fit. */
  lemma FindManyListsEveryKeptRow<F>(t: Table<F>, keep: Row<F> -> bool, id: Id, limit: nat) returns (page: nat)
    requires Valid(t) && Addressable(t) && limit >= 1
    requires id in t.rows && keep(t.rows[id])
    ensures page >= 1 && FindMany(t, keep, page, limit).Ok?
    ensures t.rows[id] in FindMany(t, keep, page, limit).value
  {
    var all := Filter(Rows(t), keep);
    var row := t.rows[id];
    assert row in Rows(t) by {
      RowsExactly(t);
    }
    assert row in all by {
      FilterMembers(Rows(t), keep);
    }
    var i :| 0 <= i < |all| && all[i] == row;
    page := PageContaining(all, i, limit);
    assert FindMany(t, keep, page, limit) == Ok(Page(all, page, limit));
  }
}
