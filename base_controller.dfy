/** `BaseController`: the generic CRUD handlers over an entity service. A
    request's query string and path parameter arrive as values; the reply
    is the status and JSON body, or the error handed to `next`. */
module BaseController {
  import opened Wrappers
  import opened Values
  import opened Strings
  import opened Store
  import opened AppErrors
  import opened Http
  import opened BaseService
  import FieldFilter

  /** The query keys `buildFilters` never copies. */
  const Reserved: set<string> := {"page", "limit", "orderBy"}

  /** A query entry that `buildFilters` copies: not reserved, and neither
      undefined nor null. */
  predicate Passes(query: Record, k: string) {
    k in query && k !in Reserved && query[k] != VUndefined && query[k] != VNull
  }

  /** A copied value: a string that `Number` reads as a number becomes that
      number (so `""` becomes 0), anything else is kept as it is. */
  function FilterValue(v: Value): (r: Value)
    ensures v.VStr? && JsNumber(v).VNum? ==> r == JsNumber(v)
    ensures !(v.VStr? && JsNumber(v).VNum?) ==> r == v
  {
    if v.VStr? && JsNumber(v).VNum? then JsNumber(v) else v
  }

  /** The filters once the query keys in `done` have been visited. */
  function FiltersOver(query: Record, done: set<string>): Record {
    map k | k in (query.Keys * done) + {"deletedAt"} && (k == "deletedAt" || Passes(query, k)) ::
      if k in done && Passes(query, k) then FilterValue(query[k]) else VNull
  }

  /** What `buildFilters(query)` returns. */
  function Filters(query: Record): (f: Record)
    ensures "deletedAt" in f
    ensures forall k :: k in Reserved ==> k !in f
    ensures forall k :: Passes(query, k) ==> k in f && f[k] == FilterValue(query[k])
    ensures forall k :: k in f && k != "deletedAt" ==> Passes(query, k)
    ensures !Passes(query, "deletedAt") ==> f["deletedAt"] == VNull
  {
    FiltersOver(query, query.Keys)
  }

  /** Visiting one more key copies it exactly when it passes. */
  lemma FiltersStep(query: Record, done: set<string>, key: string)
    requires key in query && key !in done
    ensures FiltersOver(query, done + {key}) ==
      if Passes(query, key) then FiltersOver(query, done)[key := FilterValue(query[key])] else FiltersOver(query, done)
  {
  }

  /** `buildFilters(queryParams)`: the `forEach` over the query's keys that
      fills `filters`. The keys are distinct, so the order does not matter. */
  method BuildFilters(query: Record) returns (filters: Record)
    ensures filters == Filters(query)
  {
    filters := map["deletedAt" := VNull];
    assert filters == FiltersOver(query, {});
    var todo := query.Keys;
    while todo != {}
      invariant todo <= query.Keys
      invariant filters == FiltersOver(query, query.Keys - todo)
      decreases |todo|
    {
      var key :| key in todo;
      FiltersStep(query, query.Keys - todo, key);
      assert query.Keys - (todo - {key}) == (query.Keys - todo) + {key};
      if key !in Reserved {
        var value := query[key];
        if value != VUndefined && value != VNull {
          filters := filters[key := FilterValue(value)];
        }
      }
      todo := todo - {key};
    }
    assert query.Keys - todo == query.Keys;
  }

  /** An entry with value undefined or null is dropped, whatever its key,
      and the base `deletedAt: null` stays when that is the key. */
  lemma AbsentDropped(query: Record, k: string)
    requires k in query && (query[k] == VUndefined || query[k] == VNull)
    ensures k != "deletedAt" ==> k !in Filters(query)
    ensures k == "deletedAt" ==> Filters(query)[k] == VNull
  {
  }

  /** A numeric query string reaches the service as a number: `"7"` filters
      by equality, not by substring. */
  lemma NumericStringIsEquality(query: Record, k: string, n: int)
    requires Passes(query, k) && query[k].VStr? && JsNumber(query[k]) == VNum(n)
    ensures CondFor(Filters(query)[k]) == Equals(VNum(n))
  {
  }

  /** `page = 1, limit = 20` and `Number(...)`: a default applies only to
      a missing entry. */
  function PageParam(query: Record): (r: Value)
    ensures Get(query, "page") == VUndefined ==> r == VNum(1)
    ensures Get(query, "page") != VUndefined ==> r == JsNumber(Get(query, "page"))
  {
    JsNumber(Defaulted(Get(query, "page"), 1))
  }

  function LimitParam(query: Record): (r: Value)
    ensures Get(query, "limit") == VUndefined ==> r == VNum(20)
    ensures Get(query, "limit") != VUndefined ==> r == JsNumber(Get(query, "limit"))
  {
    JsNumber(Defaulted(Get(query, "limit"), 20))
  }

  /** The query without `page`, `limit` and `orderBy` (`...queryParams`). */
  function RestParams(query: Record): (r: Record)
    ensures forall k :: k in r <==> k in query && k !in Reserved
    ensures forall k :: k in r ==> r[k] == query[k]
  {
    map k | k in query.Keys - Reserved :: query[k]
  }

  /** `const [key, value] = orderBy.split(':'); sort = { [key]: value }`
      for a string `orderBy`; anything else leaves `sort` undefined. A
      string without a colon gives the direction `undefined`. */
  function SortParam(orderBy: Value): (s: Option<Sort>)
    ensures !orderBy.VStr? <==> s.None?
    ensures s.Some? ==> s.value.key == Split(orderBy.s, ':')[0]
  {
    if !orderBy.VStr? then None
    else
      var parts := Split(orderBy.s, ':');
      Some(Sort(parts[0], if |parts| >= 2 then VStr(parts[1]) else VUndefined))
  }

  /** `"k:v"` orders by `k` in direction `v`, as given (no lower-casing). */
  lemma SortPair(k: string, v: string)
    requires ':' !in k && ':' !in v
    ensures SortParam(VStr(k + ":" + v)) == Some(Sort(k, VStr(v)))
  {
    SplitPair(k, ':', v);
    assert k + ":" + v == k + [':'] + v;
  }

  /** A string without a colon gives an `orderBy` with an undefined
      direction. That the query then fails is a choice of this model (see
      README, "Left out"): the service hands `{ [key]: undefined }` to
      Prisma, whose answer to it is not modelled. */
  lemma SortWithoutColon(rows: seq<Row>, w: Where, s: string, page: Value, limit: Value)
    requires ':' !in s
    ensures SortParam(VStr(s)) == Some(Sort(s, VUndefined))
    ensures ListRows(rows, w, SortParam(VStr(s)).value, page, limit).Err?
  {
    SplitByNoSep(s, x => x == ':');
  }

  /** The JSON form of a row and of a listing. */
  function RowValue(r: Row): Value {
    VObject(AsObject(r))
  }

  function ListingValue(l: Listing): (v: Value)
    ensures v.VObject? && Get(v.fields, "items").VArray? && |Get(v.fields, "items").items| == |l.items|
    ensures forall i :: 0 <= i < |l.items| ==> Get(v.fields, "items").items[i] == RowValue(l.items[i])
  {
    VObject(map[
      "items" := VArray(seq(|l.items|, i requires 0 <= i < |l.items| => RowValue(l.items[i]))),
      "pagination" := VObject(map[
        "totalRecords" := VNum(l.pagination.totalRecords),
        "totalPages" := VNum(l.pagination.totalPages),
        "currentPage" := VNum(l.pagination.currentPage),
        "recordsPerPage" := VNum(l.pagination.recordsPerPage)])])
  }

  /** The reply to a lookup: 200 with the item when it is truthy, 404
      otherwise. */
  function ItemReply(key: string, item: Option<Row>): (o: Reply)
    ensures item.Some? <==> o.Respond? && o.status == 200
    ensures item.Some? ==> o == Respond(200, WithResult(key, RowValue(item.value)))
    ensures item.None? ==> o == Respond(404, Message("item.NOT_FOUND"))
  {
    if item.Some? && Truthy(RowValue(item.value)) then Respond(200, WithResult(key, RowValue(item.value)))
    else Respond(404, Message("item.NOT_FOUND"))
  }

  /** The `where` of a `getAll` query: its `buildFilters` filters. */
  function WhereOf(query: Record): Where {
    WhereFor(Filters(RestParams(query)))
  }

  /** The order of a `getAll` query: its `orderBy`, newest first without. */
  function SortOf(query: Record): Sort {
    SortParam(Get(query, "orderBy")).GetOr(DefaultSort)
  }

  /** The listing `getAll` asks the service for. It fails exactly when the
      direction is not one Prisma knows or `Number(page)` or
      `Number(limit)` is not a positive integer; otherwise it echoes the
      page and limit, counts the matching rows, and lists only rows of the
      table that match the filters. */
  function Listed(rows: seq<Row>, query: Record): (l: Result<Listing, Thrown>)
    ensures l.Err? <==>
      || !KnownDirection(SortOf(query).direction)
      || !(PageParam(query).VNum? && PageParam(query).n >= 1)
      || !(LimitParam(query).VNum? && LimitParam(query).n >= 1)
    ensures l.Err? ==> l.error == StoreError
    ensures l.Ok? ==> l.value.pagination.currentPage == PageParam(query).n
    ensures l.Ok? ==> l.value.pagination.recordsPerPage == LimitParam(query).n
    ensures l.Ok? ==> l.value.pagination.totalRecords == Count(rows, WhereOf(query))
    ensures l.Ok? ==> forall x :: x in l.value.items ==> x in rows && Matches(x, WhereOf(query))
  {
    var page, limit := PageParam(query), LimitParam(query);
    assert Defaulted(page, 1) == page && Defaulted(limit, 10) == limit;
    var l := ListRows(rows, WhereOf(query), SortOf(query), page, limit);
    if l.Ok? then
      ListedRowsMatch(rows, WhereOf(query), SortOf(query), page, limit);
      l
    else l
  }

  /** The reply of `getAll` for a query, against the table's rows: 200
      with the listing, or the query's error handed to `next`. */
  function ListReply(rows: seq<Row>, query: Record): (o: Reply)
    ensures o.Respond? <==> Listed(rows, query).Ok?
    ensures o.Respond? ==> o == Respond(200, WithResult("item.FETCHED_ALL_SUCCESSFULLY", ListingValue(Listed(rows, query).value)))
    ensures !o.Respond? ==> o == NextWith(StoreError)
  {
    match Listed(rows, query)
    case Err(e) => NextWith(e)
    case Ok(v) => Respond(200, WithResult("item.FETCHED_ALL_SUCCESSFULLY", ListingValue(v)))
  }

  /** A query without `page`, `limit` and `orderBy` lists the first 20
      matching rows, newest first. */
  lemma DefaultListing(rows: seq<Row>, query: Record)
    requires "page" !in query && "limit" !in query && "orderBy" !in query
    ensures ListReply(rows, query).Respond?
    ensures Listed(rows, query).value.pagination.currentPage == 1
    ensures Listed(rows, query).value.pagination.recordsPerPage == 20
    ensures Listed(rows, query).value.items == Window(Ordered(Select(rows, WhereOf(query)), DefaultSort), 0, 20)
  {
    assert SortOf(query) == DefaultSort;
    assert PageParam(query) == VNum(1) && LimitParam(query) == VNum(20);
    var w := WhereOf(query);
    assert Listed(rows, query) == ListRows(rows, w, DefaultSort, VNum(1), VNum(20));
    assert ListRows(rows, w, DefaultSort, VNum(1), VNum(20)) == PageOf(Ordered(Select(rows, w), DefaultSort), VNum(1), VNum(20));
  }

  /** With no query at all, the matching rows are the live rows. */
  lemma EmptyQueryWhere()
    ensures WhereOf(map[]) == map["deletedAt" := Equals(VNull)]
  {
    assert RestParams(map[]) == map[];
    assert Filters(map[]) == map["deletedAt" := VNull];
    assert WhereFor(map["deletedAt" := VNull]) == map["deletedAt" := Equals(VNull)];
  }

  class EntityController {
    const service: EntityService

    constructor (service: EntityService)
      ensures this.service == service
    {
      this.service := service;
    }

    /** `create(req, res, next)`: 201 with the created row. */
    method Create(body: Record) returns (o: Reply)
      requires service.db.Valid()
      modifies service.db
      ensures service.db.Valid()
      ensures var row := NewRow(old(service.db.tables[service.model].nextId), FieldFilter.Kept(body, service.insertableFields));
        && o == Respond(201, WithResult("item.CREATED_SUCCESSFULLY", RowValue(row)))
        && service.db.tables == old(service.db.tables)[service.model :=
             Table(old(service.db.tables[service.model].rows) + [row], old(service.db.tables[service.model].nextId) + 1)]
    {
      var row := service.Create(body);
      o := Respond(201, WithResult("item.CREATED_SUCCESSFULLY", RowValue(row)));
    }

    /** `update(req, res, next)`: `parseInt` of the path id; an unparsable
        id or a missing row makes Prisma throw, so the 404 branch is never
        taken (the service never returns a falsy row). */
    method Update(idParam: string, body: Record) returns (o: Reply)
      requires service.db.Valid()
      modifies service.db
      ensures service.db.Valid()
      ensures (ParseInt(idParam).None? || old(FindById(service.db.tables[service.model].rows, ParseInt(idParam).value)).None?) ==>
        o == NextWith(StoreError) && service.db.tables == old(service.db.tables)
      ensures ParseInt(idParam).Some? && old(FindById(service.db.tables[service.model].rows, ParseInt(idParam).value)).Some? ==>
        var id := ParseInt(idParam).value;
        var data := FieldFilter.Kept(body, service.updatableFields);
        && o == Respond(200, WithResult("item.UPDATED_SUCCESSFULLY",
                  RowValue(ApplyData(old(FindById(service.db.tables[service.model].rows, id)).value, data))))
        && service.db.tables == old(service.db.tables)[service.model :=
             Table(UpdateRows(old(service.db.tables[service.model].rows), id, data), old(service.db.tables[service.model].nextId))]
      ensures o != Respond(404, Message("item.NOT_FOUND"))
    {
      var id := ParseInt(idParam);
      if id.None? {
        return NextWith(StoreError);
      }
      var updated := service.Update(id.value, body);
      if updated.Err? {
        return NextWith(updated.error);
      }
      o := ItemReply("item.UPDATED_SUCCESSFULLY", Some(updated.value));
    }

    /** `delete(req, res, next)`: 200 once the service's guard and soft
        delete succeed; a conflict or a missing row goes to `next`. */
    method Delete(idParam: string, now: Time) returns (o: Reply)
      requires service.db.Valid()
      modifies service.db
      ensures service.db.Valid()
      ensures ParseInt(idParam).None? ==> o == NextWith(StoreError) && service.db.tables == old(service.db.tables)
      ensures ParseInt(idParam).Some? ==>
        var id := ParseInt(idParam).value;
        && (RelatedCheck(old(service.db.tables), service.relatedModels, id).Err? ==>
              o == NextWith(RelatedDataConflict) && service.db.tables == old(service.db.tables))
        && (RelatedCheck(old(service.db.tables), service.relatedModels, id).Ok? && old(FindById(service.db.tables[service.model].rows, id)).None? ==>
              o == NextWith(StoreError) && service.db.tables == old(service.db.tables))
        && (RelatedCheck(old(service.db.tables), service.relatedModels, id).Ok? && old(FindById(service.db.tables[service.model].rows, id)).Some? ==>
              && o == Respond(200, Message("item.DELETED_SUCCESSFULLY"))
              && service.db.tables == old(service.db.tables)[service.model :=
                   Table(UpdateRows(old(service.db.tables[service.model].rows), id, SoftDelete(now)), old(service.db.tables[service.model].nextId))])
    {
      var id := ParseInt(idParam);
      if id.None? {
        return NextWith(StoreError);
      }
      var d := service.Delete(id.value, now);
      if d.Err? {
        return NextWith(d.error);
      }
      o := Respond(200, Message("item.DELETED_SUCCESSFULLY"));
    }

    /** `getById(req, res, next)`: 200 with the row, soft-deleted or not,
        and 404 when no row has the id. */
    method GetById(idParam: string) returns (o: Reply)
      requires service.db.Valid()
      ensures ParseInt(idParam).None? ==> o == NextWith(StoreError)
      ensures ParseInt(idParam).Some? ==>
        && (o.Respond? && o.status == 200 <==> exists x :: x in service.db.Rows(service.model) && x.id == ParseInt(idParam).value)
        && (o.Respond? && o.status == 200 ==> exists x :: x in service.db.Rows(service.model) && x.id == ParseInt(idParam).value &&
                                                 o == Respond(200, WithResult("item.FETCHED_SUCCESSFULLY", RowValue(x))))
        && (!(o.Respond? && o.status == 200) ==> o == Respond(404, Message("item.NOT_FOUND")))
    {
      var id := ParseInt(idParam);
      if id.None? {
        return NextWith(StoreError);
      }
      var item := service.GetById(id.value);
      o := ItemReply("item.FETCHED_SUCCESSFULLY", item);
    }

    /** `getAll(req, res, next)` for the query string `query`. */
    method GetAll(query: Record) returns (o: Reply)
      requires service.db.Valid()
      ensures o == ListReply(service.db.Rows(service.model), query)
    {
      var filters := BuildFilters(RestParams(query));
      var page := PageParam(query);
      var limit := LimitParam(query);
      var sort: Option<Sort> := None;
      var orderBy := Get(query, "orderBy");
      if orderBy.VStr? {
        var parts := Split(orderBy.s, ':');
        sort := Some(Sort(parts[0], if |parts| >= 2 then VStr(parts[1]) else VUndefined));
      }
      var items := service.GetAll(filters, page, limit, sort);
      if items.Err? {
        return NextWith(items.error);
      }
      o := Respond(200, WithResult("item.FETCHED_ALL_SUCCESSFULLY", ListingValue(items.value)));
    }
  }
}
