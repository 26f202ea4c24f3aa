/** `BaseService`: the generic table service every entity service builds
    on. It lists with a soft-delete predicate and pagination, reads by id,
    writes through allow-lists, and deletes softly behind a related-data
    guard. `new Date()` is the parameter `now`. */
module BaseService {
  import opened Wrappers
  import opened Values
  import opened Store
  import opened AppErrors
  import ErrorHelper
  import FieldFilter

  /** A `relatedModels` entry: a table whose `foreignKey` column may point
      at a row of this service's table. */
  datatype RelatedModel = RelatedModel(table: TableName, foreignKey: string)

  /** A one-key Prisma `orderBy` object `{ key: direction }`. */
  datatype Sort = Sort(key: string, direction: Value)

  /** The `orderBy` that `getAll` uses when the caller gives none. */
  const DefaultSort := Sort("id", VStr("desc"))

  datatype Pagination = Pagination(totalRecords: nat, totalPages: nat, currentPage: int, recordsPerPage: int)

  /** What `getAll` resolves to: `{ items, pagination }`. */
  datatype Listing = Listing(items: seq<Row>, pagination: Pagination)

  // ------------------------------------------------------------- where

  /** One `getAll` filter entry: a string matches as a substring, anything
      else by equality. */
  function CondFor(v: Value): (c: Cond)
    ensures v.VStr? ==> c == Contains(v.s)
    ensures !v.VStr? ==> c == Equals(v)
  {
    if v.VStr? then Contains(v.s) else Equals(v)
  }

  /** The `where` object after the filter keys in `done` have been assigned
      over the base `{ deletedAt: null }`. */
  function WhereOver(filters: Record, done: set<string>): Where {
    map k | k in (filters.Keys * done) + {"deletedAt"} ::
      if k in filters && k in done then CondFor(filters[k]) else Equals(VNull)
  }

  /** The `where` that `getAll` builds: the base soft-delete condition, then
      one entry per filter, so a `deletedAt` filter replaces the base. */
  function WhereFor(filters: Record): (w: Where)
    ensures w.Keys == filters.Keys + {"deletedAt"}
    ensures forall k :: k in filters ==> w[k] == CondFor(filters[k])
    ensures "deletedAt" !in filters ==> w["deletedAt"] == Equals(VNull)
  {
    WhereOver(filters, filters.Keys)
  }

  /** The `forEach` over `Object.entries(filters)` that fills `where`. The
      keys are distinct, so the visiting order does not matter. */
  method BuildWhere(filters: Record) returns (w: Where)
    ensures w == WhereFor(filters)
  {
    w := map["deletedAt" := Equals(VNull)];
    assert w == WhereOver(filters, {});
    var todo := filters.Keys;
    while todo != {}
      invariant todo <= filters.Keys
      invariant w == WhereOver(filters, filters.Keys - todo)
      decreases |todo|
    {
      var k :| k in todo;
      w := w[k := CondFor(filters[k])];
      todo := todo - {k};
      assert w == WhereOver(filters, filters.Keys - todo);
    }
    assert filters.Keys - todo == filters.Keys;
  }

  /** Without a `deletedAt` filter, only live rows are listed. */
  lemma LiveRowsOnly(rows: seq<Row>, filters: Record)
    requires "deletedAt" !in filters
    ensures forall x :: x in Select(rows, WhereFor(filters)) ==> x.deletedAt.None?
  {
    forall x | x in Select(rows, WhereFor(filters)) ensures x.deletedAt.None? {
      assert Holds(Column(x, "deletedAt"), WhereFor(filters)["deletedAt"]);
    }
  }

  /** A `deletedAt` filter decides the soft-delete test by itself: with
      `deletedAt: undefined` even deleted rows are listed. */
  lemma DeletedAtOverride(x: Row, filters: Record)
    requires "deletedAt" in filters
    ensures Matches(x, WhereFor(filters)) <==>
      && Holds(Column(x, "deletedAt"), CondFor(filters["deletedAt"]))
      && (forall k :: k in filters && k != "deletedAt" ==> Holds(Column(x, k), CondFor(filters[k])))
  {
  }

  // ------------------------------------------------------------ ordering

  function Reverse(s: seq<Row>): (r: seq<Row>)
    ensures |r| == |s|
    ensures forall i :: 0 <= i < |s| ==> r[i] == s[|s| - 1 - i]
  {
    seq(|s|, i requires 0 <= i < |s| => s[|s| - 1 - i])
  }

  /** The directions Prisma accepts in `orderBy`. */
  predicate KnownDirection(v: Value) {
    v == VStr("asc") || v == VStr("desc")
  }

  /** The matching rows in the order `orderBy` asks for. Table order is
      ascending id; only ordering by id is modelled (see README). */
  function Ordered(rows: seq<Row>, sort: Sort): (r: seq<Row>)
    ensures |r| == |rows|
    ensures forall x :: x in r <==> x in rows
  {
    if sort.key == "id" && sort.direction == VStr("desc") then
      var r := Reverse(rows);
      assert forall x :: x in rows ==> x in r by {
        forall x | x in rows ensures x in r {
          var i :| 0 <= i < |rows| && rows[i] == x;
          assert r[|rows| - 1 - i] == x;
        }
      }
      r
    else rows
  }

  lemma {:induction false} OrderedById(rows: seq<Row>, sort: Sort)
    requires Increasing(rows)
    requires sort.key == "id" && KnownDirection(sort.direction)
    ensures var r := Ordered(rows, sort);
      forall i, j :: 0 <= i < j < |r| ==>
        if sort.direction == VStr("asc") then r[i].id < r[j].id else r[i].id > r[j].id
  {
    var r := Ordered(rows, sort);
    forall i, j | 0 <= i < j < |r|
      ensures if sort.direction == VStr("asc") then r[i].id < r[j].id else r[i].id > r[j].id
    {
      if sort.direction == VStr("desc") {
        assert r[i] == rows[|rows| - 1 - i] && r[j] == rows[|rows| - 1 - j];
      }
    }
  }

  // ---------------------------------------------------------- pagination

  /** `skip`/`take` over a sequence. */
  function Window(s: seq<Row>, skip: nat, take: nat): (r: seq<Row>)
    ensures |r| <= take
    ensures forall i :: 0 <= i < |r| ==> skip + i < |s| && r[i] == s[skip + i]
    ensures skip + take <= |s| ==> |r| == take
    ensures skip < |s| ==> |r| == if skip + take <= |s| then take else |s| - skip
    ensures skip >= |s| ==> r == []
  {
    var lo := if skip < |s| then skip else |s|;
    var hi := if skip + take < |s| then skip + take else |s|;
    s[lo..hi]
  }

  /** `Math.ceil(a / b)` for b > 0. */
  function CeilDiv(a: nat, b: nat): (q: nat)
    requires b > 0
    ensures q * b >= a
    ensures q == 0 || (q - 1) * b < a
    ensures q == 0 <==> a == 0
  {
    if a % b == 0 then a / b else a / b + 1
  }

  /** A `page`/`limit` default applies only to `undefined`. */
  function Defaulted(v: Value, default: int): (r: Value)
    ensures v == VUndefined ==> r == VNum(default)
    ensures v != VUndefined ==> r == v
  {
    if v == VUndefined then VNum(default) else v
  }

  /** One page of `rows` (already filtered and ordered), with its summary.
      A page or limit that is not a positive integer makes the query fail. */
  function PageOf(rows: seq<Row>, page: Value, limit: Value): (r: Result<Listing, Thrown>)
    ensures r.Err? <==> !(page.VNum? && limit.VNum? && page.n >= 1 && limit.n >= 1)
    ensures r.Ok? ==>
      && r.value.pagination.totalRecords == |rows|
      && r.value.pagination.currentPage == page.n
      && r.value.pagination.recordsPerPage == limit.n
      && r.value.pagination.totalPages == CeilDiv(|rows|, limit.n)
      && r.value.items == Window(rows, (page.n - 1) * limit.n, limit.n)
  {
    if !(page.VNum? && limit.VNum? && page.n >= 1 && limit.n >= 1) then Err(StoreError)
    else
      var skip := (page.n - 1) * limit.n;
      Ok(Listing(Window(rows, skip, limit.n),
                 Pagination(|rows|, CeilDiv(|rows|, limit.n), page.n, limit.n)))
  }

  /** A page past the last one is empty, but still echoes its number. */
  lemma PastLastPage(rows: seq<Row>, page: Value, limit: Value)
    requires PageOf(rows, page, limit).Ok?
    requires page.n > PageOf(rows, page, limit).value.pagination.totalPages
    ensures PageOf(rows, page, limit).value.items == []
    ensures PageOf(rows, page, limit).value.pagination.currentPage == page.n
  {
    var q := CeilDiv(|rows|, limit.n);
    MulMono(q, page.n - 1, limit.n);
  }

  lemma MulMono(a: nat, b: nat, c: nat)
    requires a <= b
    ensures a * c <= b * c
  {
  }

  /** Every page before the last is full. */
  lemma FullPages(rows: seq<Row>, page: Value, limit: Value)
    requires PageOf(rows, page, limit).Ok?
    requires page.n < PageOf(rows, page, limit).value.pagination.totalPages
    ensures |PageOf(rows, page, limit).value.items| == limit.n
  {
    var q := CeilDiv(|rows|, limit.n);
    MulMono(page.n, q - 1, limit.n);
    assert (page.n - 1) * limit.n + limit.n == page.n * limit.n;
  }

  /** A paginated query: `count` and `findMany` under the same `where`,
      ordered by `sort`. An `orderBy` direction Prisma does not accept makes
      the query fail. */
  function SortedPage(rows: seq<Row>, w: Where, sort: Sort, page: Value, limit: Value): (r: Result<Listing, Thrown>)
    ensures !KnownDirection(sort.direction) ==> r == Err(StoreError)
    ensures KnownDirection(sort.direction) ==> r == PageOf(Ordered(Select(rows, w), sort), page, limit)
    ensures r.Ok? ==> r.value.pagination.totalRecords == Count(rows, w)
  {
    if !KnownDirection(sort.direction) then Err(StoreError)
    else PageOf(Ordered(Select(rows, w), sort), page, limit)
  }

  /** The `getAll` query, with the page and limit defaults 1 and 10. */
  function ListRows(rows: seq<Row>, w: Where, sort: Sort, page: Value, limit: Value): (r: Result<Listing, Thrown>)
    ensures r == SortedPage(rows, w, sort, Defaulted(page, 1), Defaulted(limit, 10))
    ensures r.Ok? && page == VUndefined ==> r.value.pagination.currentPage == 1
    ensures r.Ok? && limit == VUndefined ==> r.value.pagination.recordsPerPage == 10
  {
    SortedPage(rows, w, sort, Defaulted(page, 1), Defaulted(limit, 10))
  }

  /** Every listed row matches the `where` and is a row of the table. */
  lemma ListedRowsMatch(rows: seq<Row>, w: Where, sort: Sort, page: Value, limit: Value)
    requires SortedPage(rows, w, sort, page, limit).Ok?
    ensures forall x :: x in SortedPage(rows, w, sort, page, limit).value.items ==> x in rows && Matches(x, w)
  {
    var items := SortedPage(rows, w, sort, page, limit).value.items;
    var ordered := Ordered(Select(rows, w), sort);
    forall x | x in items ensures x in rows && Matches(x, w) {
      var i :| 0 <= i < |items| && items[i] == x;
      assert x == ordered[(page.n - 1) * limit.n + i];
    }
  }

  // ------------------------------------------------------ related guard

  /** The rows of a table in a snapshot of the database. */
  function RowsIn(tables: map<TableName, Table>, n: TableName): seq<Row> {
    if n in tables then tables[n].rows else []
  }

  /** `{ [foreignKey]: id, deletedAt: null }` */
  function LiveReference(foreignKey: string, id: int): Where {
    map[foreignKey := Equals(VNum(id)), "deletedAt" := Equals(VNull)]
  }

  /** The related table holds a live row whose foreign key equals `id`. */
  predicate Blocks(tables: map<TableName, Table>, rel: RelatedModel, id: int) {
    Count(RowsIn(tables, rel.table), LiveReference(rel.foreignKey, id)) > 0
  }

  /** A relation blocks exactly when a live row points at the id. */
  lemma BlocksIff(tables: map<TableName, Table>, rel: RelatedModel, id: int)
    requires rel.foreignKey != "deletedAt"
    ensures Blocks(tables, rel, id) <==>
      exists x :: x in RowsIn(tables, rel.table) && Column(x, rel.foreignKey) == VNum(id) && x.deletedAt.None?
  {
    var rows := RowsIn(tables, rel.table);
    var w := LiveReference(rel.foreignKey, id);
    CountZero(rows, w);
    if Blocks(tables, rel, id) {
      var i :| 0 <= i < |rows| && Matches(rows[i], w);
      assert Holds(Column(rows[i], rel.foreignKey), w[rel.foreignKey]);
      assert Holds(Column(rows[i], "deletedAt"), w["deletedAt"]);
    } else {
      forall x | x in rows ensures !(Column(x, rel.foreignKey) == VNum(id) && x.deletedAt.None?) {
        var i :| 0 <= i < |rows| && rows[i] == x;
        assert !Matches(x, w);
      }
    }
  }

  /** The first relation, at or after `from`, that blocks. */
  function FirstBlockingFrom(tables: map<TableName, Table>, related: seq<RelatedModel>, id: int, from: nat): (r: Option<nat>)
    ensures r.Some? ==> from <= r.value < |related| && Blocks(tables, related[r.value], id)
    ensures r.Some? ==> forall j :: from <= j < r.value ==> !Blocks(tables, related[j], id)
    ensures r.None? ==> forall j :: from <= j < |related| ==> !Blocks(tables, related[j], id)
    decreases |related| - from
  {
    if from >= |related| then None
    else if Blocks(tables, related[from], id) then Some(from)
    else FirstBlockingFrom(tables, related, id, from + 1)
  }

  const RelatedDataConflict: Thrown := AppErr(ErrorHelper.CreateConflictError("Cannot delete: Related data exists"))

  /** `checkRelatedData`: Conflict when some configured relation blocks. */
  function RelatedCheck(tables: map<TableName, Table>, related: seq<RelatedModel>, id: int): (r: Result<(), Thrown>)
    ensures r.Err? ==> r.error == RelatedDataConflict
    ensures r.Err? <==> exists j :: 0 <= j < |related| && Blocks(tables, related[j], id)
  {
    if FirstBlockingFrom(tables, related, id, 0).Some? then Err(RelatedDataConflict) else Ok(())
  }

  /** The conflict a delete reports is a 409 Conflict error. */
  lemma RelatedConflictIs409()
    ensures RelatedDataConflict.app.errorType == Conflict
    ensures RelatedDataConflict.app.statusCode == 409
    ensures RelatedDataConflict.app.message == "Cannot delete: Related data exists"
  {
  }

  /** The data a soft delete writes. */
  function SoftDelete(now: Time): Record {
    map["deletedAt" := VTime(now)]
  }

  /** A soft delete marks the target row and nothing else: every other row
      is unchanged, and the target keeps its id and fields. */
  lemma {:induction false} SoftDeleteOnlyTarget(rows: seq<Row>, id: int, now: Time)
    ensures var r := UpdateRows(rows, id, SoftDelete(now));
      && |r| == |rows|
      && (forall i :: 0 <= i < |rows| && rows[i].id != id ==> r[i] == rows[i])
      && (forall i :: 0 <= i < |rows| && rows[i].id == id ==>
            r[i] == Row(rows[i].id, rows[i].fields, Some(now)))
  {
    var r := UpdateRows(rows, id, SoftDelete(now));
    assert WrittenKeys(SoftDelete(now)) == {};
    forall i | 0 <= i < |rows| && rows[i].id == id
      ensures r[i] == Row(rows[i].id, rows[i].fields, Some(now))
    {
      var a := ApplyData(rows[i], SoftDelete(now));
      assert a.fields == rows[i].fields;
    }
  }

  // -------------------------------------------------------------- service

  /** A service bound to one table, with its allow-lists and guards. */
  class EntityService {
    const db: Database
    const model: TableName
    const insertableFields: seq<string>
    const updatableFields: seq<string>
    const relatedModels: seq<RelatedModel>

    constructor (db: Database, model: TableName, insertableFields: seq<string>,
                 updatableFields: seq<string>, relatedModels: seq<RelatedModel>)
      ensures this.db == db && this.model == model
      ensures this.insertableFields == insertableFields && this.updatableFields == updatableFields
      ensures this.relatedModels == relatedModels
    {
      this.db := db;
      this.model := model;
      this.insertableFields := insertableFields;
      this.updatableFields := updatableFields;
      this.relatedModels := relatedModels;
    }

    /** `create(data)`: inserts the allowed part of `data`. */
    method Create(data: Record) returns (row: Row)
      requires db.Valid()
      modifies db
      ensures db.Valid()
      ensures row == NewRow(old(db.tables[model].nextId), FieldFilter.Kept(data, insertableFields))
      ensures db.tables == old(db.tables)[model := Table(old(db.tables[model].rows) + [row], old(db.tables[model].nextId) + 1)]
    {
      var filtered := FieldFilter.FilterFields(data, insertableFields);
      row := db.Create(model, filtered);
    }

    /** `getAll(filters, pages, orderBy)`; `None` for `orderBy` is the
        parameter's default. */
    method GetAll(filters: Record, page: Value, limit: Value, orderBy: Option<Sort>) returns (r: Result<Listing, Thrown>)
      requires db.Valid()
      ensures r == ListRows(db.Rows(model), WhereFor(filters), orderBy.GetOr(DefaultSort), page, limit)
    {
      var w := BuildWhere(filters);
      r := ListRows(db.tables[model].rows, w, orderBy.GetOr(DefaultSort), page, limit);
    }

    /** `getById(id)`: matches the id alone, so a soft-deleted row is found. */
    method GetById(id: int) returns (r: Option<Row>)
      requires db.Valid()
      ensures r.Some? <==> exists x :: x in db.Rows(model) && x.id == id
      ensures r.Some? ==> r.value in db.Rows(model) && r.value.id == id
    {
      r := FindById(db.tables[model].rows, id);
      if r.None? {
        forall x | x in db.Rows(model) ensures x.id != id {
          var i :| 0 <= i < |db.Rows(model)| && db.Rows(model)[i] == x;
        }
      }
    }

    /** `update(id, data)`: writes the allowed part of `data` to the row;
        Prisma throws when there is none. */
    method Update(id: int, data: Record) returns (r: Result<Row, Thrown>)
      requires db.Valid()
      modifies db
      ensures db.Valid()
      ensures old(FindById(db.tables[model].rows, id)).None? ==> r == Err(StoreError) && db.tables == old(db.tables)
      ensures old(FindById(db.tables[model].rows, id)).Some? ==>
        && r == Ok(ApplyData(old(FindById(db.tables[model].rows, id)).value, FieldFilter.Kept(data, updatableFields)))
        && db.tables == old(db.tables)[model := Table(UpdateRows(old(db.tables[model].rows), id, FieldFilter.Kept(data, updatableFields)),
                                                     old(db.tables[model].nextId))]
    {
      var filtered := FieldFilter.FilterFields(data, updatableFields);
      r := db.Update(model, id, filtered);
    }

    /** `checkRelatedData(id)`: the relations in configured order, stopping
        at the first that blocks. */
    method CheckRelatedData(id: int) returns (r: Result<(), Thrown>)
      ensures r == RelatedCheck(db.tables, relatedModels, id)
    {
      var i := 0;
      while i < |relatedModels|
        invariant 0 <= i <= |relatedModels|
        invariant FirstBlockingFrom(db.tables, relatedModels, id, 0) == FirstBlockingFrom(db.tables, relatedModels, id, i)
      {
        var rel := relatedModels[i];
        var count := Count(RowsIn(db.tables, rel.table), LiveReference(rel.foreignKey, id));
        if count > 0 {
          return Err(RelatedDataConflict);
        }
        i := i + 1;
      }
      return Ok(());
    }

    /** `delete(id)`: the guard, then a soft delete stamped `now`. On a
        conflict nothing changes. */
    method Delete(id: int, now: Time) returns (r: Result<(), Thrown>)
      requires db.Valid()
      modifies db
      ensures db.Valid()
      ensures RelatedCheck(old(db.tables), relatedModels, id).Err? ==>
        r == Err(RelatedDataConflict) && db.tables == old(db.tables)
      ensures RelatedCheck(old(db.tables), relatedModels, id).Ok? && old(FindById(db.tables[model].rows, id)).None? ==>
        r == Err(StoreError) && db.tables == old(db.tables)
      ensures RelatedCheck(old(db.tables), relatedModels, id).Ok? && old(FindById(db.tables[model].rows, id)).Some? ==>
        && r == Ok(())
        && db.tables == old(db.tables)[model := Table(UpdateRows(old(db.tables[model].rows), id, SoftDelete(now)),
                                                     old(db.tables[model].nextId))]
    {
      var check := CheckRelatedData(id);
      if check.Err? {
        return check;
      }
      var u := db.Update(model, id, SoftDelete(now));
      if u.Err? {
        return Err(u.error);
      }
      return Ok(());
    }
  }
}
