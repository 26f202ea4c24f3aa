/** `UserService`: the user table's own operations. Listing has its own
    filter rule (only truthy filters, no soft-delete predicate), updates
    write the data as given, and deletion is a hard delete. */
module UserService {
  import opened Wrappers
  import opened Values
  import opened Strings
  import opened Store
  import opened AppErrors
  import opened BaseService

  /** `{ ...data, token }` with `token = data.token || ''`. */
  function WithDefaultToken(data: Record): (d: Record)
    ensures "token" in d
    ensures Truthy(Get(data, "token")) ==> d["token"] == data["token"]
    ensures !Truthy(Get(data, "token")) ==> d["token"] == VStr("")
    ensures forall k :: k != "token" ==> (k in d <==> k in data)
    ensures forall k :: k != "token" && k in d ==> d[k] == data[k]
  {
    data["token" := if Truthy(Get(data, "token")) then Get(data, "token") else VStr("")]
  }

  /** A created user always has a token: the supplied one when truthy,
      otherwise the empty string (never null or missing). */
  lemma CreatedTokenDefault(id: nat, data: Record)
    ensures Column(NewRow(id, WithDefaultToken(data)), "token") ==
      if Truthy(Get(data, "token")) then Get(data, "token") else VStr("")
  {
    assert "token" in WrittenKeys(WithDefaultToken(data));
  }

  /** `{ contains: v }` for a user filter; Prisma rejects a non-string. */
  function ContainsFilter(v: Value): Result<Cond, Thrown> {
    if v.VStr? then Ok(Contains(v.s)) else Err(StoreError)
  }

  /** The `where` of `getAllUsers`: each filter applies only when truthy,
      `id` by equality and the three name columns by substring. There is no
      `deletedAt` condition. */
  function UserWhere(filters: Record): (r: Result<Where, Thrown>)
    ensures r.Err? <==> exists k :: k in {"firstName", "lastName", "phone"} && Truthy(Get(filters, k)) && !Get(filters, k).VStr?
    ensures r.Ok? ==> r.value.Keys == set k | k in {"id", "firstName", "lastName", "phone"} && Truthy(Get(filters, k))
    ensures r.Ok? && "id" in r.value ==> r.value["id"] == Equals(Get(filters, "id"))
    ensures r.Ok? ==> forall k :: k in r.value && k != "id" ==> r.value[k] == Contains(Get(filters, k).s)
  {
    var id := Get(filters, "id");
    var w0: Where := if Truthy(id) then map["id" := Equals(id)] else map[];
    var w1 :- AddContains(w0, "firstName", Get(filters, "firstName"));
    var w2 :- AddContains(w1, "lastName", Get(filters, "lastName"));
    var w3 :- AddContains(w2, "phone", Get(filters, "phone"));
    Ok(w3)
  }

  /** `if (v) where[key] = { contains: v }` */
  function AddContains(w: Where, key: string, v: Value): (r: Result<Where, Thrown>)
    ensures !Truthy(v) ==> r == Ok(w)
    ensures Truthy(v) && v.VStr? ==> r == Ok(w[key := Contains(v.s)])
    ensures Truthy(v) && !v.VStr? ==> r == Err(StoreError)
  {
    if !Truthy(v) then Ok(w)
    else
      var c :- ContainsFilter(v);
      Ok(w[key := c])
  }

  /** `id: 0` is falsy and so filters nothing. */
  lemma ZeroIdIgnored(filters: Record)
    requires Get(filters, "id") == VNum(0)
    ensures UserWhere(filters).Ok? ==> "id" !in UserWhere(filters).value
  {
  }

  /** Listing users never filters on `deletedAt`: a soft-deleted user that
      satisfies the filters is listed. */
  lemma DeletedUsersListed(rows: seq<Row>, filters: Record, x: Row)
    requires UserWhere(filters).Ok?
    requires x in rows && forall k :: k in UserWhere(filters).value ==> Holds(Column(x, k), UserWhere(filters).value[k])
    ensures x in Select(rows, UserWhere(filters).value)
    ensures "deletedAt" !in UserWhere(filters).value
  {
  }

  /** The `orderBy` of `getAllUsers`: `"f:d"` is `{ f: d.toLowerCase() }`;
      a truthy value without a colon, or one that is not a string, throws
      a TypeError; a falsy one is the default `{ id: 'desc' }`. */
  function UserOrder(orderBy: Value): (r: Result<Sort, Thrown>)
    ensures !Truthy(orderBy) ==> r == Ok(DefaultSort)
    ensures Truthy(orderBy) && !orderBy.VStr? ==> r == Err(TypeError)
    ensures r.Ok? && Truthy(orderBy) ==> r.value.key == Split(orderBy.s, ':')[0]
  {
    if !Truthy(orderBy) then Ok(DefaultSort)
    else if !orderBy.VStr? then Err(TypeError)
    else
      var parts := Split(orderBy.s, ':');
      if |parts| < 2 then Err(TypeError)
      else Ok(Sort(parts[0], VStr(ToLower(parts[1]))))
  }

  /** `"f:d"` with no further colon orders by `f` in direction `d`,
      lower-cased. */
  lemma UserOrderPair(f: string, d: string)
    requires ':' !in f && ':' !in d
    ensures UserOrder(VStr(f + ":" + d)) == Ok(Sort(f, VStr(ToLower(d))))
  {
    SplitPair(f, ':', d);
    assert f + ":" + d == f + [':'] + d;
  }

  /** A non-empty string without a colon throws. */
  lemma UserOrderNoColon(s: string)
    requires s != "" && ':' !in s
    ensures UserOrder(VStr(s)) == Err(TypeError)
  {
    SplitByNoSep(s, x => x == ':');
  }

  /** What `getAllUsers(filters)` resolves to: the `orderBy` TypeError comes
      first, then the query with no page or limit default. */
  function UserListing(rows: seq<Row>, filters: Record): (r: Result<Listing, Thrown>)
    ensures UserOrder(Get(filters, "orderBy")).Err? ==> r == Err(TypeError)
    ensures UserOrder(Get(filters, "orderBy")).Ok? && UserWhere(filters).Err? ==> r == Err(StoreError)
    ensures UserOrder(Get(filters, "orderBy")).Ok? && UserWhere(filters).Ok? ==>
      r == SortedPage(rows, UserWhere(filters).value, UserOrder(Get(filters, "orderBy")).value, Get(filters, "page"), Get(filters, "limit"))
    ensures r.Ok? ==> UserWhere(filters).Ok? && r.value.pagination.totalRecords == Count(rows, UserWhere(filters).value)
    ensures r.Ok? ==> r.value.pagination.currentPage == Get(filters, "page").n
    ensures r.Ok? ==> r.value.pagination.recordsPerPage == Get(filters, "limit").n
    ensures r.Ok? ==> forall x :: x in r.value.items ==> x in rows && Matches(x, UserWhere(filters).value)
  {
    var sort :- UserOrder(Get(filters, "orderBy"));
    var w :- UserWhere(filters);
    var l := SortedPage(rows, w, sort, Get(filters, "page"), Get(filters, "limit"));
    if l.Ok? then
      ListedRowsMatch(rows, w, sort, Get(filters, "page"), Get(filters, "limit"));
      l
    else l
  }

  /** Without a page, `(page - 1) * limit` is NaN and the query fails. */
  lemma NoPageDefault(rows: seq<Row>, filters: Record)
    requires Get(filters, "page") == VUndefined
    ensures UserListing(rows, filters).Err?
  {
  }

  class UserService {
    const db: Database
    /** The inherited base operations on the user table. */
    const base: EntityService

    constructor (db: Database)
      ensures this.db == db && base.db == db && base.model == UserTable
      ensures base.insertableFields == [] && base.updatableFields == [] && base.relatedModels == []
    {
      this.db := db;
      base := new EntityService(db, UserTable, [], [], []);
    }

    /** `createUser(data)`: inserts `data` with the token defaulted. */
    method CreateUser(data: Record) returns (row: Row)
      requires db.Valid()
      modifies db
      ensures db.Valid()
      ensures row == NewRow(old(db.tables[UserTable].nextId), WithDefaultToken(data))
      ensures db.tables == old(db.tables)[UserTable := Table(old(db.tables[UserTable].rows) + [row], old(db.tables[UserTable].nextId) + 1)]
    {
      var token := Get(data, "token");
      if !Truthy(token) {
        token := VStr("");
      }
      var userData := data["token" := token];
      row := db.Create(UserTable, userData);
    }

    /** `getUserById(id)`: by id alone, deleted or not. */
    method GetUserById(id: int) returns (r: Option<Row>)
      requires db.Valid()
      ensures r.Some? <==> exists x :: x in db.Rows(UserTable) && x.id == id
      ensures r.Some? ==> r.value in db.Rows(UserTable) && r.value.id == id
    {
      r := FindById(db.tables[UserTable].rows, id);
      if r.None? {
        forall x | x in db.Rows(UserTable) ensures x.id != id {
          var i :| 0 <= i < |db.Rows(UserTable)| && db.Rows(UserTable)[i] == x;
        }
      }
    }

    /** `getAllUsers(filters)`: the `where` is assigned entry by entry. */
    method GetAllUsers(filters: Record) returns (r: Result<Listing, Thrown>)
      requires db.Valid()
      ensures r == UserListing(db.Rows(UserTable), filters)
    {
      var order := UserOrder(Get(filters, "orderBy"));
      if order.Err? {
        return Err(order.error);
      }
      var w: Where := map[];
      var id := Get(filters, "id");
      if Truthy(id) {
        w := w["id" := Equals(id)];
      }
      var keys := ["firstName", "lastName", "phone"];
      var i := 0;
      while i < |keys|
        invariant 0 <= i <= |keys|
        invariant UserWhere(filters) == Rest(w, filters, keys[i..])
      {
        var v := Get(filters, keys[i]);
        if Truthy(v) {
          if !v.VStr? {
            return Err(StoreError);
          }
          w := w[keys[i] := Contains(v.s)];
        }
        i := i + 1;
      }
      r := SortedPage(db.tables[UserTable].rows, w, order.value, Get(filters, "page"), Get(filters, "limit"));
    }

    /** `updateUser(id, data)`: writes `data` unfiltered; Prisma throws when
        no row has the id. */
    method UpdateUser(id: int, data: Record) returns (r: Result<Row, Thrown>)
      requires db.Valid()
      modifies db
      ensures db.Valid()
      ensures old(FindById(db.tables[UserTable].rows, id)).None? ==> r == Err(StoreError) && db.tables == old(db.tables)
      ensures old(FindById(db.tables[UserTable].rows, id)).Some? ==>
        && r == Ok(ApplyData(old(FindById(db.tables[UserTable].rows, id)).value, data))
        && db.tables == old(db.tables)[UserTable := Table(UpdateRows(old(db.tables[UserTable].rows), id, data), old(db.tables[UserTable].nextId))]
    {
      r := db.Update(UserTable, id, data);
    }

    /** `deleteUser(id)`: removes the row; Prisma throws when there is none. */
    method DeleteUser(id: int) returns (r: Result<(), Thrown>)
      requires db.Valid()
      modifies db
      ensures db.Valid()
      ensures old(FindById(db.tables[UserTable].rows, id)).None? ==> r == Err(StoreError) && db.tables == old(db.tables)
      ensures old(FindById(db.tables[UserTable].rows, id)).Some? ==>
        r == Ok(()) && db.tables == old(db.tables)[UserTable := Table(RemoveId(old(db.tables[UserTable].rows), id), old(db.tables[UserTable].nextId))]
    {
      var d := db.Delete(UserTable, id);
      if d.Err? {
        return Err(d.error);
      }
      r := Ok(());
    }
  }

  /** The `where` built from `w` by the remaining substring filters. */
  function Rest(w: Where, filters: Record, keys: seq<string>): Result<Where, Thrown>
    decreases |keys|
  {
    if |keys| == 0 then Ok(w)
    else
      var w' :- AddContains(w, keys[0], Get(filters, keys[0]));
      Rest(w', filters, keys[1..])
  }
}
