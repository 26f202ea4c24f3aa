/** The relational store the services talk to through Prisma, as in-memory
    tables. A row has an id, its other columns, and a soft-delete marker.
    A `where` object maps column names to conditions; `undefined` as a
    condition value means "no condition", as in Prisma. */
module Store {
  import opened Wrappers
  import opened Values
  import Strings
  import opened AppErrors

  datatype TableName = RoleTable | UserTable | PermissionTable | RolePermissionTable

  /** `fields` holds every column except `id` and `deletedAt`. */
  datatype Row = Row(id: nat, fields: Record, deletedAt: Option<Time>)

  predicate WellShaped(r: Row) {
    "id" !in r.fields && "deletedAt" !in r.fields
  }

  /** The rows in insertion order and the next auto-increment id. */
  datatype Table = Table(rows: seq<Row>, nextId: nat)

  /** Ids are below the counter and increase along the table, so the table
      order is ascending id order and ids are unique. */
  ghost predicate TableValid(t: Table) {
    && (forall i :: 0 <= i < |t.rows| ==> WellShaped(t.rows[i]) && t.rows[i].id < t.nextId)
    && Increasing(t.rows)
  }

  /** The value of column `key`; a column the row does not have reads as null. */
  function Column(r: Row, key: string): Value {
    if key == "id" then VNum(r.id)
    else if key == "deletedAt" then (match r.deletedAt case None => VNull case Some(t) => VTime(t))
    else if key in r.fields then r.fields[key]
    else VNull
  }

  /** The row as the plain object Prisma returns. */
  function AsObject(r: Row): Record {
    r.fields["id" := VNum(r.id)]["deletedAt" := Column(r, "deletedAt")]
  }

  /** A `where` entry: a plain value is equality (`null` is IS NULL), and
      `{ contains: s }` is a substring test on a string column. */
  datatype Cond = Equals(v: Value) | Contains(sub: string)

  type Where = map<string, Cond>

  predicate Holds(v: Value, c: Cond) {
    match c
    case Equals(x) => x == VUndefined || v == x
    case Contains(sub) => v.VStr? && Strings.Contains(v.s, sub)
  }

  predicate Matches(r: Row, w: Where) {
    forall k :: k in w ==> Holds(Column(r, k), w[k])
  }

  /** The rows that match, in table order. */
  function Select(rows: seq<Row>, w: Where): (r: seq<Row>)
    ensures |r| <= |rows|
    ensures forall x :: x in r <==> x in rows && Matches(x, w)
  {
    if |rows| == 0 then []
    else (if Matches(rows[0], w) then [rows[0]] else []) + Select(rows[1..], w)
  }

  /** `model.count({ where })` */
  function Count(rows: seq<Row>, w: Where): nat {
    |Select(rows, w)|
  }

  lemma {:induction false} CountZero(rows: seq<Row>, w: Where)
    ensures Count(rows, w) == 0 <==> forall i :: 0 <= i < |rows| ==> !Matches(rows[i], w)
  {
    if |rows| > 0 {
      CountZero(rows[1..], w);
      assert forall i :: 1 <= i < |rows| ==> rows[i] == rows[1..][i - 1];
    }
  }

  /** The rows that do not match, in table order. */
  function Reject(rows: seq<Row>, w: Where): (r: seq<Row>)
    ensures |r| <= |rows|
    ensures forall x :: x in r <==> x in rows && !Matches(x, w)
  {
    if |rows| == 0 then []
    else (if Matches(rows[0], w) then [] else [rows[0]]) + Reject(rows[1..], w)
  }

  /** The first row that matches, as `findUnique`/`findFirst` return it. */
  function FindFirst(rows: seq<Row>, w: Where): (r: Option<Row>)
    ensures r.Some? <==> exists i :: 0 <= i < |rows| && Matches(rows[i], w)
    ensures r.Some? ==> r.value in rows && Matches(r.value, w)
  {
    if |rows| == 0 then None
    else if Matches(rows[0], w) then Some(rows[0])
    else FindFirst(rows[1..], w)
  }

  /** `findUnique({ where: { id } })`: the row with that id, soft-deleted
      or not. */
  function FindById(rows: seq<Row>, id: int): (r: Option<Row>)
    ensures r.Some? <==> exists i :: 0 <= i < |rows| && rows[i].id == id
    ensures r.Some? ==> r.value in rows && r.value.id == id
  {
    if |rows| == 0 then None
    else if rows[0].id == id then Some(rows[0])
    else FindById(rows[1..], id)
  }

  /** A `deletedAt` written through `data`. */
  function DeletedAtFrom(v: Value, current: Option<Time>): Option<Time> {
    match v
    case VNull => None
    case VTime(t) => Some(t)
    case _ => current
  }

  /** The keys of `data` that an update writes to ordinary columns: Prisma
      skips `undefined` values. */
  function WrittenKeys(data: Record): set<string> {
    set k | k in data && data[k] != VUndefined && k != "id" && k != "deletedAt"
  }

  /** `data` written over a row: every non-undefined entry replaces its
      column, every other column is kept, and the id never changes. */
  function ApplyData(r: Row, data: Record): (r': Row)
    ensures r'.id == r.id
    ensures WellShaped(r) ==> WellShaped(r')
    ensures forall k :: k in WrittenKeys(data) ==> k in r'.fields && r'.fields[k] == data[k]
    ensures forall k :: k in r'.fields ==> k in r.fields || k in WrittenKeys(data)
    ensures forall k :: k in r.fields && k !in WrittenKeys(data) ==> k in r'.fields && r'.fields[k] == r.fields[k]
    ensures "deletedAt" !in data ==> r'.deletedAt == r.deletedAt
  {
    var written := WrittenKeys(data);
    var fields := map k | k in r.fields.Keys + written :: if k in written then data[k] else r.fields[k];
    Row(r.id, fields, if "deletedAt" in data then DeletedAtFrom(data["deletedAt"], r.deletedAt) else r.deletedAt)
  }

  /** The row `model.create({ data })` inserts under `id`. */
  function NewRow(id: nat, data: Record): (r: Row)
    ensures r.id == id && WellShaped(r)
  {
    ApplyData(Row(id, map[], None), data)
  }

  /** A created row holds exactly the written entries of `data` as its
      columns, and is live unless `data` sets `deletedAt` to a time. */
  lemma NewRowColumns(id: nat, data: Record)
    ensures NewRow(id, data).fields.Keys == WrittenKeys(data)
    ensures forall k :: k in WrittenKeys(data) ==> Column(NewRow(id, data), k) == data[k]
    ensures NewRow(id, data).deletedAt ==
      if "deletedAt" in data && data["deletedAt"].VTime? then Some(data["deletedAt"].t) else None
  {
  }

  /** The rows `createMany` inserts, with consecutive ids from `start`. */
  function NewRows(start: nat, items: seq<Record>): (r: seq<Row>)
    ensures |r| == |items|
    ensures forall i :: 0 <= i < |r| ==> r[i] == NewRow(start + i, items[i])
  {
    seq(|items|, i requires 0 <= i < |items| => NewRow(start + i, items[i]))
  }

  /** The table after `update({ where: { id }, data })`. */
  function UpdateRows(rows: seq<Row>, id: int, data: Record): (r: seq<Row>)
    ensures |r| == |rows|
    ensures forall i :: 0 <= i < |rows| ==> r[i] == if rows[i].id == id then ApplyData(rows[i], data) else rows[i]
  {
    seq(|rows|, i requires 0 <= i < |rows| => if rows[i].id == id then ApplyData(rows[i], data) else rows[i])
  }

  /** The table after `delete({ where: { id } })`. */
  function RemoveId(rows: seq<Row>, id: int): (r: seq<Row>)
    ensures forall x :: x in r <==> x in rows && x.id != id
  {
    if |rows| == 0 then []
    else (if rows[0].id == id then [] else [rows[0]]) + RemoveId(rows[1..], id)
  }

  /** Ids strictly increase along the sequence. */
  predicate Increasing(rows: seq<Row>) {
    forall i, j :: 0 <= i < j < |rows| ==> rows[i].id < rows[j].id
  }

  lemma ConsIncreasing(x: Row, tail: seq<Row>)
    requires Increasing(tail)
    requires forall y :: y in tail ==> x.id < y.id
    ensures Increasing([x] + tail)
  {
    var r := [x] + tail;
    forall i, j | 0 <= i < j < |r| ensures r[i].id < r[j].id {
      assert r[j] == tail[j - 1];
      if i > 0 {
        assert r[i] == tail[i - 1];
      }
    }
  }

  lemma {:induction false} SelectIncreasing(rows: seq<Row>, w: Where)
    requires Increasing(rows)
    ensures Increasing(Select(rows, w))
  {
    if |rows| > 0 {
      var tail := Select(rows[1..], w);
      SelectIncreasing(rows[1..], w);
      assert forall y :: y in tail ==> y in rows[1..];
      if Matches(rows[0], w) {
        ConsIncreasing(rows[0], tail);
      } else {
        assert Select(rows, w) == tail;
      }
    }
  }

  lemma {:induction false} RejectIncreasing(rows: seq<Row>, w: Where)
    requires Increasing(rows)
    ensures Increasing(Reject(rows, w))
  {
    if |rows| > 0 {
      var tail := Reject(rows[1..], w);
      RejectIncreasing(rows[1..], w);
      assert forall y :: y in tail ==> y in rows[1..];
      if !Matches(rows[0], w) {
        ConsIncreasing(rows[0], tail);
      } else {
        assert Reject(rows, w) == tail;
      }
    }
  }

  lemma {:induction false} RemoveIdIncreasing(rows: seq<Row>, id: int)
    requires Increasing(rows)
    ensures Increasing(RemoveId(rows, id))
  {
    if |rows| > 0 {
      var tail := RemoveId(rows[1..], id);
      RemoveIdIncreasing(rows[1..], id);
      assert forall y :: y in tail ==> y in rows[1..];
      if rows[0].id != id {
        ConsIncreasing(rows[0], tail);
      } else {
        assert RemoveId(rows, id) == tail;
      }
    }
  }

  /** Keeping some of a valid table's rows, in order, keeps it valid. */
  lemma SubTableValid(t: Table, rows: seq<Row>)
    requires TableValid(t)
    requires forall x :: x in rows ==> x in t.rows
    requires Increasing(rows)
    ensures TableValid(Table(rows, t.nextId))
  {
    forall i | 0 <= i < |rows| ensures WellShaped(rows[i]) && rows[i].id < t.nextId {
      assert rows[i] in t.rows;
      var j :| 0 <= j < |t.rows| && t.rows[j] == rows[i];
    }
  }

  /** Selecting from a concatenation selects from each part. */
  lemma {:induction false} SelectConcat(a: seq<Row>, b: seq<Row>, w: Where)
    ensures Select(a + b, w) == Select(a, w) + Select(b, w)
  {
    if |a| > 0 {
      assert (a + b)[1..] == a[1..] + b;
      SelectConcat(a[1..], b, w);
    } else {
      assert a + b == b;
    }
  }

  /** A selection keeps every row when every row matches. */
  lemma {:induction false} SelectAll(rows: seq<Row>, w: Where)
    requires forall i :: 0 <= i < |rows| ==> Matches(rows[i], w)
    ensures Select(rows, w) == rows
  {
    if |rows| > 0 {
      SelectAll(rows[1..], w);
    }
  }

  /** A selection keeps no row when no row matches. */
  lemma {:induction false} SelectNone(rows: seq<Row>, w: Where)
    requires forall i :: 0 <= i < |rows| ==> !Matches(rows[i], w)
    ensures Select(rows, w) == []
  {
    if |rows| > 0 {
      SelectNone(rows[1..], w);
    }
  }

  /** Removing the rows of `w` leaves the selection of a disjoint `v` as it
      was. */
  lemma {:induction false} SelectAfterReject(rows: seq<Row>, w: Where, v: Where)
    requires forall i :: 0 <= i < |rows| && Matches(rows[i], v) ==> !Matches(rows[i], w)
    ensures Select(Reject(rows, w), v) == Select(rows, v)
  {
    if |rows| > 0 {
      SelectAfterReject(rows[1..], w, v);
      var tail := Reject(rows[1..], w);
      if !Matches(rows[0], w) {
        assert Reject(rows, w) == [rows[0]] + tail;
        assert ([rows[0]] + tail)[1..] == tail;
      } else {
        assert Reject(rows, w) == tail;
      }
    }
  }

  /** After an update by id, looking the id up finds the updated row. */
  lemma FindAfterUpdate(rows: seq<Row>, id: int, data: Record)
    requires FindById(rows, id).Some?
    ensures FindById(UpdateRows(rows, id, data), id) == Some(ApplyData(FindById(rows, id).value, data))
  {
    FindAfterRewrite(rows, UpdateRows(rows, id, data), id, x => ApplyData(x, data));
  }

  /** Rewriting the rows of one id by an id-keeping `f`: the lookup finds
      the rewritten first row of that id. */
  lemma {:induction false} FindAfterRewrite(rows: seq<Row>, r: seq<Row>, id: int, f: Row -> Row)
    requires FindById(rows, id).Some?
    requires forall x :: f(x).id == x.id
    requires |r| == |rows|
    requires forall i :: 0 <= i < |rows| ==> r[i] == if rows[i].id == id then f(rows[i]) else rows[i]
    ensures FindById(r, id) == Some(f(FindById(rows, id).value))
  {
    if rows[0].id == id {
      assert r[0] == f(rows[0]) && r[0].id == id;
    } else {
      assert r[0] == rows[0];
      FindAfterRewrite(rows[1..], r[1..], id, f);
    }
  }

  /** A row of the table is found by its id. */
  lemma FoundById(rows: seq<Row>, x: Row)
    requires x in rows
    ensures FindById(rows, x.id).Some?
  {
    var i :| 0 <= i < |rows| && rows[i] == x;
  }

  /** The database behind the Prisma client: one table per model. */
  class Database {
    var tables: map<TableName, Table>

    ghost predicate Valid()
      reads this
    {
      forall n: TableName :: n in tables && TableValid(tables[n])
    }

    function Rows(n: TableName): seq<Row>
      reads this
      requires Valid()
    {
      tables[n].rows
    }

    constructor ()
      ensures Valid()
      ensures forall n: TableName :: tables[n] == Table([], 1)
    {
      var empty := map[RoleTable := Table([], 1), UserTable := Table([], 1),
                       PermissionTable := Table([], 1), RolePermissionTable := Table([], 1)];
      forall n: TableName ensures n in empty && empty[n] == Table([], 1) {
        match n
        case RoleTable =>
        case UserTable =>
        case PermissionTable =>
        case RolePermissionTable =>
      }
      tables := empty;
    }

    /** `model.create({ data })`: appends a row under the next id. */
    method Create(n: TableName, data: Record) returns (row: Row)
      requires Valid()
      modifies this
      ensures Valid()
      ensures row == NewRow(old(tables[n].nextId), data)
      ensures tables == old(tables)[n := Table(old(tables[n].rows) + [row], old(tables[n].nextId) + 1)]
    {
      var t := tables[n];
      row := NewRow(t.nextId, data);
      tables := tables[n := Table(t.rows + [row], t.nextId + 1)];
    }

    /** `model.createMany({ data: items })`: appends one row per item. */
    method CreateMany(n: TableName, items: seq<Record>) returns (count: nat)
      requires Valid()
      modifies this
      ensures Valid()
      ensures count == |items|
      ensures tables == old(tables)[n := Table(old(tables[n].rows) + NewRows(old(tables[n].nextId), items),
                                               old(tables[n].nextId) + |items|)]
    {
      var t := tables[n];
      var added := NewRows(t.nextId, items);
      tables := tables[n := Table(t.rows + added, t.nextId + |items|)];
      count := |items|;
    }

    /** `model.update({ where: { id }, data })`: throws when no row has the id. */
    method Update(n: TableName, id: int, data: Record) returns (r: Result<Row, Thrown>)
      requires Valid()
      modifies this
      ensures Valid()
      ensures old(FindById(tables[n].rows, id)).None? ==> r == Err(StoreError) && tables == old(tables)
      ensures old(FindById(tables[n].rows, id)).Some? ==>
        && r == Ok(ApplyData(old(FindById(tables[n].rows, id)).value, data))
        && tables == old(tables)[n := Table(UpdateRows(old(tables[n].rows), id, data), old(tables[n].nextId))]
    {
      var t := tables[n];
      var found := FindById(t.rows, id);
      if found.None? {
        return Err(StoreError);
      }
      var rows := UpdateRows(t.rows, id, data);
      assert TableValid(Table(rows, t.nextId)) by {
        assert forall i :: 0 <= i < |rows| ==> rows[i].id == t.rows[i].id;
      }
      tables := tables[n := Table(rows, t.nextId)];
      r := Ok(ApplyData(found.value, data));
    }

    /** `model.delete({ where: { id } })`: removes the row; throws when no
        row has the id. */
    method Delete(n: TableName, id: int) returns (r: Result<Row, Thrown>)
      requires Valid()
      modifies this
      ensures Valid()
      ensures old(FindById(tables[n].rows, id)).None? ==> r == Err(StoreError) && tables == old(tables)
      ensures old(FindById(tables[n].rows, id)).Some? ==>
        && r == Ok(old(FindById(tables[n].rows, id)).value)
        && tables == old(tables)[n := Table(RemoveId(old(tables[n].rows), id), old(tables[n].nextId))]
    {
      var t := tables[n];
      var found := FindById(t.rows, id);
      if found.None? {
        return Err(StoreError);
      }
      RemoveIdIncreasing(t.rows, id);
      SubTableValid(t, RemoveId(t.rows, id));
      tables := tables[n := Table(RemoveId(t.rows, id), t.nextId)];
      r := Ok(found.value);
    }

    /** `model.deleteMany({ where })`: removes every matching row. */
    method DeleteMany(n: TableName, w: Where) returns (count: nat)
      requires Valid()
      modifies this
      ensures Valid()
      ensures count == Count(old(tables[n].rows), w)
      ensures tables == old(tables)[n := Table(Reject(old(tables[n].rows), w), old(tables[n].nextId))]
    {
      var t := tables[n];
      RejectIncreasing(t.rows, w);
      SubTableValid(t, Reject(t.rows, w));
      count := Count(t.rows, w);
      tables := tables[n := Table(Reject(t.rows, w), t.nextId)];
    }
  }
}
