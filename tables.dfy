/** What the SQL statements of the backend do to a table, as functions on
    sequences of rows: INSERT with its NOT NULL constraints, DELETE and
    UPDATE by id, and SELECT ... ORDER BY created_at DESC. */
module Tables {
  import opened Wrappers
  import opened Records

  /** What the database driver does when a statement runs: nothing goes
      wrong, the statement's callback gets an error with this message, or
      the call throws this message synchronously. */
  datatype Fault = NoFault | DriverError(message: string) | Thrown(message: string)

  const SavePrefix := "Ошибка сохранения данных: "
  const InternalPrefix := "Внутренняя ошибка сервера: "
  const InternalError := "Внутренняя ошибка сервера"
  const UpdateError := "Ошибка обновления данных"

  /** The invariant of one table: every row belongs in it, ids are at least
      1, below the next AUTOINCREMENT value and strictly increasing in row
      order (so unique), and no row was created after the current time. */
  predicate TableInv(t: Table, rows: seq<Row>, nextId: nat, clock: nat) {
    && (forall i :: 0 <= i < |rows| ==>
          TableOf(rows[i]) == t && 1 <= rows[i].id < nextId && rows[i].createdAt <= clock)
    && IdsIncreasing(rows)
  }

  /** Time passing keeps the invariant: no row is created in the future. */
  lemma LaterClockKeepsInv(t: Table, rows: seq<Row>, nextId: nat, clock: nat, later: nat)
    requires TableInv(t, rows, nextId, clock) && clock <= later
    ensures TableInv(t, rows, nextId, later)
  {
  }

  predicate IdsIncreasing(rows: seq<Row>) {
    forall i, j :: 0 <= i < j < |rows| ==> rows[i].id < rows[j].id
  }

  predicate HasId(rows: seq<Row>, id: int) {
    exists i :: 0 <= i < |rows| && rows[i].id == id
  }

  // --------------------------------------------------------------- insert

  /** The first `NOT NULL` column, in schema order, that an INSERT from this
      body would set to null. */
  function MissingColumn(t: Table, body: SubmitBody): Option<string> {
    match t
    case Bookings =>
      if body.name.None? then Some("name")
      else if body.phone.None? then Some("phone")
      else if body.email.None? then Some("email")
      else if body.timestamp.None? then Some("timestamp")
      else None
    case Reviews =>
      if body.name.None? then Some("name")
      else if body.email.None? then Some("email")
      else if body.text.None? then Some("text")
      else if body.timestamp.None? then Some("timestamp")
      else None
    case Investments =>
      if body.name.None? then Some("name")
      else if body.phone.None? then Some("phone")
      else if body.timestamp.None? then Some("timestamp")
      else None
  }

  /** The INSERT for table `t` sets no `NOT NULL` column to null. */
  predicate Storable(t: Table, body: SubmitBody) {
    MissingColumn(t, body).None?
  }

  /** The error an INSERT into `t` ends in, if any: the driver's own error,
      a thrown exception, or the SQLite constraint error for a null in a
      `NOT NULL` column. */
  function InsertFailure(t: Table, body: SubmitBody, fault: Fault): (err: Option<string>)
    ensures err.Some? ==> err.value != ""
    ensures fault.NoFault? ==> (err.None? <==> Storable(t, body))
    ensures fault.DriverError? ==> err == Some(SavePrefix + fault.message)
    ensures fault.Thrown? ==> err == Some(InternalPrefix + fault.message)
  {
    match fault
    case Thrown(m) => Some(InternalPrefix + m)
    case DriverError(m) => Some(SavePrefix + m)
    case NoFault =>
      match MissingColumn(t, body)
      case Some(col) =>
        Some(SavePrefix + "SQLITE_CONSTRAINT: NOT NULL constraint failed: " + TableName(t) + "." + col)
      case None => None
  }

  /** The row an INSERT from `body` adds to table `t`. */
  function NewRow(t: Table, body: SubmitBody, id: nat, createdAt: nat): (r: Row)
    requires Storable(t, body)
    ensures TableOf(r) == t && r.id == id && r.createdAt == createdAt
    ensures r.timestamp == body.timestamp.value && r.name == body.name.value
    ensures r.BookingRow? ==>
              && r.kind == FormTypeName(Bookings)
              && r.bookingType == body.bookingType
              && r.phone == body.phone.value && r.email == body.email.value
              && r.checkIn == body.checkIn && r.checkOut == body.checkOut
              && (if body.bathhouse then r.bathhouse == 1 else r.bathhouse == 0)
              && r.message == OrEmpty(body.message)
    ensures r.ReviewRow? ==> r.email == body.email.value && r.text == body.text.value
    ensures r.InvestmentRow? ==> r.phone == body.phone.value
  {
    match t
    case Bookings =>
      BookingRow(id, "booking", body.bookingType, body.name.value, body.phone.value,
                 body.email.value, body.checkIn, body.checkOut,
                 if body.bathhouse then 1 else 0, OrEmpty(body.message),
                 body.timestamp.value, createdAt)
    case Reviews =>
      ReviewRow(id, body.name.value, body.email.value, body.text.value,
                body.timestamp.value, createdAt)
    case Investments =>
      InvestmentRow(id, body.name.value, body.phone.value, body.timestamp.value, createdAt)
  }

  /** Appending a row with the next AUTOINCREMENT id keeps the invariant
      once the counter moves past it; the new id is larger than every id
      in the table. */
  lemma AppendKeepsInv(t: Table, rows: seq<Row>, nextId: nat, clock: nat, r: Row)
    requires TableInv(t, rows, nextId, clock)
    requires TableOf(r) == t && r.id == nextId && 1 <= nextId && r.createdAt <= clock
    ensures TableInv(t, rows + [r], nextId + 1, clock)
    ensures forall i :: 0 <= i < |rows| ==> rows[i].id < r.id
  {
  }

  // --------------------------------------------------------------- delete

  /** `DELETE FROM t WHERE id = ?`: the rows whose id is not `id`, in
      their order. */
  function Without(rows: seq<Row>, id: int): (r: seq<Row>)
    ensures forall x :: x in r <==> x in rows && x.id != id
    ensures |r| <= |rows|
    ensures !HasId(rows, id) ==> r == rows
  {
    if rows == [] then []
    else
      assert HasId(rows[1..], id) ==> HasId(rows, id) by {
        if HasId(rows[1..], id) {
          var k :| 0 <= k < |rows[1..]| && rows[1..][k].id == id;
          assert rows[k + 1].id == id;
        }
      }
      if rows[0].id == id then
        assert HasId(rows, id);
        Without(rows[1..], id)
      else
        assert rows == [rows[0]] + rows[1..];
        [rows[0]] + Without(rows[1..], id)
  }

  lemma TailIncreasing(rows: seq<Row>)
    requires rows != [] && IdsIncreasing(rows)
    ensures IdsIncreasing(rows[1..])
    ensures forall x :: x in rows[1..] ==> rows[0].id < x.id
  {
    var tail := rows[1..];
    forall i, j | 0 <= i < j < |tail| ensures tail[i].id < tail[j].id {
      assert tail[i] == rows[i + 1] && tail[j] == rows[j + 1];
    }
  }

  /** With increasing ids, deleting keeps the rows in increasing order. */
  lemma {:induction false} WithoutIncreasing(rows: seq<Row>, id: int)
    requires IdsIncreasing(rows)
    ensures IdsIncreasing(Without(rows, id))
  {
    if rows != [] {
      TailIncreasing(rows);
      WithoutIncreasing(rows[1..], id);
      if rows[0].id != id {
        var rest := Without(rows[1..], id);
        var r := [rows[0]] + rest;
        forall k | 0 <= k < |rest| ensures rows[0].id < rest[k].id {
          assert rest[k] in rest;
        }
        forall i, j | 0 <= i < j < |r| ensures r[i].id < r[j].id {
          assert r[j] == rest[j - 1];
          if i > 0 { assert r[i] == rest[i - 1]; }
        }
      }
    }
  }

  /** With unique ids, deleting an id that is present removes exactly one
      row. */
  lemma {:induction false} WithoutRemovesOne(rows: seq<Row>, id: int)
    requires IdsIncreasing(rows) && HasId(rows, id)
    ensures |Without(rows, id)| == |rows| - 1
  {
    TailIncreasing(rows);
    var tail := rows[1..];
    var k :| 0 <= k < |rows| && rows[k].id == id;
    if k == 0 {
      assert forall m :: 0 <= m < |tail| ==> tail[m] in tail;
    } else {
      assert tail[k - 1].id == id;
      WithoutRemovesOne(tail, id);
    }
  }

  /** Deleting keeps the table invariant and removes at most one row. */
  lemma WithoutKeepsInv(t: Table, rows: seq<Row>, nextId: nat, clock: nat, id: int)
    requires TableInv(t, rows, nextId, clock)
    ensures TableInv(t, Without(rows, id), nextId, clock)
    ensures |Without(rows, id)| >= |rows| - 1
  {
    WithoutIncreasing(rows, id);
    if HasId(rows, id) { WithoutRemovesOne(rows, id); }
    var r := Without(rows, id);
    forall i | 0 <= i < |r|
      ensures TableOf(r[i]) == t && 1 <= r[i].id < nextId && r[i].createdAt <= clock
    {
      assert r[i] in rows;
    }
  }

  // --------------------------------------------------------------- update

  /** The UPDATE for table `t` sets no `NOT NULL` column to null. */
  predicate Updatable(t: Table, body: UpdateBody) {
    match t
    case Bookings => body.name.Some? && body.phone.Some? && body.email.Some?
    case Reviews => body.name.Some? && body.email.Some? && body.text.Some?
    case Investments => body.name.Some? && body.phone.Some?
  }

  /** One row after the UPDATE of its table: the columns the statement
      lists take the body's values; `id`, `type`, `timestamp` and
      `created_at` keep theirs. */
  function Patched(r: Row, body: UpdateBody): (p: Row)
    requires Updatable(TableOf(r), body)
    ensures TableOf(p) == TableOf(r) && p.id == r.id
    ensures p.timestamp == r.timestamp && p.createdAt == r.createdAt
    ensures p.name == body.name.value
    ensures p.BookingRow? ==>
              && p.kind == r.kind && p.bookingType == body.bookingType
              && p.phone == body.phone.value && p.email == body.email.value
              && p.checkIn == body.checkIn && p.checkOut == body.checkOut
              && (if body.bathhouse then p.bathhouse == 1 else p.bathhouse == 0)
              && p.message == OrEmpty(body.message)
    ensures p.ReviewRow? ==> p.email == body.email.value && p.text == body.text.value
    ensures p.InvestmentRow? ==> p.phone == body.phone.value
  {
    match r
    case BookingRow(id, kind, _, _, _, _, _, _, _, _, timestamp, createdAt) =>
      BookingRow(id, kind, body.bookingType, body.name.value, body.phone.value,
                 body.email.value, body.checkIn, body.checkOut,
                 if body.bathhouse then 1 else 0, OrEmpty(body.message), timestamp, createdAt)
    case ReviewRow(id, _, _, _, timestamp, createdAt) =>
      ReviewRow(id, body.name.value, body.email.value, body.text.value, timestamp, createdAt)
    case InvestmentRow(id, _, _, timestamp, createdAt) =>
      InvestmentRow(id, body.name.value, body.phone.value, timestamp, createdAt)
  }

  /** `UPDATE t SET ... WHERE id = ?` on a table whose rows all belong in
      `t`: the row with that id is patched, every other row is untouched. */
  function Overwritten(t: Table, rows: seq<Row>, id: int, body: UpdateBody): (r: seq<Row>)
    requires forall i :: 0 <= i < |rows| ==> TableOf(rows[i]) == t
    requires HasId(rows, id) ==> Updatable(t, body)
    ensures |r| == |rows|
    ensures forall i :: 0 <= i < |rows| && rows[i].id != id ==> r[i] == rows[i]
    ensures forall i :: 0 <= i < |rows| && rows[i].id == id ==> r[i] == Patched(rows[i], body)
  {
    if rows == [] then []
    else
      assert rows[0].id == id ==> HasId(rows, id);
      assert HasId(rows[1..], id) ==> HasId(rows, id) by {
        if HasId(rows[1..], id) {
          var k :| 0 <= k < |rows[1..]| && rows[1..][k].id == id;
          assert rows[k + 1].id == id;
        }
      }
      var head := if rows[0].id == id then Patched(rows[0], body) else rows[0];
      [head] + Overwritten(t, rows[1..], id, body)
  }

  /** Updating keeps the table invariant, and keeps every row's id, table,
      timestamp and creation time. */
  lemma OverwrittenKeepsInv(t: Table, rows: seq<Row>, nextId: nat, clock: nat, id: int, body: UpdateBody)
    requires TableInv(t, rows, nextId, clock)
    requires HasId(rows, id) ==> Updatable(t, body)
    ensures var r := Overwritten(t, rows, id, body);
            && TableInv(t, r, nextId, clock)
            && forall i :: 0 <= i < |rows| ==>
                 r[i].id == rows[i].id && r[i].timestamp == rows[i].timestamp
                 && r[i].createdAt == rows[i].createdAt
  {
  }

  /** The error an UPDATE of the row `id` ends in, if any. A null in a
      `NOT NULL` column only fails when some row has that id. */
  function UpdateFailure(t: Table, rows: seq<Row>, id: int, body: UpdateBody, fault: Fault): (err: Option<string>)
    ensures fault.Thrown? ==> err == Some(InternalError)
    ensures fault.DriverError? ==> err == Some(UpdateError)
    ensures fault.NoFault? ==> (err.None? <==> (HasId(rows, id) ==> Updatable(t, body)))
    ensures err.Some? ==> err.value != ""
  {
    match fault
    case Thrown(_) => Some(InternalError)
    case DriverError(_) => Some(UpdateError)
    case NoFault => if HasId(rows, id) && !Updatable(t, body) then Some(UpdateError) else None
  }

  // ----------------------------------------------------------------- list

  /** Ordered by `created_at` from newest to oldest; rows created in the
      same second may come in either order. */
  predicate NewestFirst(rows: seq<Row>) {
    forall i, j :: 0 <= i < j < |rows| ==> rows[i].createdAt >= rows[j].createdAt
  }

  /** Dropping the newest row keeps the rest newest first. */
  lemma NewestFirstTail(rows: seq<Row>)
    requires rows != [] && NewestFirst(rows)
    ensures NewestFirst(rows[1..])
  {
    var tail := rows[1..];
    forall i, j | 0 <= i < j < |tail| ensures tail[i].createdAt >= tail[j].createdAt {
      assert tail[i] == rows[i + 1] && tail[j] == rows[j + 1];
    }
  }

  /** One insertion step: `x` goes in front of the first row that is not
      newer than it. */
  function InsertNewestFirst(x: Row, rows: seq<Row>): (r: seq<Row>)
    requires NewestFirst(rows)
    ensures NewestFirst(r)
    ensures |r| == |rows| + 1 && (r[0] == x || (rows != [] && r[0] == rows[0]))
  {
    if rows == [] || x.createdAt >= rows[0].createdAt then
      [x] + rows
    else
      NewestFirstTail(rows);
      var rest := InsertNewestFirst(x, rows[1..]);
      var r := [rows[0]] + rest;
      assert rows[0].createdAt >= rest[0].createdAt;
      forall i, j | 0 <= i < j < |r| ensures r[i].createdAt >= r[j].createdAt {
        assert r[j] == rest[j - 1];
        if i > 0 {
          assert r[i] == rest[i - 1];
        }
      }
      r
  }

  /** Inserting adds `x` once and keeps every other row as often as it was. */
  lemma {:induction false} InsertNewestFirstCounts(x: Row, rows: seq<Row>)
    requires NewestFirst(rows)
    ensures multiset(InsertNewestFirst(x, rows)) == multiset(rows) + multiset{x}
  {
    if rows != [] && x.createdAt < rows[0].createdAt {
      NewestFirstTail(rows);
      assert rows == [rows[0]] + rows[1..];
      calc {
        multiset(InsertNewestFirst(x, rows));
        multiset([rows[0]] + InsertNewestFirst(x, rows[1..]));
        multiset{rows[0]} + multiset(InsertNewestFirst(x, rows[1..]));
        { InsertNewestFirstCounts(x, rows[1..]); }
        multiset{rows[0]} + multiset(rows[1..]) + multiset{x};
        multiset(rows) + multiset{x};
      }
    }
  }

  /** `SELECT * FROM t ORDER BY created_at DESC`: the rows, newest first. */
  function SortNewestFirst(rows: seq<Row>): (r: seq<Row>)
    ensures NewestFirst(r)
    ensures |r| == |rows|
  {
    if rows == [] then []
    else InsertNewestFirst(rows[0], SortNewestFirst(rows[1..]))
  }

  /** The listing holds every row of the table, each as often as in the
      table, and nothing else. */
  lemma {:induction false} SortNewestFirstCounts(rows: seq<Row>)
    ensures multiset(SortNewestFirst(rows)) == multiset(rows)
  {
    if rows != [] {
      var sortedTail := SortNewestFirst(rows[1..]);
      assert rows == [rows[0]] + rows[1..];
      calc {
        multiset(SortNewestFirst(rows));
        multiset(InsertNewestFirst(rows[0], sortedTail));
        { InsertNewestFirstCounts(rows[0], sortedTail); }
        multiset(sortedTail) + multiset{rows[0]};
        { SortNewestFirstCounts(rows[1..]); }
        multiset(rows[1..]) + multiset{rows[0]};
        multiset(rows);
      }
    }
  }
}
