/** The request handlers of the backend over an in-memory copy of its
    SQLite database: `POST /api/submit-form`, the three `GET` listings,
    `DELETE /api/:type/:id` and `PUT /api/:type/:id`. */
module Server {
  import opened Wrappers
  import opened Records
  import opened Tables

  const UnknownFormPrefix := "Неизвестный тип формы: "
  const UnknownTable := "Неизвестный тип"
  const ListError := "Ошибка получения данных"
  const DeleteError := "Ошибка удаления данных"
  const Deleted := "Запись удалена"
  const Updated := "Запись обновлена"

  /** One table's share of the database invariant: its rows keep the table
      invariant, its AUTOINCREMENT counter is past every id it ever handed
      out, and every row carries an id it handed out. */
  ghost predicate TableValid(t: Table, rows: seq<Row>, nextId: nat, clock: nat, issued: set<(Table, nat)>) {
    && 1 <= nextId
    && TableInv(t, rows, nextId, clock)
    && (forall p | p in issued && p.0 == t :: 1 <= p.1 < nextId)
    && (forall i | 0 <= i < |rows| :: (t, rows[i].id) in issued)
  }

  lemma TableValidLater(t: Table, rows: seq<Row>, nextId: nat, clock: nat, issued: set<(Table, nat)>, later: nat)
    requires TableValid(t, rows, nextId, clock, issued) && clock <= later
    ensures TableValid(t, rows, nextId, later, issued)
  {
    LaterClockKeepsInv(t, rows, nextId, clock, later);
  }

  /** Inserting a row under the next id keeps its table valid, the id now
      counting as handed out. */
  lemma TableValidAppend(t: Table, rows: seq<Row>, nextId: nat, clock: nat, issued: set<(Table, nat)>, row: Row)
    requires TableValid(t, rows, nextId, clock, issued)
    requires TableOf(row) == t && row.id == nextId && row.createdAt <= clock
    ensures TableValid(t, rows + [row], nextId + 1, clock, issued + {(t, row.id)})
  {
    AppendKeepsInv(t, rows, nextId, clock, row);
    var after := rows + [row];
    forall i | 0 <= i < |after| ensures (t, after[i].id) in issued + {(t, row.id)} {
      if i < |rows| {
        assert after[i] == rows[i];
      }
    }
  }

  /** An id handed out by another table does not concern this one. */
  lemma TableValidOther(u: Table, rows: seq<Row>, nextId: nat, clock: nat, issued: set<(Table, nat)>, t: Table, id: nat)
    requires TableValid(u, rows, nextId, clock, issued) && u != t
    ensures TableValid(u, rows, nextId, clock, issued + {(t, id)})
  {
  }

  lemma TableValidWithout(t: Table, rows: seq<Row>, nextId: nat, clock: nat, issued: set<(Table, nat)>, id: int)
    requires TableValid(t, rows, nextId, clock, issued)
    ensures TableValid(t, Without(rows, id), nextId, clock, issued)
  {
    WithoutKeepsInv(t, rows, nextId, clock, id);
    var kept := Without(rows, id);
    forall i | 0 <= i < |kept| ensures (t, kept[i].id) in issued {
      assert kept[i] in rows;
    }
  }

  lemma TableValidOverwritten(t: Table, rows: seq<Row>, nextId: nat, clock: nat, issued: set<(Table, nat)>, id: int, body: UpdateBody)
    requires TableValid(t, rows, nextId, clock, issued)
    requires HasId(rows, id) ==> Updatable(t, body)
    ensures TableValid(t, Overwritten(t, rows, id, body), nextId, clock, issued)
  {
    OverwrittenKeepsInv(t, rows, nextId, clock, id, body);
  }

  /** The database: the three tables in row order, the AUTOINCREMENT
      counter of each (one more than the largest id it ever handed out, as
      kept in `sqlite_sequence`), and the clock read by `CURRENT_TIMESTAMP`.
      `issued` records every (table, id) ever assigned, deleted or not. */
  class Store {
    var bookings: seq<Row>
    var reviews: seq<Row>
    var investments: seq<Row>
    var nextBookingId: nat
    var nextReviewId: nat
    var nextInvestmentId: nat
    var clock: nat
    ghost var issued: set<(Table, nat)>

    function Rows(t: Table): seq<Row>
      reads this`bookings, this`reviews, this`investments
    {
      match t
      case Bookings => bookings
      case Reviews => reviews
      case Investments => investments
    }

    function NextId(t: Table): nat
      reads this`nextBookingId, this`nextReviewId, this`nextInvestmentId
    {
      match t
      case Bookings => nextBookingId
      case Reviews => nextReviewId
      case Investments => nextInvestmentId
    }

    ghost predicate Valid()
      reads this
    {
      forall t: Table :: TableValid(t, Rows(t), NextId(t), clock, issued)
    }

    /** Opening an empty database: `initDatabase` creates the three tables. */
    constructor ()
      ensures Valid()
      ensures forall t :: Rows(t) == [] && NextId(t) == 1
      ensures clock == 0 && issued == {}
    {
      bookings, reviews, investments := [], [], [];
      nextBookingId, nextReviewId, nextInvestmentId := 1, 1, 1;
      clock := 0;
      issued := {};
      new;
      assert forall t: Table :: Rows(t) == [] && NextId(t) == 1;
      assert forall t: Table :: TableValid(t, [], 1, 0, {});
    }

    /** Time passing between requests; `CURRENT_TIMESTAMP` never goes back. */
    method Tick(seconds: nat)
      requires Valid()
      modifies this`clock
      ensures Valid()
      ensures clock == old(clock) + seconds
    {
      forall u: Table ensures TableValid(u, Rows(u), NextId(u), clock + seconds, issued) {
        TableValidLater(u, Rows(u), NextId(u), clock, issued, clock + seconds);
      }
      clock := clock + seconds;
    }

    /** Replaces the rows of table `t`, leaving everything else alone. */
    method SetRows(t: Table, rows: seq<Row>)
      modifies this
      ensures Rows(t) == rows
      ensures forall u :: u != t ==> Rows(u) == old(Rows(u))
      ensures forall u :: NextId(u) == old(NextId(u))
      ensures clock == old(clock) && issued == old(issued)
    {
      match t
      case Bookings => bookings := rows;
      case Reviews => reviews := rows;
      case Investments => investments := rows;
    }

    /** Moves the AUTOINCREMENT counter of table `t` past its last id. */
    method BumpNextId(t: Table)
      modifies this
      ensures NextId(t) == old(NextId(t)) + 1
      ensures forall u :: u != t ==> NextId(u) == old(NextId(u))
      ensures forall u :: Rows(u) == old(Rows(u))
      ensures clock == old(clock) && issued == old(issued)
    {
      match t {
        case Bookings => nextBookingId := nextBookingId + 1;
        case Reviews => nextReviewId := nextReviewId + 1;
        case Investments => nextInvestmentId := nextInvestmentId + 1;
      }
    }

    /** The INSERT itself: `row`, stamped with the next AUTOINCREMENT id of
        table `t`, goes at the end of the table and the counter moves on. */
    method Append(t: Table, row: Row)
      requires Valid()
      requires TableOf(row) == t && row.id == NextId(t) && row.createdAt <= clock
      modifies this
      ensures Valid()
      ensures Rows(t) == old(Rows(t)) + [row] && NextId(t) == old(NextId(t)) + 1
      ensures forall u :: u != t ==> Rows(u) == old(Rows(u)) && NextId(u) == old(NextId(u))
      ensures clock == old(clock) && issued == old(issued) + {(t, row.id)}
    {
      var rowsBefore := Rows(t);
      ghost var issuedAfter := issued + {(t, row.id)};
      TableValidAppend(t, rowsBefore, NextId(t), clock, issued, row);
      forall u | u != t ensures TableValid(u, Rows(u), NextId(u), clock, issuedAfter) {
        TableValidOther(u, Rows(u), NextId(u), clock, issued, t, row.id);
      }
      SetRows(t, rowsBefore + [row]);
      BumpNextId(t);
      issued := issuedAfter;
    }

    /** `POST /api/submit-form`: a known `type` inserts one row into its
        table under the next AUTOINCREMENT id and answers with that id; an
        unknown `type` is refused with 400 and writes nothing; a failing
        INSERT answers 500 and writes nothing. */
    method SubmitForm(body: SubmitBody, fault: Fault) returns (reply: Reply)
      requires Valid()
      modifies this
      ensures Valid()
      ensures WellFormed(reply)
      ensures FormTable(body.formType).None? ==>
                reply == Reply(400, Failed(UnknownFormPrefix + TypeText(body.formType)))
                && unchanged(this)
      ensures FormTable(body.formType).Some? ==>
                var t := FormTable(body.formType).value;
                match InsertFailure(t, body, fault)
                case Some(err) => reply == Reply(500, Failed(err)) && unchanged(this)
                case None =>
                  var id := old(NextId(t));
                  && reply == Reply(200, Created(id))
                  && Rows(t) == old(Rows(t)) + [NewRow(t, body, id, clock)]
                  && NextId(t) == id + 1
                  && (forall u :: u != t ==> Rows(u) == old(Rows(u)) && NextId(u) == old(NextId(u)))
                  && clock == old(clock)
                  && issued == old(issued) + {(t, id)}
                  && (forall p | p in old(issued) && p.0 == t :: p.1 < id)
    {
      var target := FormTable(body.formType);
      if target.None? {
        reply := Reply(400, Failed(UnknownFormPrefix + TypeText(body.formType)));
        return;
      }
      var t := target.value;
      var failure := InsertFailure(t, body, fault);
      if failure.Some? {
        reply := Reply(500, Failed(failure.value));
        return;
      }
      var id := NextId(t);
      Append(t, NewRow(t, body, id, clock));
      reply := Reply(200, Created(id));
    }

    /** `GET /api/bookings`, `/api/reviews`, `/api/investments`: every row
        of the table, newest first, or 500 when the query fails. */
    method List(t: Table, dbError: bool) returns (reply: Reply)
      ensures WellFormed(reply)
      ensures dbError ==> reply == Reply(500, Failed(ListError))
      ensures !dbError ==>
                && reply.status == 200 && reply.body.Listed?
                && multiset(reply.body.data) == multiset(Rows(t))
                && NewestFirst(reply.body.data)
    {
      if dbError {
        reply := Reply(500, Failed(ListError));
      } else {
        SortNewestFirstCounts(Rows(t));
        reply := Reply(200, Listed(SortNewestFirst(Rows(t))));
      }
    }

    /** `DELETE /api/:type/:id`: removes the row with that id, if there is
        one, and answers success either way. */
    method Delete(segment: string, id: int, dbError: bool) returns (reply: Reply)
      requires Valid()
      modifies this
      ensures Valid()
      ensures WellFormed(reply)
      ensures PathTable(segment).None? ==>
                reply == Reply(400, Failed(UnknownTable)) && unchanged(this)
      ensures PathTable(segment).Some? && dbError ==>
                reply == Reply(500, Failed(DeleteError)) && unchanged(this)
      ensures PathTable(segment).Some? && !dbError ==>
                var t := PathTable(segment).value;
                && reply == Reply(200, Done(Deleted))
                && Rows(t) == Without(old(Rows(t)), id)
                && (forall u :: u != t ==> Rows(u) == old(Rows(u)))
                && (forall u :: NextId(u) == old(NextId(u)))
                && clock == old(clock) && issued == old(issued)
    {
      var target := PathTable(segment);
      if target.None? {
        reply := Reply(400, Failed(UnknownTable));
        return;
      }
      if dbError {
        reply := Reply(500, Failed(DeleteError));
        return;
      }
      var t := target.value;
      TableValidWithout(t, Rows(t), NextId(t), clock, issued, id);
      SetRows(t, Without(Rows(t), id));
      reply := Reply(200, Done(Deleted));
    }

    /** `PUT /api/:type/:id`: overwrites the listed columns of the row with
        that id, if there is one, and answers success either way. */
    method Update(segment: string, id: int, body: UpdateBody, fault: Fault) returns (reply: Reply)
      requires Valid()
      modifies this
      ensures Valid()
      ensures WellFormed(reply)
      ensures PathTable(segment).None? ==>
                reply == Reply(400, Failed(UnknownTable)) && unchanged(this)
      ensures PathTable(segment).Some? ==>
                var t := PathTable(segment).value;
                match UpdateFailure(t, old(Rows(t)), id, body, fault)
                case Some(err) => reply == Reply(500, Failed(err)) && unchanged(this)
                case None =>
                  && reply == Reply(200, Done(Updated))
                  && Rows(t) == Overwritten(t, old(Rows(t)), id, body)
                  && (forall u :: u != t ==> Rows(u) == old(Rows(u)))
                  && (forall u :: NextId(u) == old(NextId(u)))
                  && clock == old(clock) && issued == old(issued)
    {
      var target := PathTable(segment);
      if target.None? {
        reply := Reply(400, Failed(UnknownTable));
        return;
      }
      var t := target.value;
      var failure := UpdateFailure(t, Rows(t), id, body, fault);
      if failure.Some? {
        reply := Reply(500, Failed(failure.value));
        return;
      }
      TableValidOverwritten(t, Rows(t), NextId(t), clock, issued, id, body);
      SetRows(t, Overwritten(t, Rows(t), id, body));
      reply := Reply(200, Done(Updated));
    }
  }

  /** A review submitted to an empty database gets id 1 and is then the
      only row the reviews listing returns. */
  method ReviewScenario() returns (created: Reply, data: seq<Row>)
    ensures created == Reply(200, Created(1))
    ensures data == [ReviewRow(1, "Анна", "a@b.ru", "Очень хорошо", "T", 0)]
  {
    var store := new Store();
    var body := SubmitBody(Some("review"), None, Some("Анна"), None, Some("a@b.ru"),
                           None, None, false, None, Some("Очень хорошо"), Some("T"));
    var row := ReviewRow(1, "Анна", "a@b.ru", "Очень хорошо", "T", 0);
    assert FormTable(body.formType) == Some(Reviews);
    assert InsertFailure(Reviews, body, NoFault) == None;
    assert NewRow(Reviews, body, 1, 0) == row;
    created := store.SubmitForm(body, NoFault);
    assert store.Rows(Reviews) == [row];
    var listing := store.List(Reviews, false);
    data := listing.body.data;
    assert |data| == |multiset(data)| == 1;
    assert data[0] in multiset(data);
  }
}
