/**
 * The five `/api/sensor-data` routes of cleansmrs_api/routes.py over one
 * `SensorData` table, with SQLAlchemy's unit of work made explicit: a route
 * stages its changes in `session`, and one commit either publishes them to
 * `table` or rolls `session` back to it.
 */
module Store {
  import opened Wrappers
  import opened Schema
  import opened Queries

  const OK := 200
  const CREATED := 201
  const BAD_REQUEST := 400
  const NOT_FOUND := 404
  const SERVER_ERROR := 500

  /** Why a request failed; stands for the error message of the JSON reply. */
  datatype Reason = MissingFields | BadTimestamp | BadDate | NoMatch | StorageError

  datatype Payload =
    | Added(date: Date)
    | Listing(rows: seq<Row>)
    | Edited(date: Date)
    | Removed
    | Problem(reason: Reason)

  datatype Response = Response(status: int, payload: Payload)

  class SensorStore {
    /** The committed rows, in rowid order. */
    var table: seq<Reading>
    /** The rows as the open session sees them, staged changes included. */
    var session: seq<Reading>

    /**
     * `datetime.fromisoformat(f"{date}T{time} {time_zone_offset}")` on the three
     * body values (None where the value is a JSON null); None when it raises.
     */
    const combine: (Option<Value>, Option<Value>, Option<Value>) -> Option<Timestamp>
    /** `datetime.strptime(text, '%Y%m%d').date()`; None when it raises. */
    const parseDate: string -> Option<Date>

    /** Between requests nothing is staged and the table keeps its constraints. */
    ghost predicate Valid()
      reads this
    {
      session == table && TableInvariant(table)
    }

    constructor (combine: (Option<Value>, Option<Value>, Option<Value>) -> Option<Timestamp>,
                 parseDate: string -> Option<Date>)
      ensures Valid() && table == []
      ensures this.combine == combine && this.parseDate == parseDate
    {
      this.combine := combine;
      this.parseDate := parseDate;
      table := [];
      session := [];
    }

    /**
     * `db.session.commit()`, with `db.session.rollback()` when it raises: it
     * fails on a storage error or when a staged row breaks a NOT NULL column,
     * and then the table is exactly what it was.
     */
    method CommitOrRollback(storageFails: bool) returns (ok: bool)
      requires IdsAscending(session) && TableInvariant(table)
      modifies this
      ensures ok == (!storageFails && AllNotNull(old(session)))
      ensures table == if ok then old(session) else old(table)
      ensures Valid()
    {
      ok := !storageFails && AllNotNull(session);
      if ok {
        table := session;
      } else {
        session := table;
      }
    }

    /** POST /api/sensor-data. */
    method Create(body: Option<Body>, storageFails: bool) returns (resp: Response)
      requires Valid()
      modifies this
      ensures Valid()
      ensures !HasRequired(body) ==>
        resp == Response(BAD_REQUEST, Problem(MissingFields)) && table == old(table)
      ensures HasRequired(body) ==>
        var data := body.value;
        match combine(data["date"], data["time"], data["time_zone_offset"])
        case None =>
          resp == Response(BAD_REQUEST, Problem(BadTimestamp)) && table == old(table)
        case Some(ts) =>
          var row := FromBody(NextId(old(table)), ts, data);
          if storageFails || row.coordinates.None? then
            resp == Response(SERVER_ERROR, Problem(StorageError)) && table == old(table)
          else
            resp == Response(CREATED, Added(ts.date)) && table == old(table) + [row]
    {
      if !HasRequired(body) {
        return Response(BAD_REQUEST, Problem(MissingFields));
      }
      var data := body.value;
      HasRequiredKeys(body);
      var stamp := combine(data["date"], data["time"], data["time_zone_offset"]);
      if stamp.None? {
        return Response(BAD_REQUEST, Problem(BadTimestamp));
      }
      var row := FromBody(NextId(session), stamp.value, data);
      AppendNextId(session, row);
      session := session + [row];
      var ok := CommitOrRollback(storageFails);
      if !ok {
        assert row in old(table) + [row];
        return Response(SERVER_ERROR, Problem(StorageError));
      }
      assert row in table;
      resp := Response(CREATED, Added(row.timestamp.date));
    }

    /** GET /api/sensor-data: every row, in table order; an empty table gives an empty list. */
    function List(): (resp: Response)
      reads this
      ensures resp.status == OK && resp.payload.Listing?
      ensures |resp.payload.rows| == |table|
      ensures forall i :: 0 <= i < |table| ==>
        resp.payload.rows[i] == Serialize(table[i]) && resp.payload.rows[i].date == table[i].timestamp.date
    {
      Response(OK, Listing(Rows(table)))
    }

    /** GET /api/sensor-data/<date>. */
    function FindByDate(text: string): (resp: Response)
      reads this
      ensures parseDate(text).None? ==> resp == Response(BAD_REQUEST, Problem(BadDate))
      ensures parseDate(text).Some? ==>
        var d := parseDate(text).value;
        && (resp.status == NOT_FOUND <==> forall r :: r in table ==> !Matches(r, d))
        && (resp.status == NOT_FOUND ==> resp.payload == Problem(NoMatch))
        && (resp.status != NOT_FOUND ==>
              resp.status == OK && resp.payload == Listing(RowsDated(List().payload.rows, d)))
    {
      match parseDate(text)
      case None => Response(BAD_REQUEST, Problem(BadDate))
      case Some(d) =>
        var found := Select(table, d);
        if found == [] then
          assert forall r :: r in table ==> !Matches(r, d) by {
            forall r | r in table ensures !Matches(r, d) { assert r !in found; }
          }
          Response(NOT_FOUND, Problem(NoMatch))
        else
          SelectIsFilteredListing(table, d);
          assert found[0] in table && Matches(found[0], d);
          Response(OK, Listing(Rows(found)))
    }

    /** DELETE /api/sensor-data/<date>: every row of that day goes, in one commit. */
    method DeleteByDate(text: string, storageFails: bool) returns (resp: Response)
      requires Valid()
      modifies this
      ensures Valid()
      ensures parseDate(text).None? ==>
        resp == Response(BAD_REQUEST, Problem(BadDate)) && table == old(table)
      ensures parseDate(text).Some? ==>
        var d := parseDate(text).value;
        if forall r :: r in old(table) ==> !Matches(r, d) then
          resp == Response(NOT_FOUND, Problem(NoMatch)) && table == old(table)
        else if storageFails then
          resp == Response(SERVER_ERROR, Problem(StorageError)) && table == old(table)
        else
          resp == Response(OK, Removed) && table == Reject(old(table), d)
    {
      var parsed := parseDate(text);
      if parsed.None? {
        return Response(BAD_REQUEST, Problem(BadDate));
      }
      var d := parsed.value;
      var doomed := Select(session, d);
      if doomed == [] {
        assert forall r :: r in table ==> !Matches(r, d) by {
          forall r | r in table ensures !Matches(r, d) { assert r !in doomed; }
        }
        return Response(NOT_FOUND, Problem(NoMatch));
      }
      assert doomed[0] in table && Matches(doomed[0], d);
      session := StageDeletes(session, doomed);
      DeleteSelectedIsReject(table, d);
      var ok := CommitOrRollback(storageFails);
      if !ok {
        return Response(SERVER_ERROR, Problem(StorageError));
      }
      resp := Response(OK, Removed);
    }

    /**
     * PUT /api/sensor-data/<date>: the first row of that day gets every column
     * the body names; the id, the timestamp and all other rows stay.
     */
    method UpdateByDate(text: string, body: Body, storageFails: bool) returns (resp: Response)
      requires Valid()
      modifies this
      ensures Valid()
      ensures parseDate(text).None? ==>
        resp == Response(BAD_REQUEST, Problem(BadDate)) && table == old(table)
      ensures parseDate(text).Some? ==>
        match FirstMatch(old(table), parseDate(text).value)
        case None =>
          resp == Response(NOT_FOUND, Problem(NoMatch)) && table == old(table)
        case Some(i) =>
          var row := Patch(old(table)[i], body, MUTABLE_COLUMNS);
          if storageFails || row.coordinates.None? then
            resp == Response(SERVER_ERROR, Problem(StorageError)) && table == old(table)
          else
            resp == Response(OK, Edited(old(table)[i].timestamp.date)) && table == old(table)[i := row]
    {
      var parsed := parseDate(text);
      if parsed.None? {
        return Response(BAD_REQUEST, Problem(BadDate));
      }
      var first := FirstMatch(session, parsed.value);
      if first.None? {
        return Response(NOT_FOUND, Problem(NoMatch));
      }
      var i := first.value;
      var row := StageEdits(session[i], body);
      session := session[i := row];
      assert IdsAscending(session) by {
        forall j | 0 <= j < |session| ensures session[j].id == table[j].id { }
      }
      EditKeepsOtherRowsNotNull(table, i, row);
      var ok := CommitOrRollback(storageFails);
      if !ok {
        return Response(SERVER_ERROR, Problem(StorageError));
      }
      resp := Response(OK, Edited(row.timestamp.date));
    }
  }

  /**
   * The loop `for record in records_to_delete: db.session.delete(record)`:
   * the staged rows lose, one delete at a time, every row with a listed id.
   */
  method StageDeletes(t: seq<Reading>, doomed: seq<Reading>) returns (staged: seq<Reading>)
    ensures staged == Without(t, IdsOf(doomed))
  {
    WithoutNothing(t);
    assert doomed[..0] == [];
    assert IdsOf([]) == {};
    staged := t;
    var k := 0;
    while k < |doomed|
      invariant 0 <= k <= |doomed|
      invariant staged == Without(t, IdsOf(doomed[..k]))
    {
      WithoutOneMore(t, doomed, k);
      staged := Without(staged, {doomed[k].id});
      k := k + 1;
    }
    assert doomed[..k] == doomed;
  }

  /**
   * The loop `for field in optional_fields: if field in data: setattr(...)`
   * over the nine columns, in order, on the row `.first()` returned.
   */
  method StageEdits(r: Reading, body: Body) returns (r': Reading)
    ensures r' == Patch(r, body, MUTABLE_COLUMNS)
  {
    r' := r;
    var k := 0;
    while k < |MUTABLE_COLUMNS|
      invariant 0 <= k <= |MUTABLE_COLUMNS|
      invariant r' == Patch(r, body, MUTABLE_COLUMNS[..k])
    {
      var c := MUTABLE_COLUMNS[k];
      assert MUTABLE_COLUMNS[..k + 1] == MUTABLE_COLUMNS[..k] + [c];
      if Key(c) in body {
        r' := Set(r', c, body[Key(c)]);
      }
      k := k + 1;
    }
    assert MUTABLE_COLUMNS[..k] == MUTABLE_COLUMNS;
  }

  /**
   * The two "no data" answers differ: listing an empty table succeeds with no
   * rows, while a well-formed date query on it is a 404.
   */
  lemma NoDataAnswersDiffer(store: SensorStore, text: string)
    requires store.table == [] && store.parseDate(text).Some?
    ensures store.List() == Response(OK, Listing([]))
    ensures store.FindByDate(text) == Response(NOT_FOUND, Problem(NoMatch))
  {
  }

  /**
   * The three date routes agree on "not found": for one store and one
   * well-formed path date, GET answers 404 exactly when PUT's `.first()` finds
   * nothing and exactly when DELETE's query is empty, and otherwise the row PUT
   * edits is the first row GET lists.
   */
  lemma NotFoundAgrees(store: SensorStore, text: string)
    requires store.parseDate(text).Some?
    ensures var d := store.parseDate(text).value;
      store.FindByDate(text).status == NOT_FOUND <==> FirstMatch(store.table, d).None?
    ensures var d := store.parseDate(text).value;
      store.FindByDate(text).status == NOT_FOUND <==> Select(store.table, d) == []
    ensures var d := store.parseDate(text).value;
      FirstMatch(store.table, d).Some? ==>
        && store.FindByDate(text).payload.Listing?
        && store.FindByDate(text).payload.rows != []
        && store.FindByDate(text).payload.rows[0] == Serialize(store.table[FirstMatch(store.table, d).value])
  {
    var d := store.parseDate(text).value;
    FirstMatchHeadsSelect(store.table, d);
    var found := Select(store.table, d);
    if found != [] {
      assert found[0] in store.table;
    }
  }
}
