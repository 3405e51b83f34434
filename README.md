# CleanSMRS sensor-reading store, modelled in Dafny

This project models the sensor-data API of the CleanSMRS repository. The model covers
the `SensorData` table (`cleansmrs_api/models.py`) and the five Flask routes over it
(`cleansmrs_api/routes.py`):

- `POST /api/sensor-data` creates a reading.
- `GET /api/sensor-data` lists every reading.
- `GET`, `PUT` and `DELETE /api/sensor-data/<date>` read, edit and delete by calendar date.

Modules:

- `Wrappers` (`wrappers.dfy`) holds `Option`.
- `Schema` (`schema.dfy`) is the table.
  - `Reading` is one row. Every column except `id` and `timestamp` is an `Option`, and None is SQL NULL.
  - `Column` and `Key` name the nine columns a request may set.
  - `Get` and `Set` are `getattr` and `setattr`.
  - Two NOT NULL constraints apply. `timestamp` has no null value by its type. `coordinates` is checked by `NotNullHolds`.
  - Rowid order: `IdsAscending`.
  - New ids follow SQLite's rule for an INTEGER PRIMARY KEY without AUTOINCREMENT: one more than the largest id, or 1 in an empty table (`NextId`).
- `Queries` (`queries.dfy`) holds the side-effect-free parts of the routes:
  - the required-key check;
  - building a row from a POST body;
  - the date filters `Select` (rows on a date) and `Reject` (rows not on it), both instances of one `Filter` over a `Where` clause;
  - `.first()` (`FirstMatch`);
  - deleting rows by id (`Without`);
  - the nine-column patch of PUT (`Patch`);
  - the JSON row of the GET routes (`Serialize`, `Rows`).
- `Store` (`store.dfy`) holds the class `SensorStore`.
  - It keeps the committed rows `table` and SQLAlchemy's unit of work `session`.
  - A write route stages its change in `session`.
  - `CommitOrRollback` then either publishes `session` as the new `table` or resets `session` to `table`.
  - A commit fails in two cases: the `storageFails` argument is set, or a staged row has a null `coordinates` (the NOT NULL constraint).
  - Each route returns a `Response`: a status code and a payload. `Reason` stands in for the error message.

Calls into code outside the model become parameters:

- `combine` (a `const` of the store) stands for the f-string plus `datetime.fromisoformat`. It takes the three body values and returns `Option<Timestamp>`.
- `parseDate` stands for `datetime.strptime(..., '%Y%m%d').date()`. It returns `Option<Date>`.
- `storageFails` stands for any exception that `db.session.commit()` raises other than a NOT NULL violation.

A request body is a `map<string, Option<Value>>`. An absent key (rejected by POST) is kept distinct from a key whose value is JSON null (accepted by POST).

## Model

| member | source | states |
|---|---|---|
| `Schema.ColumnKeys` | cleansmrs_api/routes.py:134-136 | Every column is in the nine-column list, and the set of column keys holds exactly the keys of the columns. |
| `Schema.Set` | cleansmrs_api/routes.py:138-140 | `setattr` of one column writes that column. Every other column, the id and the timestamp stay as they were. |
| `Schema.IdIsPrimaryKey` | cleansmrs_api/models.py:13 | In a table in rowid order, two rows with the same id are the same row, so `id` is a key. |
| `Schema.EditKeepsOtherRowsNotNull` | cleansmrs_api/models.py:17-21 | After one row of a table that meets the NOT NULL constraints is replaced, the table meets them exactly when the new row does. |
| `Schema.NotNullOnlyCoordinates` | cleansmrs_api/models.py:17-45 | NOT NULL depends on `coordinates` alone: writing it sets the verdict by the value written, and writing any of the eight measurement columns, null included, keeps the verdict. |
| `Schema.MaxId` | cleansmrs_api/models.py:13 | The largest id of a non-empty table is at least every row's id, and some row carries it. |
| `Schema.NextId` | cleansmrs_api/models.py:13 | The id given to an inserted row exceeds every id in the table. It is 1 for an empty table, and otherwise one more than an existing id. |
| `Schema.AppendNextId` | cleansmrs_api/models.py:13 | Appending a row that carries the next id keeps the table in strictly ascending id order. |
| `Queries.HasRequiredKeys` | cleansmrs_api/routes.py:13-19 | POST's check passes exactly when a body is present and holds `date`, `time`, `time_zone_offset` and the keys of all nine columns. Their values may be null. |
| `Queries.HasRequired` | cleansmrs_api/routes.py:18 | The check `not data or any(key not in data ...)` fails exactly when the body is missing or lacks one of the twelve keys; the empty-body test adds no case of its own. |
| `Queries.Matches` | cleansmrs_api/routes.py:76 | A row is on a date exactly when its timestamp is that date at some time of day (any hour, minute and offset). |
| `Queries.MatchesByDateOnly` | cleansmrs_api/routes.py:76 | Two rows with the same calendar date match the same dates, whatever their time of day, offset or column values. |
| `Queries.FromBody` | cleansmrs_api/routes.py:28-39 | The new row has the given id and the parsed timestamp. Each of its nine columns equals the body's value for that key. |
| `Queries.Filter` | cleansmrs_api/routes.py:76 | A WHERE clause keeps exactly the rows it accepts. It never adds rows and keeps ascending id order. |
| `Queries.Select` | cleansmrs_api/routes.py:76 | The date query returns exactly the rows whose timestamp date is the query date, in table order. |
| `Queries.SelectIsDetermined` | cleansmrs_api/routes.py:76 | On a table in rowid order, any ordered list of exactly the rows on the date is the date query's result. |
| `Queries.Reject` | cleansmrs_api/routes.py:103-111 | The rows a date delete must keep are exactly the rows not on that date, in table order. |
| `Queries.RejectIsDetermined` | cleansmrs_api/routes.py:103-111 | On a table in rowid order, any ordered list of exactly the rows not on the date equals `Reject`. |
| `Queries.SelectRejectPartition` | cleansmrs_api/routes.py:103-111 | Every row is either deleted or kept by a date delete, never both: the two multisets add up to the table. |
| `Queries.RejectLeavesNoMatch` | cleansmrs_api/routes.py:103-116 | After a date delete, a date query on that day finds nothing and `.first()` returns None. |
| `Queries.AscendingByMembers` | cleansmrs_api/models.py:13 | Two tables in rowid order that hold the same rows are equal. |
| `Queries.FirstMatch` | cleansmrs_api/routes.py:128 | `.first()` returns the index of a row on the date with no earlier row on it, or None when no row is on the date. |
| `Queries.FirstMatchHeadsSelect` | cleansmrs_api/routes.py:128-131 | `.first()` finds nothing exactly when the date query is empty. Otherwise it picks the first row the date query lists. |
| `Queries.IdsOf` | cleansmrs_api/routes.py:109-110 | The id set holds the id of every listed row and nothing else. |
| `Queries.Without` | cleansmrs_api/routes.py:110 | Deleting by ids keeps exactly the rows whose id is not among them. |
| `Queries.WithoutTwice` | cleansmrs_api/routes.py:109-110 | Deleting one set of ids and then another equals deleting their union. |
| `Queries.DeleteSelectedIsReject` | cleansmrs_api/routes.py:103-111 | Deleting each row the date query returned leaves exactly `Reject`, the rows not on that date in their order. |
| `Queries.Patch` | cleansmrs_api/routes.py:133-140 | The patch keeps the row's id and timestamp. A listed column that the body names takes the body's value (null included). Every other column keeps its value. |
| `Queries.Serialize` | cleansmrs_api/routes.py:54-66 | A listed row carries the record's timestamp and its date. Its fields are exactly the nine column keys, each with that column's value. |
| `Queries.Rows` | cleansmrs_api/routes.py:54-66 | The listing has one entry per record, in order, each the serialisation of that record. |
| `Queries.SelectIsFilteredListing` | cleansmrs_api/routes.py:76-93 | The GET-by-date array equals the full listing filtered on its `date` entry. |
| `Queries.CreatedRowRoundTrip` | cleansmrs_api/routes.py:28-66 | A row created from a POST body is listed with the parsed timestamp and its date. It carries exactly the nine column keys with the body's values. |
| `Store.SensorStore.CommitOrRollback` | cleansmrs_api/routes.py:42-47 | The commit succeeds exactly when storage does not fail and every staged row meets NOT NULL. The table then becomes the staged rows. Otherwise the table is exactly what it was. Either way nothing is left staged. |
| `Store.SensorStore.Create` | cleansmrs_api/routes.py:9-49 | 400 with no change when the body is missing, empty or lacks a required key. 400 with no change when the timestamp does not parse. 500 with no change when the commit fails. Otherwise 201 with the timestamp's date, and the table is the old table plus exactly one new row (next id, parsed timestamp, body values). |
| `Store.SensorStore.List` | cleansmrs_api/routes.py:51-66 | 200 with one entry per stored row, in table order. Each entry's `date` is its row's timestamp date. |
| `Store.SensorStore.FindByDate` | cleansmrs_api/routes.py:68-93 | 400 when the path date does not parse. 404 exactly when no row is on the date. Otherwise 200 with the listing filtered to that date. |
| `Store.SensorStore.DeleteByDate` | cleansmrs_api/routes.py:95-116 | 400 with no change for a bad date. 404 with no change when no row is on it. 500 with no change when the commit fails. Otherwise 200, and the table is exactly the rows not on the date, in order. |
| `Store.SensorStore.UpdateByDate` | cleansmrs_api/routes.py:118-148 | 400 with no change for a bad date. 404 with no change when no row is on it. Otherwise only the first row on the date is patched: 500 with no change when the commit fails or the patch nulls `coordinates`, else 200 with that row's date. |
| `Store.StageDeletes` | cleansmrs_api/routes.py:109-110 | The delete loop leaves the staged rows minus every row whose id it deleted. |
| `Store.StageEdits` | cleansmrs_api/routes.py:138-140 | The `setattr` loop over the nine columns yields `Patch` of the row. |
| `Store.NoDataAnswersDiffer` | cleansmrs_api/routes.py:53-79 | On an empty table, listing answers 200 with no rows, while a well-formed date query answers 404. |
| `Store.NotFoundAgrees` | cleansmrs_api/routes.py:76-79 | For one store and a well-formed path date, `FindByDate` answers 404 exactly when `UpdateByDate`'s `.first()` finds nothing and exactly when `DeleteByDate`'s query is empty. Otherwise the first row `FindByDate` lists is the serialisation of the row `UpdateByDate` edits. |

## Left out

- `cleansmrs_api/app.py` is not part of this model. It only wires the Flask app, the SQLite URI, `create_all` and the index greeting, and sets an unused JWT secret.
- The top-level Django `models.py` and `tests.py` are not part of this model. They hold an unrelated shop schema whose only logic is `__str__`.
- The grammars of `datetime.fromisoformat` and `datetime.strptime('%Y%m%d')` are not modelled. They are the store's `combine` and `parseDate` parameters, partial functions returning `Option`. The f-string that joins date, time and offset is not modelled either; it is part of `combine`.
- ISO formatting of dates and timestamps in the JSON reply is not modelled. SQLite's `DateTime` column keeps only the wall-clock fields, so the source lists a stored `timestamp` without its UTC offset, while `Serialize` keeps `utcOffsetMinutes`; the date part, and so date matching and the dates in 201 and 200 replies, is the same either way. A row's `date` is the date part of its timestamp.
- Error message strings are replaced by the `Reason` tag.
- Floating-point values and column type affinity are not modelled. A `Value` is a JSON number (as `real`) or string, stored as given. JSON booleans, arrays and objects are not modelled.
- Commit failures other than the NOT NULL constraint on `coordinates` (disk errors, an unbindable value) are not modelled one by one. They are all the `storageFails` argument.
- `.all()` and `.first()` order is not modelled separately: it is table order, which is rowid order because ids ascend along the table.
- SQLite's random rowid choice once the largest id reaches 2^63-1 is not modelled.
- PUT without a JSON body is not modelled. The source raises an unhandled error at `field in data`, so the model's `UpdateByDate` takes a `Body`, not an `Option<Body>`.
- Concurrency between requests and transaction isolation are not modelled. Each route runs alone against the store.
