/**
 * The side-effect-free parts of cleansmrs_api/routes.py: request validation,
 * building a row from a request, the date filters behind the three `<date>`
 * routes, `.first()`, the field-by-field patch of the PUT route and the JSON
 * shape of a listed row.
 */
module Queries {
  import opened Wrappers
  import opened Schema

  /** A decoded JSON request object: a missing key is absent, a JSON null is `Some(None)`. */
  type Body = map<string, Option<Value>>

  /** The twelve keys a POST body must carry, in the route's order. */
  const REQUIRED_KEYS: seq<string> :=
    ["date", "time", "time_zone_offset", "coordinates",
     "temperature_water", "temperature_air", "humidity",
     "wind_speed", "wind_direction", "precipitation",
     "haze", "becquerel"]

  /**
   * The POST route's first check: a body is present, non-empty, and has every
   * required key. A key whose value is null passes.
   */
  predicate HasRequired(body: Option<Body>): (ok: bool)
    ensures ok <==> body.Some? && forall k :: k in REQUIRED_KEYS ==> k in body.value
  {
    assert REQUIRED_KEYS[0] in REQUIRED_KEYS;
    body.Some? && body.value != map[] && forall k :: k in REQUIRED_KEYS ==> k in body.value
  }

  /** The check admits exactly the bodies holding the twelve keys, whatever their values. */
  lemma HasRequiredKeys(body: Option<Body>)
    ensures HasRequired(body) <==>
      && body.Some?
      && "date" in body.value && "time" in body.value && "time_zone_offset" in body.value
      && forall c :: Key(c) in body.value
  {
    if body.Some? && "date" in body.value && "time" in body.value && "time_zone_offset" in body.value
       && forall c :: Key(c) in body.value
    {
      assert "date" in body.value.Keys;
      forall k | k in REQUIRED_KEYS ensures k in body.value {
        assert k == "date" || k == "time" || k == "time_zone_offset"
          || k == Key(Coordinates) || k == Key(TemperatureWater) || k == Key(TemperatureAir)
          || k == Key(Humidity) || k == Key(WindSpeed) || k == Key(WindDirection)
          || k == Key(Precipitation) || k == Key(Haze) || k == Key(Becquerel);
      }
    }
    if HasRequired(body) {
      forall c ensures Key(c) in body.value {
        match c
        case Coordinates => assert REQUIRED_KEYS[3] == Key(c);
        case TemperatureWater => assert REQUIRED_KEYS[4] == Key(c);
        case TemperatureAir => assert REQUIRED_KEYS[5] == Key(c);
        case Humidity => assert REQUIRED_KEYS[6] == Key(c);
        case WindSpeed => assert REQUIRED_KEYS[7] == Key(c);
        case WindDirection => assert REQUIRED_KEYS[8] == Key(c);
        case Precipitation => assert REQUIRED_KEYS[9] == Key(c);
        case Haze => assert REQUIRED_KEYS[10] == Key(c);
        case Becquerel => assert REQUIRED_KEYS[11] == Key(c);
      }
    }
  }

  /** `SensorData(timestamp=..., coordinates=data['coordinates'], ...)`: every column copied from the body. */
  function FromBody(id: int, ts: Timestamp, body: Body): (r: Reading)
    requires forall c :: Key(c) in body
    ensures r.id == id && r.timestamp == ts
    ensures forall c :: Get(r, c) == body[Key(c)]
  {
    Reading(id, ts,
      body[Key(Coordinates)], body[Key(TemperatureWater)], body[Key(TemperatureAir)],
      body[Key(Humidity)], body[Key(WindSpeed)], body[Key(WindDirection)],
      body[Key(Precipitation)], body[Key(Haze)], body[Key(Becquerel)])
  }

  /** `func.DATE(SensorData.timestamp) == query_date`: only the calendar date takes part. */
  predicate Matches(r: Reading, d: Date): (on: bool)
    ensures on <==> exists t: TimeOfDay :: r.timestamp == Timestamp(d, t)
  {
    r.timestamp.date == d
  }

  /** Rows with the same calendar date match the same dates, whatever their time of day, offset or columns. */
  lemma MatchesByDateOnly(r: Reading, r': Reading, d: Date)
    requires r.timestamp.date == r'.timestamp.date
    ensures Matches(r, d) == Matches(r', d)
  {
  }

  /** The row filters the routes use, as first-order WHERE clauses. */
  datatype Where = DatedOn(d: Date) | NotDatedOn(d: Date) | IdNotIn(ids: set<int>)

  predicate Keeps(w: Where, r: Reading)
  {
    match w
    case DatedOn(d) => Matches(r, d)
    case NotDatedOn(d) => !Matches(r, d)
    case IdNotIn(ids) => r.id !in ids
  }

  /** The rows of `t` a WHERE clause keeps, in table order. */
  function Filter(t: seq<Reading>, w: Where): (s: seq<Reading>)
    ensures forall r :: r in s <==> r in t && Keeps(w, r)
    ensures |s| <= |t|
    ensures IdsAscending(t) ==> IdsAscending(s)
    decreases |t|
  {
    if t == [] then []
    else
      var init := t[..|t| - 1];
      var last := t[|t| - 1];
      assert t == init + [last];
      var rest := Filter(init, w);
      if Keeps(w, last) then
        assert IdsAscending(t) ==> forall r :: r in rest ==> r.id < last.id;
        rest + [last]
      else rest
  }

  /** Unfolding `Filter` on a table with one more row at the end. */
  lemma FilterSnoc(t: seq<Reading>, r: Reading, w: Where)
    ensures Filter(t + [r], w) == Filter(t, w) + (if Keeps(w, r) then [r] else [])
  {
    assert (t + [r])[..|t|] == t;
  }

  /** Two clauses that agree on every row of `t` select the same rows. */
  lemma {:induction false} FilterAgree(t: seq<Reading>, w: Where, w': Where)
    requires forall r :: r in t ==> (Keeps(w, r) <==> Keeps(w', r))
    ensures Filter(t, w) == Filter(t, w')
    decreases |t|
  {
    if t != [] {
      FilterAgree(t[..|t| - 1], w, w');
    }
  }

  /** A clause that keeps every row of `t` leaves `t` as it is. */
  lemma {:induction false} FilterKeepsAll(t: seq<Reading>, w: Where)
    requires forall r :: r in t ==> Keeps(w, r)
    ensures Filter(t, w) == t
    decreases |t|
  {
    if t != [] {
      var init := t[..|t| - 1];
      var last := t[|t| - 1];
      assert t == init + [last];
      FilterKeepsAll(init, w);
      FilterSnoc(init, last, w);
    }
  }

  /** The rows a date query returns, in table order. */
  function Select(t: seq<Reading>, d: Date): (s: seq<Reading>)
    ensures forall r :: r in s <==> r in t && Matches(r, d)
    ensures IdsAscending(t) ==> IdsAscending(s)
  {
    Filter(t, DatedOn(d))
  }

  /** The rows not dated on `d`, in table order: what a date delete must leave. */
  function Reject(t: seq<Reading>, d: Date): (s: seq<Reading>)
    ensures forall r :: r in s <==> r in t && !Matches(r, d)
    ensures IdsAscending(t) ==> IdsAscending(s)
  {
    Filter(t, NotDatedOn(d))
  }

  /** Every row of `t` lands in exactly one of the two date filters. */
  lemma {:induction false} SelectRejectPartition(t: seq<Reading>, d: Date)
    ensures multiset(Select(t, d)) + multiset(Reject(t, d)) == multiset(t)
    decreases |t|
  {
    if t != [] {
      var init := t[..|t| - 1];
      assert t == init + [t[|t| - 1]];
      SelectRejectPartition(init, d);
    }
  }

  /**
   * Rows in rowid order are determined by which rows they hold: so a filter's
   * result is the only ordered table with its members.
   */
  lemma {:induction false} AscendingByMembers(a: seq<Reading>, b: seq<Reading>)
    requires IdsAscending(a) && IdsAscending(b)
    requires forall r :: r in a <==> r in b
    ensures a == b
    decreases |a|
  {
    assert b != [] ==> b[0] in a;
    if a != [] {
      assert a[0] in b;
      assert b != [] && b[0] in a;
      var i :| 0 <= i < |b| && b[i] == a[0];
      var j :| 0 <= j < |a| && a[j] == b[0];
      assert i == 0;
      forall r ensures r in a[1..] <==> r in b[1..] {
        if r in a[1..] {
          var k :| 1 <= k < |a| && a[k] == r;
          assert a[0].id < a[k].id;
          assert r in b && r != b[0];
          var m :| 0 <= m < |b| && b[m] == r;
          assert m != 0;
          assert b[1..][m - 1] == r;
        }
        if r in b[1..] {
          var k :| 1 <= k < |b| && b[k] == r;
          assert b[0].id < b[k].id;
          assert r in a && r != a[0];
          var m :| 0 <= m < |a| && a[m] == r;
          assert m != 0;
          assert a[1..][m - 1] == r;
        }
      }
      AscendingByMembers(a[1..], b[1..]);
      assert a == [a[0]] + a[1..] && b == [b[0]] + b[1..];
    }
  }

  /**
   * On a table in rowid order, the date query's answer is the only ordered
   * list of exactly the rows dated `d`.
   */
  lemma SelectIsDetermined(t: seq<Reading>, d: Date, s: seq<Reading>)
    requires IdsAscending(t) && IdsAscending(s)
    requires forall r :: r in s <==> r in t && Matches(r, d)
    ensures s == Select(t, d)
  {
    AscendingByMembers(s, Select(t, d));
  }

  /**
   * On a table in rowid order, the table a date delete leaves is the only
   * ordered list of exactly the rows not dated `d`.
   */
  lemma RejectIsDetermined(t: seq<Reading>, d: Date, s: seq<Reading>)
    requires IdsAscending(t) && IdsAscending(s)
    requires forall r :: r in s <==> r in t && !Matches(r, d)
    ensures s == Reject(t, d)
  {
    AscendingByMembers(s, Reject(t, d));
  }

  /** After a date delete, nothing is dated on that day any more. */
  lemma RejectLeavesNoMatch(t: seq<Reading>, d: Date)
    ensures Select(Reject(t, d), d) == []
    ensures FirstMatch(Reject(t, d), d).None?
  {
    var rest := Reject(t, d);
    FilterKeepsAll(rest, NotDatedOn(d));
    SelectRejectPartition(rest, d);
    assert |multiset(Select(rest, d))| == 0;
  }

  /**
   * `.first()` on a date query: the index of the first row dated `d`,
   * or None when there is none.
   */
  function FirstMatch(t: seq<Reading>, d: Date): (k: Option<nat>)
    ensures k.Some? ==> k.value < |t| && Matches(t[k.value], d)
    ensures k.Some? ==> forall j :: 0 <= j < k.value ==> !Matches(t[j], d)
    ensures k.None? ==> forall r :: r in t ==> !Matches(r, d)
    decreases |t|
  {
    if t == [] then None
    else
      var init := t[..|t| - 1];
      assert t == init + [t[|t| - 1]];
      match FirstMatch(init, d)
      case Some(i) => Some(i)
      case None => if Matches(t[|t| - 1], d) then Some(|t| - 1) else None
  }

  /**
   * The row `.first()` picks is the first row the date query lists, and the
   * two agree on whether any row matches.
   */
  lemma {:induction false} FirstMatchHeadsSelect(t: seq<Reading>, d: Date)
    ensures FirstMatch(t, d).None? <==> Select(t, d) == []
    ensures FirstMatch(t, d).Some? ==> Select(t, d)[0] == t[FirstMatch(t, d).value]
    decreases |t|
  {
    if t != [] {
      var init := t[..|t| - 1];
      var last := t[|t| - 1];
      assert t == init + [last];
      FirstMatchHeadsSelect(init, d);
      FilterSnoc(init, last, DatedOn(d));
    }
  }

  /** The ids of a list of rows. */
  function IdsOf(s: seq<Reading>): (ids: set<int>)
    ensures forall r :: r in s ==> r.id in ids
    ensures forall i :: i in ids ==> exists r :: r in s && r.id == i
  {
    set r | r in s :: r.id
  }

  lemma IdsOfSnoc(s: seq<Reading>, r: Reading)
    ensures IdsOf(s + [r]) == IdsOf(s) + {r.id}
  {
    assert forall x :: x in s + [r] <==> x in s || x == r;
  }

  /** The session after `db.session.delete(...)` of the rows whose ids are in `ids`. */
  function Without(t: seq<Reading>, ids: set<int>): (s: seq<Reading>)
    ensures forall r :: r in s <==> r in t && r.id !in ids
  {
    Filter(t, IdNotIn(ids))
  }

  /** Deleting in two rounds is deleting the union at once. */
  lemma {:induction false} WithoutTwice(t: seq<Reading>, a: set<int>, b: set<int>)
    ensures Without(Without(t, a), b) == Without(t, a + b)
    decreases |t|
  {
    if t != [] {
      var init := t[..|t| - 1];
      var last := t[|t| - 1];
      assert t == init + [last];
      WithoutTwice(init, a, b);
      FilterSnoc(init, last, IdNotIn(a));
      FilterSnoc(init, last, IdNotIn(a + b));
      FilterSnoc(Without(init, a), last, IdNotIn(b));
      if last.id in a {
        assert Without(t, a) == Without(init, a);
      } else {
        assert Without(t, a) == Without(init, a) + [last];
      }
    }
  }

  /** One more delete in the loop over a query's rows adds that row's id to those gone. */
  lemma WithoutOneMore(t: seq<Reading>, doomed: seq<Reading>, k: nat)
    requires k < |doomed|
    ensures Without(Without(t, IdsOf(doomed[..k])), {doomed[k].id}) == Without(t, IdsOf(doomed[..k + 1]))
  {
    var done, next := doomed[..k], doomed[k];
    assert doomed[..k + 1] == done + [next];
    IdsOfSnoc(done, next);
    WithoutTwice(t, IdsOf(done), {next.id});
  }

  /** Deleting nothing leaves the session as it is. */
  lemma WithoutNothing(t: seq<Reading>)
    ensures Without(t, {}) == t
  {
    FilterKeepsAll(t, IdNotIn({}));
  }

  /**
   * Deleting, one by one, every row a date query returned leaves exactly the
   * rows not dated on that day, in their order; this relies on ids being keys.
   */
  lemma DeleteSelectedIsReject(t: seq<Reading>, d: Date)
    requires IdsAscending(t)
    ensures Without(t, IdsOf(Select(t, d))) == Reject(t, d)
  {
    IdIsPrimaryKey(t);
    var doomed := IdsOf(Select(t, d));
    forall r | r in t ensures r.id !in doomed <==> !Matches(r, d) {
      if r.id in doomed {
        var r' :| r' in Select(t, d) && r'.id == r.id;
        assert r' == r;
      }
    }
    FilterAgree(t, IdNotIn(doomed), NotDatedOn(d));
  }

  /** The nine-step `setattr` loop of the PUT route, after its first |cols| steps. */
  function Patch(r: Reading, body: Body, cols: seq<Column>): (r': Reading)
    ensures r'.id == r.id && r'.timestamp == r.timestamp
    ensures forall c :: Get(r', c) == if c in cols && Key(c) in body then body[Key(c)] else Get(r, c)
    decreases |cols|
  {
    if cols == [] then r
    else
      var init := cols[..|cols| - 1];
      var c := cols[|cols| - 1];
      assert cols == init + [c];
      var p := Patch(r, body, init);
      if Key(c) in body then Set(p, c, body[Key(c)]) else p
  }

  /** One element of the JSON array the two GET routes return. */
  datatype Row = Row(date: Date, timestamp: Timestamp, fields: map<string, Option<Value>>)

  /** The dictionary the GET routes build for one row: no id, the date, the timestamp and the nine columns. */
  function Serialize(r: Reading): (row: Row)
    ensures row.date == r.timestamp.date && row.timestamp == r.timestamp
    ensures row.fields.Keys == COLUMN_KEYS
    ensures forall c :: row.fields[Key(c)] == Get(r, c)
  {
    var fields := map[
      "coordinates" := r.coordinates,
      "temperature_water" := r.temperatureWater,
      "temperature_air" := r.temperatureAir,
      "humidity" := r.humidity,
      "wind_speed" := r.windSpeed,
      "wind_direction" := r.windDirection,
      "precipitation" := r.precipitation,
      "haze" := r.haze,
      "becquerel" := r.becquerel];
    Row(r.timestamp.date, r.timestamp, fields)
  }

  /** The list comprehension of the GET routes: one row per record, in order. */
  function Rows(t: seq<Reading>): (rows: seq<Row>)
    ensures |rows| == |t|
    ensures forall i :: 0 <= i < |t| ==> rows[i] == Serialize(t[i])
    decreases |t|
  {
    if t == [] then [] else Rows(t[..|t| - 1]) + [Serialize(t[|t| - 1])]
  }

  /** The listed rows whose `date` entry is `d`. */
  function RowsDated(rows: seq<Row>, d: Date): (s: seq<Row>)
    decreases |rows|
  {
    if rows == [] then []
    else
      var rest := RowsDated(rows[..|rows| - 1], d);
      if rows[|rows| - 1].date == d then rest + [rows[|rows| - 1]] else rest
  }

  /** The GET-by-date answer is the full listing filtered on its `date` entry. */
  lemma {:induction false} SelectIsFilteredListing(t: seq<Reading>, d: Date)
    ensures Rows(Select(t, d)) == RowsDated(Rows(t), d)
    decreases |t|
  {
    if t != [] {
      var init := t[..|t| - 1];
      var last := t[|t| - 1];
      assert t == init + [last];
      SelectIsFilteredListing(init, d);
      FilterSnoc(init, last, DatedOn(d));
      assert Rows(t)[..|t| - 1] == Rows(init);
      if Matches(last, d) {
        var s := Select(init, d) + [last];
        assert s[..|s| - 1] == Select(init, d);
      }
    }
  }

  /**
   * What POST stores comes back from GET: the listed row carries the parsed
   * timestamp, its date, and exactly the nine column values of the body.
   */
  lemma CreatedRowRoundTrip(id: int, ts: Timestamp, body: Body)
    requires forall c :: Key(c) in body
    ensures Serialize(FromBody(id, ts, body)).date == ts.date
    ensures Serialize(FromBody(id, ts, body)).timestamp == ts
    ensures Serialize(FromBody(id, ts, body)).fields.Keys == COLUMN_KEYS
    ensures forall k :: k in COLUMN_KEYS ==> k in body && Serialize(FromBody(id, ts, body)).fields[k] == body[k]
  {
    var row := Serialize(FromBody(id, ts, body));
    ColumnKeys();
    forall k | k in COLUMN_KEYS ensures k in body && row.fields[k] == body[k] {
      var c :| Key(c) == k;
    }
  }
}
