/**
 * The `SensorData` table of cleansmrs_api/models.py: one row per reading,
 * an integer primary key, a NOT NULL timestamp and coordinates, and eight
 * independently nullable measurement columns.
 */
module Schema {
  import opened Wrappers

  /** A JSON scalar as it arrives in a request body; the store keeps it as given. */
  datatype Value = Number(x: real) | Text(s: string)

  /** A calendar date, the value `timestamp.date()` and `func.DATE` compare. */
  datatype Date = Date(year: int, month: int, day: int)

  /** Time of day with the UTC offset read from the request, if any. */
  datatype TimeOfDay = TimeOfDay(hour: int, minute: int, second: int, microsecond: int, utcOffsetMinutes: Option<int>)

  datatype Timestamp = Timestamp(date: Date, time: TimeOfDay)

  /** The nine columns a request may set, in the order the routes list them. */
  datatype Column =
    | Coordinates | TemperatureWater | TemperatureAir | Humidity | WindSpeed
    | WindDirection | Precipitation | Haze | Becquerel

  /** The JSON key (and attribute name) of a column. */
  function Key(c: Column): string
  {
    match c
    case Coordinates => "coordinates"
    case TemperatureWater => "temperature_water"
    case TemperatureAir => "temperature_air"
    case Humidity => "humidity"
    case WindSpeed => "wind_speed"
    case WindDirection => "wind_direction"
    case Precipitation => "precipitation"
    case Haze => "haze"
    case Becquerel => "becquerel"
  }

  const MUTABLE_COLUMNS: seq<Column> :=
    [Coordinates, TemperatureWater, TemperatureAir, Humidity, WindSpeed,
     WindDirection, Precipitation, Haze, Becquerel]

  /** The JSON keys of the nine columns. */
  const COLUMN_KEYS: set<string> :=
    {"coordinates", "temperature_water", "temperature_air", "humidity", "wind_speed",
     "wind_direction", "precipitation", "haze", "becquerel"}

  /** Every column is listed, and the key set holds exactly the columns' keys. */
  lemma ColumnKeys()
    ensures forall c :: c in MUTABLE_COLUMNS && Key(c) in COLUMN_KEYS
    ensures forall k :: k in COLUMN_KEYS ==> exists c :: Key(c) == k
  {
    forall c ensures c in MUTABLE_COLUMNS {
      match c
      case Coordinates => assert MUTABLE_COLUMNS[0] == c;
      case TemperatureWater => assert MUTABLE_COLUMNS[1] == c;
      case TemperatureAir => assert MUTABLE_COLUMNS[2] == c;
      case Humidity => assert MUTABLE_COLUMNS[3] == c;
      case WindSpeed => assert MUTABLE_COLUMNS[4] == c;
      case WindDirection => assert MUTABLE_COLUMNS[5] == c;
      case Precipitation => assert MUTABLE_COLUMNS[6] == c;
      case Haze => assert MUTABLE_COLUMNS[7] == c;
      case Becquerel => assert MUTABLE_COLUMNS[8] == c;
    }
    forall k | k in COLUMN_KEYS ensures exists c :: Key(c) == k {
      var c :=
        if k == "coordinates" then Coordinates
        else if k == "temperature_water" then TemperatureWater
        else if k == "temperature_air" then TemperatureAir
        else if k == "humidity" then Humidity
        else if k == "wind_speed" then WindSpeed
        else if k == "wind_direction" then WindDirection
        else if k == "precipitation" then Precipitation
        else if k == "haze" then Haze
        else Becquerel;
      assert Key(c) == k;
    }
  }

  /** One `SensorData` row. `timestamp` has no null; every other column may hold None. */
  datatype Reading = Reading(
    id: int,
    timestamp: Timestamp,
    coordinates: Option<Value>,
    temperatureWater: Option<Value>,
    temperatureAir: Option<Value>,
    humidity: Option<Value>,
    windSpeed: Option<Value>,
    windDirection: Option<Value>,
    precipitation: Option<Value>,
    haze: Option<Value>,
    becquerel: Option<Value>)

  /** `getattr(r, Key(c))`. */
  function Get(r: Reading, c: Column): Option<Value>
  {
    match c
    case Coordinates => r.coordinates
    case TemperatureWater => r.temperatureWater
    case TemperatureAir => r.temperatureAir
    case Humidity => r.humidity
    case WindSpeed => r.windSpeed
    case WindDirection => r.windDirection
    case Precipitation => r.precipitation
    case Haze => r.haze
    case Becquerel => r.becquerel
  }

  /** `setattr(r, Key(c), v)`: writes one column and nothing else. */
  function Set(r: Reading, c: Column, v: Option<Value>): (r': Reading)
    ensures Get(r', c) == v
    ensures forall c' :: c' != c ==> Get(r', c') == Get(r, c')
    ensures r'.id == r.id && r'.timestamp == r.timestamp
  {
    match c
    case Coordinates => r.(coordinates := v)
    case TemperatureWater => r.(temperatureWater := v)
    case TemperatureAir => r.(temperatureAir := v)
    case Humidity => r.(humidity := v)
    case WindSpeed => r.(windSpeed := v)
    case WindDirection => r.(windDirection := v)
    case Precipitation => r.(precipitation := v)
    case Haze => r.(haze := v)
    case Becquerel => r.(becquerel := v)
  }

  /** The NOT NULL constraints a commit enforces (the timestamp cannot be null by its type). */
  predicate NotNullHolds(r: Reading)
  {
    r.coordinates.Some?
  }

  /**
   * NOT NULL depends on `coordinates` alone: writing it decides the verdict by
   * the value written, and writing any of the eight measurement columns, null
   * included, keeps the verdict.
   */
  lemma NotNullOnlyCoordinates(r: Reading, c: Column, v: Option<Value>)
    ensures NotNullHolds(Set(r, c, v)) == if c == Coordinates then v.Some? else NotNullHolds(r)
  {
  }

  predicate AllNotNull(t: seq<Reading>)
  {
    forall r :: r in t ==> NotNullHolds(r)
  }

  /** Replacing one row of a table that meets the NOT NULL constraints: the result meets them iff the new row does. */
  lemma EditKeepsOtherRowsNotNull(t: seq<Reading>, i: int, r: Reading)
    requires AllNotNull(t) && 0 <= i < |t|
    ensures AllNotNull(t[i := r]) <==> NotNullHolds(r)
  {
    var t' := t[i := r];
    assert t'[i] == r;
    forall x | x in t' && x != r ensures NotNullHolds(x) {
      var j :| 0 <= j < |t'| && t'[j] == x;
      assert t'[j] == t[j];
    }
  }

  /** Rows in rowid order: ids strictly increase along the table. */
  predicate IdsAscending(t: seq<Reading>)
  {
    forall i, j :: 0 <= i < j < |t| ==> t[i].id < t[j].id
  }

  /** What every committed table satisfies. */
  predicate TableInvariant(t: seq<Reading>)
  {
    IdsAscending(t) && AllNotNull(t)
  }

  /** `id` is a primary key: in a table in rowid order a row is determined by its id. */
  lemma IdIsPrimaryKey(t: seq<Reading>)
    requires IdsAscending(t)
    ensures forall r, r' :: r in t && r' in t && r.id == r'.id ==> r == r'
  {
    forall r, r' | r in t && r' in t && r.id == r'.id ensures r == r' {
      var i :| 0 <= i < |t| && t[i] == r;
      var j :| 0 <= j < |t| && t[j] == r';
      assert !(i < j) && !(j < i);
    }
  }

  /** The largest id in a non-empty table. */
  function MaxId(t: seq<Reading>): (m: int)
    requires t != []
    ensures forall r :: r in t ==> r.id <= m
    ensures exists r :: r in t && r.id == m
    decreases |t|
  {
    if |t| == 1 then t[0].id
    else
      var rest := MaxId(t[..|t| - 1]);
      assert t == t[..|t| - 1] + [t[|t| - 1]];
      if t[|t| - 1].id > rest then t[|t| - 1].id else rest
  }

  /**
   * The id SQLite gives the next inserted row of a table whose integer primary
   * key has no AUTOINCREMENT: one more than the largest id, or 1 when empty.
   */
  function NextId(t: seq<Reading>): (n: int)
    ensures forall r :: r in t ==> r.id < n
    ensures t == [] ==> n == 1
    ensures t != [] ==> exists r :: r in t && n == r.id + 1
  {
    if t == [] then 1 else MaxId(t) + 1
  }

  /** Appending a row carrying the next id keeps the table in rowid order. */
  lemma AppendNextId(t: seq<Reading>, r: Reading)
    requires IdsAscending(t) && r.id == NextId(t)
    ensures IdsAscending(t + [r])
  {
    var t' := t + [r];
    forall i, j | 0 <= i < j < |t'| ensures t'[i].id < t'[j].id {
      if j == |t| {
        assert t'[i] in t;
      } else {
        assert t'[i] == t[i] && t'[j] == t[j];
      }
    }
  }
}
