/**
  userLocationService.js: the `user_locations` table, keyed by `user_id`,
  with its upsert, point lookup, delete and the distinct (city, country)
  projection that drives the aggregation tick.
  Each call takes a connection from the pool outside its `try`, so a pool
  without connections makes the call throw; a statement that fails inside
  the `try` is logged and swallowed.
*/
module UserLocationService {
  import opened Common
  import opened Database

  /** A row of `user_locations`. `city` and `country` are nullable columns. */
  datatype UserLocation = UserLocation(
    userId: string, latitude: int, longitude: int, city: Option<string>, country: Option<string>)

  /** A row of `SELECT DISTINCT city, country`. */
  datatype CityCountry = CityCountry(city: string, country: string)

  /** The table: `user_id` is its unique key. */
  type Table = map<string, UserLocation>

  /** Every row is stored under its own `user_id`. */
  ghost predicate Keyed(rows: Table) {
    forall u :: u in rows ==> rows[u].userId == u
  }

  /** `INSERT ... ON DUPLICATE KEY UPDATE latitude, longitude, city,
      country`: the user's row is replaced by the new values, or added. */
  function Upsert(rows: Table, userId: string, latitude: int, longitude: int,
                  city: Option<string>, country: Option<string>): (r: Table)
    ensures r.Keys == rows.Keys + {userId}
    ensures r[userId] == UserLocation(userId, latitude, longitude, city, country)
    ensures forall u :: u in rows && u != userId ==> r[u] == rows[u]
  {
    rows[userId := UserLocation(userId, latitude, longitude, city, country)]
  }

  /** `SELECT * ... WHERE user_id = ? LIMIT 1`, then `rows[0] || null`. */
  function Lookup(rows: Table, userId: string): (r: Option<UserLocation>)
    ensures r.None? <==> userId !in rows
    ensures r.Some? ==> r.value == rows[userId]
  {
    if userId in rows then Some(rows[userId]) else None
  }

  /** `SELECT DISTINCT city, country ... WHERE city IS NOT NULL AND country
      IS NOT NULL`, as the set of pairs it returns. */
  function Projection(rows: Table): set<CityCountry> {
    set u | u in rows && rows[u].city.Some? && rows[u].country.Some? ::
      CityCountry(rows[u].city.value, rows[u].country.value)
  }

  /** The projection holds exactly the pairs some user's row has, with
      neither part null. */
  lemma ProjectionIff(rows: Table, cc: CityCountry)
    ensures cc in Projection(rows) <==>
      exists u :: u in rows && rows[u].city == Some(cc.city) && rows[u].country == Some(cc.country)
  {
    if cc in Projection(rows) {
      var u :| u in rows && rows[u].city.Some? && rows[u].country.Some?
        && cc == CityCountry(rows[u].city.value, rows[u].country.value);
      assert rows[u].city == Some(cc.city);
    }
  }

  /** A save is visible to the next lookup, and to nobody else's. */
  lemma SaveThenGet(rows: Table, userId: string, latitude: int, longitude: int,
                    city: Option<string>, country: Option<string>, other: string)
    ensures Lookup(Upsert(rows, userId, latitude, longitude, city, country), userId)
         == Some(UserLocation(userId, latitude, longitude, city, country))
    ensures other != userId ==>
      Lookup(Upsert(rows, userId, latitude, longitude, city, country), other) == Lookup(rows, other)
  {
  }

  /** After a delete the user has no row, and the other rows are kept. */
  lemma DeleteThenGet(rows: Table, userId: string, other: string)
    ensures Lookup(rows - {userId}, userId).None?
    ensures other != userId ==> Lookup(rows - {userId}, other) == Lookup(rows, other)
  {
  }

  /** Saving a location with a city and a country puts its pair in the
      projection; what the user's old row contributed is gone unless another
      row shares it. */
  lemma ProjectionAfterSave(rows: Table, userId: string, latitude: int, longitude: int, city: string, country: string)
    ensures Projection(Upsert(rows, userId, latitude, longitude, Some(city), Some(country)))
         == Projection(rows - {userId}) + {CityCountry(city, country)}
  {
    var r := Upsert(rows, userId, latitude, longitude, Some(city), Some(country));
    var d := rows - {userId};
    forall cc | cc in Projection(r) ensures cc in Projection(d) + {CityCountry(city, country)} {
      var u :| u in r && r[u].city.Some? && r[u].country.Some?
        && cc == CityCountry(r[u].city.value, r[u].country.value);
      if u != userId {
        assert u in d && d[u] == r[u];
      }
    }
    forall cc | cc in Projection(d) + {CityCountry(city, country)} ensures cc in Projection(r) {
      if cc == CityCountry(city, country) {
        assert userId in r;
      } else {
        var u :| u in d && d[u].city.Some? && d[u].country.Some?
          && cc == CityCountry(d[u].city.value, d[u].country.value);
        assert u in r && r[u] == d[u];
      }
    }
  }

  class UserLocationStore {
    var rows: Table

    ghost predicate Valid()
      reads this
    {
      Keyed(rows)
    }

    constructor ()
      ensures Valid() && rows == map[]
    {
      rows := map[];
    }

    /** `saveUserLocation`. `available` says whether the pool hands out a
        connection (when it does not, the call throws and `threw` is set);
        `executes` whether the INSERT succeeds (a failure is swallowed and
        leaves the table as it was). */
    method SaveUserLocation(pool: ConnectionPool, available: bool, executes: bool,
                            userId: string, latitude: int, longitude: int,
                            city: Option<string>, country: Option<string>)
      returns (threw: bool)
      requires Valid()
      modifies this, pool
      ensures Valid()
      ensures pool.checkedOut == old(pool.checkedOut)
      ensures threw <==> !available
      ensures rows == if available && executes then Upsert(old(rows), userId, latitude, longitude, city, country)
                      else old(rows)
    {
      var ok := pool.GetConnection(available);
      if !ok {
        return true;
      }
      if executes {
        rows := Upsert(rows, userId, latitude, longitude, city, country);
      }
      pool.Release();
      threw := false;
    }

    /** `getUserLocation`: the user's row, or null when there is none or the
        SELECT fails. */
    method GetUserLocation(pool: ConnectionPool, available: bool, executes: bool, userId: string)
      returns (threw: bool, location: Option<UserLocation>)
      modifies pool
      ensures pool.checkedOut == old(pool.checkedOut)
      ensures threw <==> !available
      ensures location == if available && executes then Lookup(rows, userId) else None
    {
      var ok := pool.GetConnection(available);
      if !ok {
        return true, None;
      }
      location := if executes then Lookup(rows, userId) else None;
      pool.Release();
      threw := false;
    }

    /** `deleteUserLocation`. */
    method DeleteUserLocation(pool: ConnectionPool, available: bool, executes: bool, userId: string)
      returns (threw: bool)
      requires Valid()
      modifies this, pool
      ensures Valid()
      ensures pool.checkedOut == old(pool.checkedOut)
      ensures threw <==> !available
      ensures rows == if available && executes then old(rows) - {userId} else old(rows)
    {
      var ok := pool.GetConnection(available);
      if !ok {
        return true;
      }
      if executes {
        rows := rows - {userId};
      }
      pool.Release();
      threw := false;
    }

    /** `getAllUserLocations`: each pair of the projection once, in an
        order the database chooses; [] when the SELECT fails. */
    method GetAllUserLocations(pool: ConnectionPool, available: bool, executes: bool)
      returns (threw: bool, locations: seq<CityCountry>)
      modifies pool
      ensures pool.checkedOut == old(pool.checkedOut)
      ensures threw <==> !available
      ensures !(available && executes) ==> locations == []
      ensures available && executes ==>
        && NoDup(locations)
        && (forall i :: 0 <= i < |locations| ==> locations[i] in Projection(rows))
        && (forall cc :: cc in Projection(rows) ==> cc in locations)
    {
      var ok := pool.GetConnection(available);
      if !ok {
        return true, [];
      }
      locations := [];
      if executes {
        var all := Projection(rows);
        var remaining := all;
        while remaining != {}
          invariant remaining <= all
          invariant NoDup(locations)
          invariant forall i :: 0 <= i < |locations| ==> locations[i] in all && locations[i] !in remaining
          invariant forall cc :: cc in all ==> cc in remaining || cc in locations
          decreases |remaining|
        {
          var cc :| cc in remaining;
          locations := locations + [cc];
          remaining := remaining - {cc};
        }
      }
      pool.Release();
      threw := false;
    }
  }
}
