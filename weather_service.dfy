/**
  weatherService.js: classifying OpenWeatherMap alerts (`mapAlertType`,
  `mapSeverity`), the row stored for each alert and the save that
  `getWeatherAlerts` performs when alerts were returned.
  The HTTP request is an input: the alert list it produced
  (`response.data.alerts || []`), or `None` when it failed. Whether each
  INSERT succeeds is an input too.
*/
module WeatherService {
  import opened Common
  import opened Database

  /** An alert of the One Call API. `event` may be missing, and so may
      `sender_name` and `tags`. */
  datatype Alert = Alert(
    event: Option<string>, description: string, start: int, end: int,
    senderName: Option<string>, tags: Option<seq<string>>)

  // ---------------------------------------------------------------------
  // Classification

  const AlertTypes: set<string> := {"storm", "flood", "heat", "cold", "wind", "rain"}

  /** `mapAlertType`: the first keyword, in priority order, that the
      lowercased event contains; 'rain' when there is none. */
  function MapAlertType(event: string): (r: string)
    ensures r in AlertTypes
    ensures var e := ToLower(event);
      && (r == "storm" <==> Contains(e, "storm") || Contains(e, "thunder"))
      && (r == "flood" <==> !Contains(e, "storm") && !Contains(e, "thunder") && Contains(e, "flood"))
      && (r == "heat" <==> !Contains(e, "storm") && !Contains(e, "thunder") && !Contains(e, "flood")
                           && Contains(e, "heat"))
      && (r == "cold" <==> !Contains(e, "storm") && !Contains(e, "thunder") && !Contains(e, "flood")
                           && !Contains(e, "heat") && Contains(e, "cold"))
      && (r == "wind" <==> !Contains(e, "storm") && !Contains(e, "thunder") && !Contains(e, "flood")
                           && !Contains(e, "heat") && !Contains(e, "cold") && Contains(e, "wind"))
      && (r == "rain" <==> !Contains(e, "storm") && !Contains(e, "thunder") && !Contains(e, "flood")
                           && !Contains(e, "heat") && !Contains(e, "cold") && !Contains(e, "wind"))
  {
    var e := ToLower(event);
    if Contains(e, "storm") || Contains(e, "thunder") then "storm"
    else if Contains(e, "flood") then "flood"
    else if Contains(e, "heat") then "heat"
    else if Contains(e, "cold") then "cold"
    else if Contains(e, "wind") then "wind"
    else if Contains(e, "rain") then "rain"
    else "rain"
  }

  lemma LowerCharIdempotent(c: char)
    ensures LowerChar(LowerChar(c)) == LowerChar(c)
  {
  }

  /** Lowercasing twice is lowercasing once. */
  lemma ToLowerIdempotent(s: string)
    ensures ToLower(ToLower(s)) == ToLower(s)
  {
    forall i | 0 <= i < |s| ensures ToLower(ToLower(s))[i] == ToLower(s)[i] {
      LowerCharIdempotent(s[i]);
    }
  }

  /** The match ignores the case of the ASCII letters: events that agree
      once lowercased get the same type, the lowercased event included. */
  lemma MapAlertTypeIgnoresCase(event: string, other: string)
    ensures ToLower(event) == ToLower(other) ==> MapAlertType(event) == MapAlertType(other)
    ensures MapAlertType(ToLower(event)) == MapAlertType(event)
  {
    ToLowerIdempotent(event);
  }

  /** A keyword of higher priority wins: an event that mentions thunder is
      a storm whatever else it mentions. */
  lemma ThunderAlwaysStorm(event: string)
    requires Contains(ToLower(event), "thunder")
    ensures MapAlertType(event) == "storm"
  {
  }

  const Severities: set<string> := {"extreme", "severe", "moderate", "minor"}

  /** `mapSeverity`: 'moderate' for missing or empty tags; otherwise the
      first of Extreme, Severe, Moderate among the tags, 'minor' when none
      is. */
  function MapSeverity(tags: Option<seq<string>>): (r: string)
    ensures r in Severities
    ensures tags.None? || tags.value == [] ==> r == "moderate"
    ensures tags.Some? && tags.value != [] ==>
      && (r == "extreme" <==> "Extreme" in tags.value)
      && (r == "severe" <==> "Extreme" !in tags.value && "Severe" in tags.value)
      && (r == "moderate" <==> "Extreme" !in tags.value && "Severe" !in tags.value && "Moderate" in tags.value)
      && (r == "minor" <==> "Extreme" !in tags.value && "Severe" !in tags.value && "Moderate" !in tags.value)
  {
    if tags.None? || |tags.value| == 0 then "moderate"
    else if "Extreme" in tags.value then "extreme"
    else if "Severe" in tags.value then "severe"
    else if "Moderate" in tags.value then "moderate"
    else "minor"
  }

  // ---------------------------------------------------------------------
  // saveWeatherAlerts

  /** The parameters of one INSERT into `weather_alerts`; times in
      milliseconds. */
  datatype AlertRow = AlertRow(
    alertType: string, severity: string, title: string, description: string,
    latitude: int, longitude: int, city: string, country: string,
    startTime: int, endTime: int, source: string)

  /** The row of an alert with an event: the epoch-second bounds become
      milliseconds and the sender defaults to 'Weather Service'. */
  function AlertRowOf(alert: Alert, lat: int, lng: int, city: string, country: string): (r: AlertRow)
    requires alert.event.Some?
    ensures r.alertType in AlertTypes && r.severity in Severities
    ensures r.title == alert.event.value && r.description == alert.description
    ensures r.startTime == alert.start * 1000 && r.endTime == alert.end * 1000
    ensures r.source != ""
    ensures alert.senderName.Some? && alert.senderName.value != "" ==> r.source == alert.senderName.value
    ensures alert.senderName.None? || alert.senderName.value == "" ==> r.source == "Weather Service"
  {
    AlertRow(MapAlertType(alert.event.value), MapSeverity(alert.tags), alert.event.value, alert.description,
      lat, lng, city, country, alert.start * 1000, alert.end * 1000, OrDefault(alert.senderName, "Weather Service"))
  }

  /** The `j`-th alert ends the loop: its event is missing (so
      `toLowerCase` throws) or its INSERT fails. The `catch` is around the
      whole loop. */
  predicate Stops(alert: Alert, j: nat, executes: nat -> bool) {
    alert.event.None? || !executes(j)
  }

  /** The position of the first alert at or after `j` that ends the loop,
      or the number of alerts. */
  function FirstStop(alerts: seq<Alert>, executes: nat -> bool, j: nat): (n: nat)
    requires j <= |alerts|
    ensures j <= n <= |alerts|
    ensures forall k :: j <= k < n ==> !Stops(alerts[k], k, executes)
    ensures n < |alerts| ==> Stops(alerts[n], n, executes)
    decreases |alerts| - j
  {
    if j == |alerts| then j
    else if Stops(alerts[j], j, executes) then j
    else FirstStop(alerts, executes, j + 1)
  }

  function AlertRows(alerts: seq<Alert>, lat: int, lng: int, city: string, country: string): (rows: seq<AlertRow>)
    requires forall k :: 0 <= k < |alerts| ==> alerts[k].event.Some?
    ensures |rows| == |alerts|
    ensures forall k :: 0 <= k < |alerts| ==> rows[k] == AlertRowOf(alerts[k], lat, lng, city, country)
  {
    seq(|alerts|, k requires 0 <= k < |alerts| => AlertRowOf(alerts[k], lat, lng, city, country))
  }

  lemma AlertRowsSnoc(alerts: seq<Alert>, j: nat, lat: int, lng: int, city: string, country: string)
    requires j < |alerts|
    requires forall k :: 0 <= k <= j ==> alerts[k].event.Some?
    ensures AlertRows(alerts[..j + 1], lat, lng, city, country)
         == AlertRows(alerts[..j], lat, lng, city, country) + [AlertRowOf(alerts[j], lat, lng, city, country)]
  {
    var a := alerts[..j + 1];
    assert a[..j] == alerts[..j];
    var l := AlertRows(a, lat, lng, city, country);
    var r := AlertRows(alerts[..j], lat, lng, city, country) + [AlertRowOf(alerts[j], lat, lng, city, country)];
    assert |l| == |r|;
    forall k | 0 <= k < |l| ensures l[k] == r[k] {
      if k < j {
        assert a[k] == alerts[..j][k];
      }
    }
  }

  /** The rows `saveWeatherAlerts` stores: those of the alerts before the
      first one that ends the loop. */
  function SavedAlertRows(alerts: seq<Alert>, lat: int, lng: int, city: string, country: string, executes: nat -> bool)
    : (rows: seq<AlertRow>)
    ensures |rows| <= |alerts|
    ensures (forall k :: 0 <= k < |alerts| ==> !Stops(alerts[k], k, executes)) ==> |rows| == |alerts|
  {
    var n := FirstStop(alerts, executes, 0);
    AlertRows(alerts[..n], lat, lng, city, country)
  }

  /** `saveWeatherAlerts`. `threw` is the call that throws because the pool
      handed out no connection. */
  method SaveWeatherAlerts(pool: ConnectionPool, available: bool, alerts: seq<Alert>,
                           lat: int, lng: int, city: string, country: string, executes: nat -> bool)
    returns (threw: bool, inserted: seq<AlertRow>)
    modifies pool
    ensures pool.checkedOut == old(pool.checkedOut)
    ensures threw <==> !available
    ensures inserted == if available then SavedAlertRows(alerts, lat, lng, city, country, executes) else []
  {
    var ok := pool.GetConnection(available);
    if !ok {
      return true, [];
    }
    var n := FirstStop(alerts, executes, 0);
    inserted := [];
    var j := 0;
    while j < |alerts|
      invariant 0 <= j <= n
      invariant pool.checkedOut == old(pool.checkedOut) + 1
      invariant inserted == AlertRows(alerts[..j], lat, lng, city, country)
    {
      var alert := alerts[j];
      if alert.event.None? {
        break;
      }
      var row := AlertRowOf(alert, lat, lng, city, country);
      if !executes(j) {
        break;
      }
      AlertRowsSnoc(alerts, j, lat, lng, city, country);
      inserted := inserted + [row];
      j := j + 1;
    }
    pool.Release();
    threw := false;
  }

  /** `getWeatherAlerts`: the alerts the request returned, saved first when
      there are any. A failed request gives [], and so does a save that
      throws, since it is awaited inside the same `try`. */
  method GetWeatherAlerts(pool: ConnectionPool, fetched: Option<seq<Alert>>, available: bool,
                          lat: int, lng: int, city: string, country: string, executes: nat -> bool)
    returns (alerts: seq<Alert>, inserted: seq<AlertRow>)
    modifies pool
    ensures pool.checkedOut == old(pool.checkedOut)
    ensures fetched.None? ==> alerts == [] && inserted == []
    ensures fetched.Some? && fetched.value == [] ==> alerts == [] && inserted == []
    ensures fetched.Some? && fetched.value != [] ==>
      && alerts == (if available then fetched.value else [])
      && inserted == (if available then SavedAlertRows(fetched.value, lat, lng, city, country, executes) else [])
  {
    if fetched.None? {
      return [], [];
    }
    alerts := fetched.value;
    inserted := [];
    if |alerts| > 0 {
      var threw;
      threw, inserted := SaveWeatherAlerts(pool, available, alerts, lat, lng, city, country, executes);
      if threw {
        return [], [];
      }
    }
  }
}
