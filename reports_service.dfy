/**
  reportsService.js: the `user_reports` and `report_verifications` tables,
  the three statements that change them (`createReport`, `verifyReport`,
  `upvoteReport`) and the three queries over the active reports.
  The table `user_reports` is a sequence in `id` order: `AUTO_INCREMENT`
  gives the `k`-th inserted report the id `k`. `report_verifications` is a
  map keyed by its unique key (report, user). Whether each statement
  succeeds is an input; times are milliseconds of one clock, read by
  `Date.now()` and by SQL `NOW()` alike.
*/
module ReportsService {
  import opened Common
  import opened Sorting
  import opened Database

  /** `24 * 60 * 60 * 1000`: a report expires one day after it is created. */
  const DayMs: int := 86400000

  /** The fields of `reportData` that `createReport` reads. */
  datatype ReportInput = ReportInput(
    userId: string, reportType: string, title: string, description: Option<string>,
    latitude: int, longitude: int, locationName: Option<string>, city: Option<string>,
    country: Option<string>, severity: Option<string>, imageUrl: Option<string>,
    videoUrl: Option<string>)

  /** A row of `user_reports`. */
  datatype Report = Report(
    id: nat, userId: string, reportType: string, title: string, description: string,
    latitude: int, longitude: int, locationName: string, city: string, country: string,
    severity: string, imageUrl: Option<string>, videoUrl: Option<string>,
    expiresAt: int, createdAt: int, status: string, upvotes: int,
    verificationCount: nat, verified: bool)

  /** A row of `report_verifications`. */
  datatype Verification = Verification(
    reportId: int, userId: string, verificationType: string, comment: Option<string>, createdAt: int)

  /** `report_verifications`, keyed by its unique key (report_id, user_id). */
  type Verifications = map<(int, string), Verification>

  // ---------------------------------------------------------------------
  // createReport

  /** The row `createReport` inserts as report `id` at time `now`. The
      columns the INSERT does not name take the table's defaults: status
      'active', no upvotes, no verifications. */
  function NewReport(id: nat, input: ReportInput, now: int): (r: Report)
    ensures r.id == id && r.userId == input.userId && r.title == input.title
    ensures r.expiresAt == now + DayMs && r.createdAt == now
    ensures r.reportType == input.reportType && r.latitude == input.latitude && r.longitude == input.longitude
    ensures input.description.Some? ==> r.description == input.description.value
    ensures input.description.None? ==> r.description == ""
    ensures input.locationName.Some? ==> r.locationName == input.locationName.value
    ensures input.locationName.None? ==> r.locationName == ""
    ensures input.city.Some? ==> r.city == input.city.value
    ensures input.city.None? ==> r.city == ""
    ensures input.country.Some? ==> r.country == input.country.value
    ensures input.country.None? ==> r.country == ""
    ensures input.severity.None? || input.severity == Some("") ==> r.severity == "medium"
    ensures input.severity.Some? && input.severity.value != "" ==> r.severity == input.severity.value
    ensures r.imageUrl.Some? <==> input.imageUrl.Some? && input.imageUrl.value != ""
    ensures r.videoUrl.Some? <==> input.videoUrl.Some? && input.videoUrl.value != ""
    ensures r.imageUrl.Some? ==> r.imageUrl == input.imageUrl
    ensures r.videoUrl.Some? ==> r.videoUrl == input.videoUrl
    ensures r.status == "active" && r.upvotes == 0 && r.verificationCount == 0 && !r.verified
  {
    Report(id, input.userId, input.reportType, input.title, OrDefault(input.description, ""),
      input.latitude, input.longitude, OrDefault(input.locationName, ""),
      OrDefault(input.city, ""), OrDefault(input.country, ""),
      OrDefault(input.severity, "medium"), OrNull(input.imageUrl), OrNull(input.videoUrl),
      now + DayMs, now, "active", 0, 0, false)
  }

  /** `status = 'active' AND expires_at > NOW()`. */
  predicate Active(r: Report, now: int) {
    r.status == "active" && r.expiresAt > now
  }

  /** A new report is active for exactly one day from its creation. */
  lemma NewReportActiveForADay(id: nat, input: ReportInput, created: int, t: int)
    ensures Active(NewReport(id, input, created), t) <==> t < created + DayMs
  {
  }

  // ---------------------------------------------------------------------
  // verifyReport

  /** `INSERT ... ON DUPLICATE KEY UPDATE verification_type, comment`: a
      user's second verification of a report replaces the type and the
      comment of the first and keeps its `created_at`. */
  function Verify(v: Verifications, reportId: int, userId: string, verificationType: string,
                  comment: Option<string>, now: int): (w: Verifications)
    ensures w.Keys == v.Keys + {(reportId, userId)}
    ensures w[(reportId, userId)].verificationType == verificationType
    ensures w[(reportId, userId)].comment == comment
    ensures (reportId, userId) in v ==> w[(reportId, userId)].createdAt == v[(reportId, userId)].createdAt
    ensures forall k :: k in v && k != (reportId, userId) ==> w[k] == v[k]
  {
    var key := (reportId, userId);
    if key in v then v[key := v[key].(verificationType := verificationType, comment := comment)]
    else v[key := Verification(reportId, userId, verificationType, comment, now)]
  }

  /** The keys of the 'confirm' verifications of a report. */
  function ConfirmKeys(v: Verifications, reportId: int): set<(int, string)> {
    set k | k in v && k.0 == reportId && v[k].verificationType == "confirm"
  }

  /** `SELECT COUNT(*) ... WHERE report_id = ? AND verification_type = 'confirm'`. */
  function ConfirmCount(v: Verifications, reportId: int): nat {
    |ConfirmKeys(v, reportId)|
  }

  /** A verification moves the report's confirm count by at most one: it
      loses the user's previous confirm, if any, and gains the new one, if it
      is a confirm. */
  lemma ConfirmCountAfterVerify(v: Verifications, reportId: int, userId: string, verificationType: string,
                                comment: Option<string>, now: int)
    ensures ConfirmCount(Verify(v, reportId, userId, verificationType, comment, now), reportId)
            + (if (reportId, userId) in v && v[(reportId, userId)].verificationType == "confirm" then 1 else 0)
         == ConfirmCount(v, reportId) + (if verificationType == "confirm" then 1 else 0)
  {
    var w := Verify(v, reportId, userId, verificationType, comment, now);
    var key := (reportId, userId);
    var s := ConfirmKeys(v, reportId);
    var t := ConfirmKeys(w, reportId);
    forall k | k != key ensures k in s <==> k in t {
      if k in v {
        assert w[k] == v[k];
      }
    }
    assert s - {key} == t - {key};
    assert key in s <==> key in v && v[key].verificationType == "confirm";
    assert key in t <==> verificationType == "confirm";
    CardSwap(s, t, key);
  }

  /** A verification of one report leaves the other reports' counts alone. */
  lemma ConfirmCountOtherReport(v: Verifications, reportId: int, userId: string, verificationType: string,
                                comment: Option<string>, now: int, other: int)
    requires other != reportId
    ensures ConfirmCount(Verify(v, reportId, userId, verificationType, comment, now), other) == ConfirmCount(v, other)
  {
    var w := Verify(v, reportId, userId, verificationType, comment, now);
    forall k: (int, string) | k.0 == other ensures k in ConfirmKeys(w, other) <==> k in ConfirmKeys(v, other) {
      if k in v {
        assert w[k] == v[k];
      }
    }
    assert ConfirmKeys(w, other) == ConfirmKeys(v, other);
  }

  /** Two sets that agree but for `x` differ in size by whether each has `x`. */
  lemma CardSwap<T>(s: set<T>, t: set<T>, x: T)
    requires s - {x} == t - {x}
    ensures |t| + (if x in s then 1 else 0) == |s| + (if x in t then 1 else 0)
  {
    if x in s {
      assert s == (s - {x}) + {x};
    } else {
      assert s - {x} == s;
    }
    if x in t {
      assert t == (t - {x}) + {x};
    } else {
      assert t - {x} == t;
    }
  }

  /** Verifying twice with the same type and comment is verifying once. */
  lemma VerifyIdempotent(v: Verifications, reportId: int, userId: string, verificationType: string,
                         comment: Option<string>, now: int, later: int)
    ensures var w := Verify(v, reportId, userId, verificationType, comment, now);
      Verify(w, reportId, userId, verificationType, comment, later) == w
  {
    var w := Verify(v, reportId, userId, verificationType, comment, now);
    var w2 := Verify(w, reportId, userId, verificationType, comment, later);
    assert w2.Keys == w.Keys;
    forall k | k in w ensures w2[k] == w[k] {
    }
  }

  // ---------------------------------------------------------------------
  // UPDATE user_reports ... WHERE id = ?

  /** `UPDATE user_reports SET ... WHERE id = ?`: `change` applied to the
      rows with that id, none when there is none. */
  function UpdateWhere(rows: seq<Report>, id: int, change: Report -> Report): (r: seq<Report>)
    ensures |r| == |rows|
    ensures forall i :: 0 <= i < |rows| ==> r[i] == if rows[i].id == id then change(rows[i]) else rows[i]
  {
    seq(|rows|, i requires 0 <= i < |rows| => if rows[i].id == id then change(rows[i]) else rows[i])
  }

  /** `SET verification_count = ?, verified = ?` with `verificationCount >= 3`. */
  function Recount(count: nat): Report -> Report {
    (r: Report) => r.(verificationCount := count, verified := count >= 3)
  }

  /** `SET upvotes = upvotes + 1`. */
  function Upvote(r: Report): Report {
    r.(upvotes := r.upvotes + 1)
  }

  /** An upvote adds one to the report's trending score and changes no
      other column. */
  lemma UpvoteRaisesScore(r: Report)
    ensures Score(Upvote(r)) == Score(r) + 1
    ensures Upvote(r).(upvotes := r.upvotes) == r
  {
  }

  // ---------------------------------------------------------------------
  // The queries

  function CreatedAt(r: Report): int {
    r.createdAt
  }

  /** `upvotes + verification_count * 2`. */
  function Score(r: Report): int {
    r.upvotes + r.verificationCount * 2
  }

  function TrendKey(r: Report): (int, int) {
    (Score(r), r.createdAt)
  }

  /** `ORDER BY score DESC, created_at DESC`. */
  predicate Hotter(a: (int, int), b: (int, int)) {
    a.0 > b.0 || (a.0 == b.0 && a.1 >= b.1)
  }

  lemma HotterTotal()
    ensures TotalOrder(Hotter)
  {
  }

  predicate InCity(r: Report, city: string, now: int) {
    ToLower(r.city) == ToLower(city) && Active(r, now)
  }

  /** `getReportsByCity`: the active reports of the city, compared without
      case, newest first, at most `limit`. */
  function ReportsByCity(rows: seq<Report>, city: string, limit: int, now: int): seq<Report> {
    Limited(Sort(Filter(rows, (r: Report) => InCity(r, city, now)), CreatedAt, AtLeast), limit)
  }

  /** `getTrendingReports`: the active reports, highest score first and the
      newer first among equal scores, at most `limit`. */
  function TrendingReports(rows: seq<Report>, limit: int, now: int): seq<Report> {
    Limited(Sort(Filter(rows, (r: Report) => Active(r, now)), TrendKey, Hotter), limit)
  }

  /** `getReportsNearLocation`: the active reports within `radius` of the
      point, newest first, at most `limit`. `dist` is the spherical-law
      distance of the SQL expression. */
  function ReportsNear(rows: seq<Report>, lat: int, lng: int, radius: real, limit: int, now: int,
                       dist: (int, int, int, int) -> real): seq<Report> {
    Limited(Sort(Filter(rows, (r: Report) => Near(r, lat, lng, radius, now, dist)), CreatedAt, AtLeast), limit)
  }

  predicate Near(r: Report, lat: int, lng: int, radius: real, now: int, dist: (int, int, int, int) -> real) {
    Active(r, now) && dist(lat, lng, r.latitude, r.longitude) <= radius
  }

  /** City reports are the newest active reports of that city. */
  lemma ReportsByCitySpec(rows: seq<Report>, city: string, limit: int, now: int)
    ensures TopRows(rows, (r: Report) => InCity(r, city, now), CreatedAt, AtLeast, limit,
                    ReportsByCity(rows, city, limit, now))
  {
    AtLeastTotal();
    QueryIsTop(rows, (r: Report) => InCity(r, city, now), CreatedAt, AtLeast, limit);
  }

  /** Trending reports are the best-scored active reports. */
  lemma TrendingReportsSpec(rows: seq<Report>, limit: int, now: int)
    ensures TopRows(rows, (r: Report) => Active(r, now), TrendKey, Hotter, limit, TrendingReports(rows, limit, now))
  {
    HotterTotal();
    QueryIsTop(rows, (r: Report) => Active(r, now), TrendKey, Hotter, limit);
  }

  /** Nearby reports are the newest active reports within the radius. */
  lemma ReportsNearSpec(rows: seq<Report>, lat: int, lng: int, radius: real, limit: int, now: int,
                        dist: (int, int, int, int) -> real)
    ensures TopRows(rows, (r: Report) => Near(r, lat, lng, radius, now, dist), CreatedAt, AtLeast, limit,
                    ReportsNear(rows, lat, lng, radius, limit, now, dist))
  {
    AtLeastTotal();
    QueryIsTop(rows, (r: Report) => Near(r, lat, lng, radius, now, dist), CreatedAt, AtLeast, limit);
  }

  /** An expired report is in no query's answer. */
  lemma ExpiredReportsHidden(rows: seq<Report>, x: Report, city: string, lat: int, lng: int, radius: real,
                             limit: int, now: int, dist: (int, int, int, int) -> real)
    requires x.expiresAt <= now
    ensures x !in TrendingReports(rows, limit, now)
    ensures x !in ReportsByCity(rows, city, limit, now)
    ensures x !in ReportsNear(rows, lat, lng, radius, limit, now, dist)
  {
    TrendingReportsSpec(rows, limit, now);
    ReportsByCitySpec(rows, city, limit, now);
    ReportsNearSpec(rows, lat, lng, radius, limit, now, dist);
  }

  // ---------------------------------------------------------------------
  // The service

  /** Ids follow insertion order, and `verified` is the threshold on
      `verification_count`. */
  ghost predicate ReportsValid(rows: seq<Report>) {
    && (forall i :: 0 <= i < |rows| ==> rows[i].id == i + 1)
    && (forall i :: 0 <= i < |rows| ==> (rows[i].verified <==> rows[i].verificationCount >= 3))
  }

  /** Every verification is stored under its own (report, user) key. */
  ghost predicate VerificationsValid(v: Verifications) {
    forall k :: k in v ==> v[k].reportId == k.0 && v[k].userId == k.1
  }

  /** The upsert keeps every verification under its own key. */
  lemma VerifyKeepsValid(v: Verifications, reportId: int, userId: string, verificationType: string,
                         comment: Option<string>, now: int)
    requires VerificationsValid(v)
    ensures VerificationsValid(Verify(v, reportId, userId, verificationType, comment, now))
  {
  }

  /** Storing a recount keeps ids and the threshold, and the report with
      that id carries the count. */
  lemma RecountKeepsValid(rows: seq<Report>, id: int, count: nat)
    requires ReportsValid(rows)
    ensures ReportsValid(UpdateWhere(rows, id, Recount(count)))
    ensures 1 <= id <= |rows| ==>
      && UpdateWhere(rows, id, Recount(count))[id - 1].verificationCount == count
      && (UpdateWhere(rows, id, Recount(count))[id - 1].verified <==> count >= 3)
  {
  }

  class ReportStore {
    var reports: seq<Report>
    var verifications: Verifications

    /** Ids follow insertion order; every verification is stored under its
        own key; `verified` is the threshold on `verification_count`. */
    ghost predicate Valid()
      reads this
    {
      ReportsValid(reports) && VerificationsValid(verifications)
    }

    constructor ()
      ensures Valid() && reports == [] && verifications == map[]
    {
      reports := [];
      verifications := map[];
    }

    /** `createReport`. The pool handing out no connection and a failed
        INSERT both reach the caller as a thrown error, `None`; otherwise the
        result is the `insertId` of the new row. */
    method CreateReport(pool: ConnectionPool, available: bool, executes: bool, input: ReportInput, now: int)
      returns (id: Option<nat>)
      requires Valid()
      modifies this, pool
      ensures Valid()
      ensures pool.checkedOut == old(pool.checkedOut)
      ensures id.Some? <==> available && executes
      ensures id.Some? ==> id.value == |old(reports)| + 1 && reports == old(reports) + [NewReport(id.value, input, now)]
      ensures id.None? ==> reports == old(reports)
      ensures verifications == old(verifications)
    {
      var ok := pool.GetConnection(available);
      if !ok {
        return None;
      }
      if !executes {
        pool.Release();
        return None;
      }
      var newId := |reports| + 1;
      reports := reports + [NewReport(newId, input, now)];
      pool.Release();
      id := Some(newId);
    }

    /** `verifyReport`: upsert the verification, count the report's
        confirms, store the count and the threshold on the report. The three
        statements run outside a transaction: `upserts`, `counts` and
        `updates` say which succeed, and a failure keeps what the earlier
        ones did and answers false. */
    method VerifyReport(pool: ConnectionPool, available: bool, upserts: bool, counts: bool, updates: bool,
                        reportId: int, userId: string, verificationType: string, comment: Option<string>, now: int)
      returns (threw: bool, success: bool)
      requires Valid()
      modifies this, pool
      ensures Valid()
      ensures pool.checkedOut == old(pool.checkedOut)
      ensures threw <==> !available
      ensures success <==> available && upserts && counts && updates
      ensures verifications == if available && upserts
        then Verify(old(verifications), reportId, userId, verificationType, comment, now)
        else old(verifications)
      ensures reports == if success
        then UpdateWhere(old(reports), reportId, Recount(ConfirmCount(verifications, reportId)))
        else old(reports)
      ensures success && 1 <= reportId <= |reports| ==>
        && reports[reportId - 1].verificationCount == ConfirmCount(verifications, reportId)
        && (reports[reportId - 1].verified <==> ConfirmCount(verifications, reportId) >= 3)
    {
      var ok := pool.GetConnection(available);
      if !ok {
        return true, false;
      }
      threw := false;
      success := false;
      if upserts {
        VerifyKeepsValid(verifications, reportId, userId, verificationType, comment, now);
        verifications := Verify(verifications, reportId, userId, verificationType, comment, now);
        if counts {
          var count := ConfirmCount(verifications, reportId);
          if updates {
            RecountKeepsValid(reports, reportId, count);
            reports := UpdateWhere(reports, reportId, Recount(count));
            success := true;
          }
        }
      }
      pool.Release();
    }

    /** `upvoteReport`: one more upvote on the report with that id; false
        when the UPDATE fails. An id with no report changes nothing and
        still answers true. */
    method UpvoteReport(pool: ConnectionPool, available: bool, executes: bool, reportId: int, userId: string)
      returns (threw: bool, success: bool)
      requires Valid()
      modifies this, pool
      ensures Valid()
      ensures pool.checkedOut == old(pool.checkedOut)
      ensures threw <==> !available
      ensures success <==> available && executes
      ensures reports == if success then UpdateWhere(old(reports), reportId, Upvote) else old(reports)
      ensures verifications == old(verifications)
      ensures success && 1 <= reportId <= |reports| ==>
        reports[reportId - 1] == old(reports)[reportId - 1].(upvotes := old(reports)[reportId - 1].upvotes + 1)
    {
      var ok := pool.GetConnection(available);
      if !ok {
        return true, false;
      }
      threw := false;
      success := executes;
      if executes {
        reports := UpdateWhere(reports, reportId, Upvote);
      }
      pool.Release();
    }

    /** `getReportsByCity`; [] when the SELECT fails. */
    method GetReportsByCity(pool: ConnectionPool, available: bool, executes: bool, city: string, limit: int, now: int)
      returns (threw: bool, rows: seq<Report>)
      modifies pool
      ensures pool.checkedOut == old(pool.checkedOut)
      ensures threw <==> !available
      ensures rows == if available && executes then ReportsByCity(reports, city, limit, now) else []
    {
      var ok := pool.GetConnection(available);
      if !ok {
        return true, [];
      }
      rows := if executes then ReportsByCity(reports, city, limit, now) else [];
      pool.Release();
      threw := false;
    }

    /** `getTrendingReports`; [] when the SELECT fails. */
    method GetTrendingReports(pool: ConnectionPool, available: bool, executes: bool, limit: int, now: int)
      returns (threw: bool, rows: seq<Report>)
      modifies pool
      ensures pool.checkedOut == old(pool.checkedOut)
      ensures threw <==> !available
      ensures rows == if available && executes then TrendingReports(reports, limit, now) else []
    {
      var ok := pool.GetConnection(available);
      if !ok {
        return true, [];
      }
      rows := if executes then TrendingReports(reports, limit, now) else [];
      pool.Release();
      threw := false;
    }

    /** `getReportsNearLocation`; [] when the SELECT fails. */
    method GetReportsNearLocation(pool: ConnectionPool, available: bool, executes: bool, lat: int, lng: int,
                                  radius: real, limit: int, now: int, dist: (int, int, int, int) -> real)
      returns (threw: bool, rows: seq<Report>)
      modifies pool
      ensures pool.checkedOut == old(pool.checkedOut)
      ensures threw <==> !available
      ensures rows == if available && executes then ReportsNear(reports, lat, lng, radius, limit, now, dist) else []
    {
      var ok := pool.GetConnection(available);
      if !ok {
        return true, [];
      }
      rows := if executes then ReportsNear(reports, lat, lng, radius, limit, now, dist) else [];
      pool.Release();
      threw := false;
    }
  }
}
