/**
  The part of the datastore the services see: a pool that hands out
  connections, the answer of one INSERT and the saved / duplicate / error
  bookkeeping that `saveArticles` and `saveScrapedArticles` share.
  SQL itself is not modelled: what the engine answers to a statement is an
  input of the model.
*/
module Database {
  import opened Common

  /** The connection pool of the mysql2 driver, reduced to the number of
      connections handed out and not released yet. */
  class ConnectionPool {
    var checkedOut: nat

    constructor ()
      ensures checkedOut == 0
    {
      checkedOut := 0;
    }

    /** `await db.getConnection()`. `available` says whether the pool hands
        out a connection; when it does not, the call throws. */
    method GetConnection(available: bool) returns (ok: bool)
      modifies this
      ensures ok == available
      ensures checkedOut == old(checkedOut) + (if ok then 1 else 0)
    {
      ok := available;
      if ok {
        checkedOut := checkedOut + 1;
      }
    }

    /** `connection.release()`. */
    method Release()
      requires checkedOut > 0
      modifies this
      ensures checkedOut == old(checkedOut) - 1
    {
      checkedOut := checkedOut - 1;
    }
  }

  /** What `connection.execute` did with one INSERT: it resolved with a
      result whose `affectedRows` is given, or it threw an error with the
      given message. */
  datatype ExecOutcome = Executed(affectedRows: int) | Threw(message: string)

  /** The answer the database gives to the insert of the `j`-th article of a
      batch. */
  type Outcomes = nat -> ExecOutcome

  /** Which of the three counters one article increments. */
  datatype Verdict = Saved | Duplicate | Failed

  /** The classification of newsService.js and scraperService.js:
      `affectedRows > 0` is a save, any other result a duplicate; a thrown
      error is a duplicate when its message contains 'Duplicate entry' and an
      error otherwise. */
  function Classify(o: ExecOutcome): (v: Verdict)
    ensures v == Saved <==> o.Executed? && o.affectedRows > 0
    ensures v == Duplicate <==>
      (o.Executed? && o.affectedRows <= 0) || (o.Threw? && Contains(o.message, "Duplicate entry"))
    ensures v == Failed <==> o.Threw? && !Contains(o.message, "Duplicate entry")
  {
    match o
    case Executed(n) => if n > 0 then Saved else Duplicate
    case Threw(m) => if Contains(m, "Duplicate entry") then Duplicate else Failed
  }

  datatype Tally = Tally(saved: nat, duplicates: nat, errors: nat)

  /** How many verdicts in `vs` are `v`. */
  function Count(vs: seq<Verdict>, v: Verdict): (n: nat)
    ensures n <= |vs|
  {
    if vs == [] then 0
    else Count(vs[..|vs| - 1], v) + (if vs[|vs| - 1] == v then 1 else 0)
  }

  /** The final values of `savedCount`, `duplicateCount` and `errorCount`. */
  function TallyOf(vs: seq<Verdict>): Tally {
    Tally(Count(vs, Saved), Count(vs, Duplicate), Count(vs, Failed))
  }

  /** One step of the counting loop: the counter the verdict names goes up. */
  function Bump(t: Tally, v: Verdict): (r: Tally)
    ensures r.saved + r.duplicates + r.errors == t.saved + t.duplicates + t.errors + 1
  {
    match v
    case Saved => t.(saved := t.saved + 1)
    case Duplicate => t.(duplicates := t.duplicates + 1)
    case Failed => t.(errors := t.errors + 1)
  }

  lemma TallySnoc(vs: seq<Verdict>, v: Verdict)
    ensures TallyOf(vs + [v]) == Bump(TallyOf(vs), v)
  {
    assert (vs + [v])[..|vs|] == vs;
  }

  /** Every article lands in exactly one counter. */
  lemma {:induction false} TallyTotal(vs: seq<Verdict>)
    ensures TallyOf(vs).saved + TallyOf(vs).duplicates + TallyOf(vs).errors == |vs|
    decreases |vs|
  {
    if vs != [] {
      var p := vs[..|vs| - 1];
      assert vs == p + [vs[|vs| - 1]];
      TallyTotal(p);
      TallySnoc(p, vs[|vs| - 1]);
    }
  }

  /** What one call of a batch-saving loop did: the final counters and the
      rows it handed to `connection.execute`, in order. */
  datatype BatchReport<R> = BatchReport(tally: Tally, executed: seq<R>)

  /** A timestamp in milliseconds written as `toISOString().slice(0, 19)`:
      the milliseconds are cut off, rounding down (also before 1970). */
  function WholeSeconds(ms: int): (r: int)
    ensures r <= ms < r + 1000
    ensures r % 1000 == 0
  {
    ms - ms % 1000
  }
}
