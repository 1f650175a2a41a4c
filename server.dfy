/**
 * `Server` of main.go: the score store behind `POST /score/update` and
 * `GET /leaderboard`. The SQLite table is the `scores` field; every call
 * the driver can fail is a parameter (`ReadFault`, `Failures`).
 */
module Service {
  import opened Wrappers
  import opened GoInt
  import opened Limit
  import opened Standings
  import opened Scores

  /** Why a request produced no result. */
  datatype Error =
    | MalformedJson     // the body did not decode: 400
    | TopReadFailed     // reading the top list failed: 500
    | TxBeginFailed     // `db.Begin` failed: 500
    | LookupFailed      // the old-score lookup failed other than by "no rows": the handler returns without writing
    | UpsertFailed      // the upsert failed: 500
    | CommitFailed      // `tx.Commit` failed: 500
    | NewTopReadFailed  // the update is committed, but reading the new top failed: 500

  /**
   * How one run of `getTop` against the driver goes. `ReadFails`: the query
   * or a row scan fails, and `getTop` returns an error. `StopsAfter(n)`:
   * iteration fails after n rows; `rows.Next()` then returns false, and as
   * `rows.Err()` is never consulted, the rows read so far come back as a
   * success.
   */
  datatype ReadFault = Clean | ReadFails | StopsAfter(rows: nat)

  /** Which storage calls fail during one update request. */
  datatype Failures = Failures(
    topBefore: ReadFault, begin: bool, lookup: bool, upsert: bool, commit: bool, topAfter: ReadFault)

  /** `UpdResp` of main.go. */
  datatype UpdResp = UpdResp(updated: bool, curTop: seq<Entry>, newTop: seq<Entry>, changed: bool)

  /** The update reaches `tx.Commit` and the commit succeeds. */
  predicate Commits(req: Option<UpdReq>, f: Failures) {
    req.Some? && !f.topBefore.ReadFails? && !f.begin && !f.lookup && !f.upsert && !f.commit
  }

  /** The first failing step of an update, in the order `updScr` performs them. */
  function FirstFailure(req: Option<UpdReq>, f: Failures): Error
    requires !(Commits(req, f) && !f.topAfter.ReadFails?)
  {
    if req.None? then MalformedJson
    else if f.topBefore.ReadFails? then TopReadFailed
    else if f.begin then TxBeginFailed
    else if f.lookup then LookupFailed
    else if f.upsert then UpsertFailed
    else if f.commit then CommitFailed
    else NewTopReadFailed
  }

  class Server {
    var scores: Table

    /** A freshly created database: `CREATE TABLE IF NOT EXISTS scores` on an empty file. */
    constructor ()
      ensures scores == map[]
    {
      scores := map[];
    }

    /**
     * `getTop`: the query's cursor yields the highest-scoring row not yet
     * read (among equal scores, any of them) until `LIMIT lmt` rows are out,
     * or until iteration fails; each row is appended with rank `count`,
     * which starts at 1.
     */
    method GetTop(lmt: int, fault: ReadFault) returns (res: Result<seq<Entry>, Error>)
      ensures res.Err? <==> fault.ReadFails?
      ensures res.Err? ==> res.error == TopReadFailed
      ensures res.Ok? ==> IsTopPrefix(scores, lmt, res.value)
      ensures res.Ok? ==> |res.value| == ReadLength(|scores|, lmt, fault)
      ensures res.Ok? && fault.Clean? ==> IsTop(scores, lmt, res.value)
    {
      if fault.ReadFails? {
        return Err(TopReadFailed);
      }
      var want := ReadLength(|scores|, lmt, fault);
      var unread := scores.Keys;
      var entry: seq<Entry> := [];
      var count := 1;
      while |entry| < want
        invariant count == |entry| + 1
        invariant |entry| <= want <= RowLimit(|scores|, lmt)
        invariant |unread| == |scores| - |entry|
        invariant ReadSoFar(scores, unread, entry)
        decreases want - |entry|
      {
        HighestExists(scores, unread);
        var id :| id in unread && forall k :: k in unread ==> scores[k].scr <= scores[id].scr;
        ReadNext(scores, unread, entry, id);
        entry := entry + [Entry(count, id, scores[id].name, scores[id].scr)];
        unread := unread - {id};
        count := count + 1;
      }
      ReadAll(scores, unread, entry);
      return Ok(entry);
    }

    /** `getLdr`: the top list for the request's `limit` parameter. */
    method GetLeaderboard(limitParam: string, fault: ReadFault) returns (res: Result<seq<Entry>, Error>)
      ensures res.Err? <==> fault.ReadFails?
      ensures res.Ok? ==> IsTopPrefix(scores, ParseLimit(limitParam), res.value)
      ensures res.Ok? && fault.Clean? ==> IsTop(scores, ParseLimit(limitParam), res.value)
      ensures res.Ok? && fault.Clean? && (limitParam == "" || Atoi(limitParam).None?) ==> |res.value| == RowLimit(|scores|, DefaultLimit)
    {
      var lmt := ParseLimit(limitParam);
      res := GetTop(lmt, fault);
    }

    /**
     * `updScr`. `req` is `None` when the body is not valid JSON. The read,
     * add and upsert run on the transaction's copy of the table; only a
     * successful commit installs it, so any failure before that leaves the
     * table as it was (the deferred `tx.Rollback`).
     */
    method Update(req: Option<UpdReq>, f: Failures) returns (res: Result<UpdResp, Error>)
      modifies this
      ensures scores == if Commits(req, f) then Apply(old(scores), req.value) else old(scores)
      ensures res.Ok? <==> Commits(req, f) && !f.topAfter.ReadFails?
      ensures res.Err? ==> res.error == FirstFailure(req, f)
      ensures res.Ok? ==> res.value.updated
      ensures res.Ok? ==> IsTopPrefix(old(scores), DefaultLimit, res.value.curTop)
      ensures res.Ok? ==> |res.value.curTop| == ReadLength(|old(scores)|, DefaultLimit, f.topBefore)
      ensures res.Ok? ==> IsTopPrefix(scores, DefaultLimit, res.value.newTop)
      ensures res.Ok? ==> |res.value.newTop| == ReadLength(|scores|, DefaultLimit, f.topAfter)
      ensures res.Ok? && f.topBefore.Clean? ==> IsTop(old(scores), DefaultLimit, res.value.curTop)
      ensures res.Ok? && f.topAfter.Clean? ==> IsTop(scores, DefaultLimit, res.value.newTop)
      ensures res.Ok? ==> res.value.changed == Changed(res.value.curTop, res.value.newTop)
    {
      if req.None? {
        return Err(MalformedJson);
      }
      var r := req.value;

      var curTop := GetTop(DefaultLimit, f.topBefore);
      if curTop.Err? {
        return Err(TopReadFailed);
      }

      if f.begin {
        return Err(TxBeginFailed);
      }
      var tx := scores;

      var oldScr: int64 := 0;
      if f.lookup {
        return Err(LookupFailed);
      }
      if r.id in tx {
        oldScr := tx[r.id].scr;
      }

      var newScr := Add(oldScr, r.addScr);

      if f.upsert {
        return Err(UpsertFailed);
      }
      tx := tx[r.id := Record(r.name, newScr)];
      var updated := true;

      if f.commit {
        return Err(CommitFailed);
      }
      scores := tx;

      var newTop := GetTop(DefaultLimit, f.topAfter);
      if newTop.Err? {
        return Err(NewTopReadFailed);
      }

      var changed := ComputeChanged(curTop.value, newTop.value);
      return Ok(UpdResp(updated, curTop.value, newTop.value, changed));
    }
  }

  /** How many rows a read that does not fail outright returns. */
  function ReadLength(n: nat, lmt: int, fault: ReadFault): (k: nat)
    ensures k <= RowLimit(n, lmt)
    ensures fault.Clean? ==> k == RowLimit(n, lmt)
    ensures fault.StopsAfter? && fault.rows <= RowLimit(n, lmt) ==> k == fault.rows
  {
    if fault.StopsAfter? && fault.rows < RowLimit(n, lmt) then fault.rows else RowLimit(n, lmt)
  }

  /** Some unread row has the highest score among the unread rows. */
  lemma HighestExists(t: Table, s: set<string>)
    requires s != {} && s <= t.Keys
    ensures exists id :: id in s && forall k :: k in s ==> t[k].scr <= t[id].scr
  {
    var x :| x in s;
    if s != {x} {
      HighestExists(t, s - {x});
      var y :| y in s - {x} && forall k :: k in s - {x} ==> t[k].scr <= t[y].scr;
      if t[x].scr > t[y].scr {
        assert forall k :: k in s ==> t[k].scr <= t[x].scr;
      } else {
        assert forall k :: k in s ==> t[k].scr <= t[y].scr;
      }
    } else {
      assert forall k :: k in s ==> t[k].scr <= t[x].scr;
    }
  }

  /**
   * The loop state of `GetTop`: `entry` holds, ranked, the rows read so far,
   * `unread` the ids still to come, none scoring above a row already read.
   */
  predicate ReadSoFar(t: Table, unread: set<string>, entry: seq<Entry>) {
    && unread == t.Keys - Ids(entry)
    && Ranked(entry) && FromTable(t, entry) && DistinctIds(entry) && Descending(entry)
    && forall k, i :: k in unread && 0 <= i < |entry| ==> t[k].scr <= entry[i].scr
  }

  lemma {:induction false} PrefixIdsAppend(e: seq<Entry>, x: Entry, n: nat)
    requires n <= |e|
    ensures PrefixIds(e + [x], n) == PrefixIds(e, n)
  {
    if n > 0 {
      PrefixIdsAppend(e, x, n - 1);
    }
  }

  /** Reading the highest unread row next keeps the loop state. */
  lemma ReadNext(t: Table, unread: set<string>, entry: seq<Entry>, id: string)
    requires ReadSoFar(t, unread, entry)
    requires id in unread && forall k :: k in unread ==> t[k].scr <= t[id].scr
    ensures ReadSoFar(t, unread - {id}, entry + [Entry(|entry| + 1, id, t[id].name, t[id].scr)])
  {
    var next := entry + [Entry(|entry| + 1, id, t[id].name, t[id].scr)];
    PrefixIdsAppend(entry, next[|entry|], |entry|);
    assert Ids(next) == Ids(entry) + {id};
    PrefixIdsMembers(entry, |entry|, id);
    assert DistinctIds(next);
  }

  /** Once the loop stops, no unread row outranks a row that was read. */
  lemma ReadAll(t: Table, unread: set<string>, entry: seq<Entry>)
    requires ReadSoFar(t, unread, entry)
    ensures Outranked(t, entry)
  {
  }
}
