# Leaderboard score store

A Dafny model of the score service in `main.go`: a `scores` table keyed by
player id, the `getTop` query that lists the top players with 1-based
ranks, the score update of `POST /score/update` (read the old score, add the
delta, upsert, commit, then compare the top list before and after), and the
`limit` parameter of `GET /leaderboard`.

Files, one module each:

- `wrappers.dfy` (`Wrappers`): `Option` and `Result`.
- `go_int.dfy` (`GoInt`): Go's `int64`, with the two's-complement wrap-around of `+` written out.
- `limit.dfy` (`Limit`): Go's `strconv.Atoi` and the default-10 rule of `getLdr`, with a decimal printer as its inverse.
- `standings.dfy` (`Standings`): table rows, leaderboard entries, `IsTop` (what a `getTop` result may be) and the `changed` comparison.
- `scores.dfy` (`Scores`): one update as a function on the table (`Apply`) and what a run of updates leaves (`Replay`).
- `server.dfy` (`Service`): class `Server`, whose `scores` field is the table; methods `GetTop`, `GetLeaderboard` and `Update`.
- `scenarios.dfy` (`Scenarios`): concrete runs: first, second and zero-delta update of one player, two tied rows, a read cut short, and `limit=2` over three rows.

Modelling choices:

- Ties are left open. `IsTop` admits any score-descending order of the
  rows, cut to the limit. `GetTop` reads the highest unread row each step and
  may pick any one among equal scores. `TopScoresDetermined` proves that only
  the order among tied rows is free: every possible result has the same
  scores in the same places. `TopUnique` proves that the result is unique
  when no two scores are equal. Because `changed` compares ids position by
  position, two reads of the same tied rows in different orders count as
  changed (`Scenarios.TiedRowsMayReorder`). So in the model, an update that
  moves no id and no score in the window can still report `changed` true.
- A negative limit is passed unchanged into `LIMIT` (main.go:64, 182-183).
  SQLite reads a negative `LIMIT` as no limit, so `RowLimit` returns every
  row in that case.
- Scores are int64. `newScr := oldScr + req.AddScr` wraps around like Go
  (`GoInt.Add`). `ReplayFromEmpty` states the sum of the deltas wrapped
  once to int64, and the exact sum whenever that sum fits.
- Each storage call that can fail is a parameter: a `ReadFault` for each
  `getTop` run and a boolean for each transaction step, gathered in
  `Failures`. A body that does not decode is `req == None`. The transaction
  works on a copy of the table (`tx`), and only the commit assigns it to `scores`. So every failure
  before the commit leaves the table unchanged, which is what the deferred
  `tx.Rollback` does.

What the code does at its edges:

- A second update that leaves a player alone at rank 1 but raises their
  score makes `changed` true, because main.go:156 compares `Scr` as well as
  `Id` (`Scenarios.SecondUpdate`). An update by 0 leaves `changed` false
  (`Scenarios.ZeroUpdate`).
- `getTop` never calls `rows.Err()` (main.go:75-89). When iteration fails
  partway, `rows.Next()` returns false and the rows read so far come back
  as a success. `ReadFault.StopsAfter(n)` models this: `GetTop` then returns
  a shorter list that is still a correctly ranked, score-descending prefix
  (`IsTopPrefix`). That list reaches `getLdr`'s output and the `changed`
  comparison, which can then report a change on a table that did not change
  (`Scenarios.TruncatedReadChanged`).
- A lookup failure other than "no rows" (main.go:116-117) returns without
  writing any response, so no internal error is reported. The model
  returns `Err(LookupFailed)` and leaves the table unchanged.
- A negative limit is not rejected. It lists the whole table (`Standings.TopListsEveryRow`).
- The branch at main.go:161-163 can never run, because the lengths are equal
  and the current list is empty there. `ComputeChanged` keeps it as written.

## Model

| member | source | states |
|---|---|---|
| `GoInt.Add` | main.go:120 | Go's int64 `+`: the exact sum when it fits, otherwise the sum shifted by 2^64 into range |
| `GoInt.AddWrapped` | main.go:120 | wrapping an intermediate sum does not change the wrapped total, so repeated int64 additions equal one wrapped sum |
| `Limit.ParseLimit` | main.go:179-185 | the limit is 10 when the parameter is empty or not an integer `strconv.Atoi` accepts, and the parsed value otherwise |
| `Limit.AtoiDecimal` | main.go:182 | every int64 printed in decimal is parsed back to itself |
| `Limit.ParseLimitDecimal` | main.go:179-185 | `?limit=N` for any int64 N, negative ones included, selects exactly N |
| `Limit.ParseLimitNonNumeric` | main.go:181-184 | a parameter containing a character that is neither a digit nor a leading sign leaves the default 10 |
| `Standings.RowLimit` | main.go:60-65 | `LIMIT lmt` keeps at most `lmt` rows and never more than the table has; fewer than the table only when it is exactly `lmt` |
| `Standings.TopScoresDetermined` | main.go:60-65 | any two possible results of the same `getTop` have the same length and the same score at every position |
| `Standings.PrefixScoresAgree` | main.go:60-89 | two reads of the same query, either possibly cut short by an iteration error, show the same score at every position both reached |
| `Standings.TopUnique` | main.go:60-65 | when no two rows share a score, the `getTop` result is fully determined |
| `Standings.TopLeaderIsMax` | main.go:60-89 | the first entry of a non-empty top list, complete or cut short, holds the highest score in the table |
| `Standings.TopListsEveryRow` | main.go:59-65 | with a negative limit, or one at least the table's size, the top list contains every row's id |
| `Standings.ChangedIffStandingDiffers` | main.go:150-164 | `changed` is false exactly when both lists show the same ids with the same scores in the same order (so two empty lists are unchanged); names and ranks are ignored |
| `Standings.ComputeChanged` | main.go:150-164 | the loop with its early break returns true exactly when the lengths differ or some aligned pair differs in `Id` or `Scr` |
| `Scores.NewScore` | main.go:114-120 | a missing row counts as score 0; otherwise the new score is the old one plus `AddScr` (congruent modulo 2^64, equal when it fits) |
| `Scores.Apply` | main.go:122-128 | after the upsert, the id maps to exactly (name, new score), no other key is added, and every other row is unchanged |
| `Scores.ReplayOneId` | main.go:114-128 | after a run of updates to one id, its score is the old score plus the sum of the deltas (wrapped to int64) and its name is the last one sent |
| `Scores.ReplayOthers` | main.go:122-128 | updates to one id leave every other id's row, and its presence or absence, as it was |
| `Scores.ReplayFromEmpty` | main.go:114-128 | from an empty table, updates to one id leave exactly one row, with the sum of the deltas as its score |
| `Service.Server.constructor` | main.go:44-50 | a newly created `scores` table is empty |
| `Service.Server.GetTop` | main.go:59-90 | a query or scan failure gives an error and no list; otherwise the entries are ranked 1, 2, ... by position, each a stored row, ids distinct, scores non-increasing, no unread row scoring higher than a kept one; there are `RowLimit` of them on a clean read and fewer when iteration stops early without an error |
| `Service.Server.GetLeaderboard` | main.go:176-193 | the entries are a (possibly cut short) top list for the parsed limit; on a clean read, 10 rows (or the whole table if smaller) when the parameter is empty or not numeric |
| `Service.Server.Update` | main.go:92-174 | an undecodable body or any failure before the commit leaves the table unchanged and reports the first failing step; after a commit the table is `Apply(old, req)`; on success `updated` holds, `curTop`/`newTop` are top-10 reads of the old and new table (complete on clean reads), and `changed` is their comparison |
| `Scenarios.FirstUpdate` | main.go:92-174 | Alice's first update of 10 on an empty table gives an empty `curTop`, `newTop` with Alice at rank 1 with 10, and `changed` true |
| `Scenarios.SecondUpdate` | main.go:150-164 | a second update of 5 brings Alice to 15, still alone at rank 1, and `changed` is true because the score differs |
| `Scenarios.ZeroUpdate` | main.go:150-164 | an update of Alice by 0 leaves her alone at rank 1 with 10, and `changed` is false |
| `Scenarios.TiedRowsMayReorder` | main.go:60-65 | two rows tied at 5 may be read in either order, and `changed` holds between the two orders |
| `Scenarios.TruncatedReadChanged` | main.go:75-89 | a read cut short by an iteration error, compared with a complete read of the same table, makes `changed` true |
| `Scenarios.LimitTwo` | main.go:59-90 | a limit of 2 over scores 30, 20, 10 gives exactly the two highest, ranked 1 and 2 |

## Left out

- HTTP routing, headers, status codes and JSON encoding and decoding in `updScr`, `getLdr` and `main`. A body that does not decode is the input `None`, and each error is an `Error` value.
- The SQLite driver, `sql.Open`, `initDB`'s `CREATE TABLE` error and the fatal start-up errors in `main`. They are foreign calls. The `scores` map stands in for the table, and each failing call is a flag in `Failures`.
- The race between the `curTop` read and the transaction (main.go:101 and 107). It only matters under concurrency, and the model runs one request at a time.
- `updated` from `RowsAffected` (main.go:136-137). That is driver behaviour. In the model a successful upsert always sets `updated`.
- Service.Server.GetTop: a failure of the query and a failure to scan a row (main.go:67-80) are one `ReadFails` fault, which returns no list. An iteration error after some rows is the separate `StopsAfter` fault, which returns those rows as a success.
- SQLite's own tie order and sorting algorithm. They are only specified through `IsTop`.
- sqlite/sql.go, a separate item service with an insert and a select-all handler and no logic of its own. It is not part of this model.
- src/append_user.py and append_user.py, which are HTTP client scripts. They are not part of this model.
