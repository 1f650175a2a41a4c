/**
 * The read-add-upsert step of `updScr` (main.go:114-128) on the table
 * value, and what a run of such steps leaves behind.
 */
module Scores {
  import opened GoInt
  import opened Standings

  /** `UpdReq` of main.go: the decoded body of `POST /score/update`. */
  datatype UpdReq = UpdReq(id: string, name: string, addScr: int64)

  /**
   * `SELECT scr FROM scores WHERE id = ?` scanned into `oldScr`: a missing
   * row (`sql.ErrNoRows`) leaves `oldScr` at its zero value.
   */
  function OldScore(t: Table, id: string): int64 {
    if id in t then t[id].scr else 0
  }

  /** `newScr := oldScr + req.AddScr`, with Go's int64 wrap-around. */
  function NewScore(t: Table, id: string, delta: int64): (r: int64)
    ensures id !in t ==> r == delta
    ensures id in t && Min <= t[id].scr + delta <= Max ==> r == t[id].scr + delta
    ensures ((if id in t then t[id].scr else 0) + delta - r) % Modulus == 0
  {
    Add(OldScore(t, id), delta)
  }

  /**
   * The upsert `INSERT ... ON CONFLICT(id) DO UPDATE SET name, scr` of the
   * new score: afterwards the id holds exactly (name, newScr), it is the
   * only key that may have been added, and every other row is as before.
   */
  function Apply(t: Table, req: UpdReq): (r: Table)
    ensures r.Keys == t.Keys + {req.id}
    ensures r[req.id] == Record(req.name, NewScore(t, req.id, req.addScr))
    ensures forall k :: k in t && k != req.id ==> r[k] == t[k]
  {
    t[req.id := Record(req.name, NewScore(t, req.id, req.addScr))]
  }

  /** Successful updates applied one after another, first to last. */
  function Replay(t: Table, reqs: seq<UpdReq>): Table
    decreases |reqs|
  {
    if reqs == [] then t else Replay(Apply(t, reqs[0]), reqs[1..])
  }

  function SumDeltas(reqs: seq<UpdReq>): int
    decreases |reqs|
  {
    if reqs == [] then 0 else reqs[0].addScr + SumDeltas(reqs[1..])
  }

  predicate AllFor(reqs: seq<UpdReq>, id: string) {
    forall i :: 0 <= i < |reqs| ==> reqs[i].id == id
  }

  /**
   * Updates to one id add up: its final score is its starting score plus
   * the sum of the deltas, wrapped to int64 once at the end (intermediate
   * wrap-arounds cancel out), and its name is that of the last request.
   */
  lemma {:induction false} ReplayOneId(t: Table, id: string, reqs: seq<UpdReq>)
    requires AllFor(reqs, id) && reqs != []
    ensures id in Replay(t, reqs)
    ensures Replay(t, reqs)[id] == Record(reqs[|reqs| - 1].name, Wrap(OldScore(t, id) + SumDeltas(reqs)))
    decreases |reqs|
  {
    var t' := Apply(t, reqs[0]);
    assert Replay(t, reqs) == Replay(t', reqs[1..]);
    if |reqs| == 1 {
      ApplyOwnRow(t, reqs[0], 0);
    } else {
      var rest := reqs[1..];
      ReplayOneId(t', id, rest);
      assert rest[|rest| - 1] == reqs[|reqs| - 1];
      ApplyOwnRow(t, reqs[0], SumDeltas(rest));
    }
  }

  /** The row an update writes, and how its score combines with later deltas. */
  lemma ApplyOwnRow(t: Table, req: UpdReq, later: int)
    ensures OldScore(Apply(t, req), req.id) == Wrap(OldScore(t, req.id) + req.addScr)
    ensures Wrap(OldScore(Apply(t, req), req.id) + later) == Wrap(OldScore(t, req.id) + (req.addScr + later))
  {
    AddWrapped(OldScore(t, req.id) + req.addScr, later);
  }

  /** Updates to one id never touch another id's row. */
  lemma {:induction false} ReplayOthers(t: Table, k: string, reqs: seq<UpdReq>)
    requires forall i :: 0 <= i < |reqs| ==> reqs[i].id != k
    ensures k in Replay(t, reqs) <==> k in t
    ensures k in t ==> Replay(t, reqs)[k] == t[k]
    decreases |reqs|
  {
    if reqs != [] {
      ReplayOthers(Apply(t, reqs[0]), k, reqs[1..]);
    }
  }

  /**
   * Starting from an empty table, a run of updates to one id leaves exactly
   * one row, whose score is the sum of the deltas (exactly that sum when it
   * fits an int64).
   */
  lemma ReplayFromEmpty(id: string, reqs: seq<UpdReq>)
    requires AllFor(reqs, id) && reqs != []
    ensures Replay(map[], reqs).Keys == {id}
    ensures Replay(map[], reqs)[id].scr == Wrap(SumDeltas(reqs))
    ensures Min <= SumDeltas(reqs) <= Max ==> Replay(map[], reqs)[id].scr == SumDeltas(reqs)
  {
    ReplayOneId(map[], id, reqs);
    forall k | k in Replay(map[], reqs)
      ensures k == id
    {
      if k != id {
        ReplayOthers(map[], k, reqs);
      }
    }
  }
}
