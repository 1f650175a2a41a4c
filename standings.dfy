/**
 * The `scores` table and the leaderboard read from it: `getTop`'s result
 * (main.go:59-90) and the `changed` comparison of two such results
 * (main.go:150-164).
 */
module Standings {
  import opened GoInt

  /** One row of `scores` without its key: `name TEXT, scr INTEGER`. */
  datatype Record = Record(name: string, scr: int64)

  /** The table, keyed by its primary key `id`; a map holds each id at most once. */
  type Table = map<string, Record>

  /** `Entry` of main.go: a row of the leaderboard with its 1-based rank. */
  datatype Entry = Entry(rank: int, id: string, name: string, scr: int64)

  /**
   * How many rows `LIMIT lmt` lets through from a table of n rows. SQLite
   * reads a negative limit as "no limit".
   */
  function RowLimit(n: nat, lmt: int): (k: nat)
    ensures lmt >= 0 ==> k <= lmt
    ensures k <= n
    ensures k < n ==> k == lmt
  {
    if lmt < 0 || lmt > n then n else lmt
  }

  /** The rank of each entry is its 1-based position. */
  predicate Ranked(e: seq<Entry>) {
    forall i :: 0 <= i < |e| ==> e[i].rank == i + 1
  }

  /** Every entry is a row of the table, as stored. */
  predicate FromTable(t: Table, e: seq<Entry>) {
    forall i :: 0 <= i < |e| ==> e[i].id in t && t[e[i].id] == Record(e[i].name, e[i].scr)
  }

  predicate DistinctIds(e: seq<Entry>) {
    forall i, j :: 0 <= i < j < |e| ==> e[i].id != e[j].id
  }

  /** `ORDER BY scr DESC`: scores never increase along the result. */
  predicate Descending(e: seq<Entry>) {
    forall i, j :: 0 <= i < j < |e| ==> e[i].scr >= e[j].scr
  }

  /** The ids of the first n entries. */
  function PrefixIds(e: seq<Entry>, n: nat): set<string>
    requires n <= |e|
  {
    if n == 0 then {} else PrefixIds(e, n - 1) + {e[n - 1].id}
  }

  function Ids(e: seq<Entry>): set<string> { PrefixIds(e, |e|) }

  /** No row left out of the result scores higher than a row kept in it. */
  predicate Outranked(t: Table, e: seq<Entry>) {
    forall k, i :: k in t && k !in Ids(e) && 0 <= i < |e| ==> t[k].scr <= e[i].scr
  }

  /**
   * `e` is what the cursor of `getTop(lmt)` on table `t` can have yielded
   * so far: rows of `t` in some score-descending order (the engine's order
   * among equal scores is left open), at most `LIMIT lmt` of them, each
   * carrying its 1-based rank, and no row still unread outranking one read.
   */
  predicate IsTopPrefix(t: Table, lmt: int, e: seq<Entry>) {
    && |e| <= RowLimit(|t|, lmt)
    && Ranked(e)
    && FromTable(t, e)
    && DistinctIds(e)
    && Descending(e)
    && Outranked(t, e)
  }

  /** `e` is a possible complete result of `getTop(lmt)`: the cursor ran to `LIMIT lmt`. */
  predicate IsTop(t: Table, lmt: int, e: seq<Entry>) {
    IsTopPrefix(t, lmt, e) && |e| == RowLimit(|t|, lmt)
  }

  lemma {:induction false} PrefixIdsMembers(e: seq<Entry>, n: nat, x: string)
    requires n <= |e|
    ensures x in PrefixIds(e, n) <==> exists j :: 0 <= j < n && e[j].id == x
  {
    if n > 0 {
      PrefixIdsMembers(e, n - 1, x);
    }
  }

  lemma {:induction false} PrefixIdsCard(e: seq<Entry>, n: nat)
    requires n <= |e|
    ensures |PrefixIds(e, n)| <= n
    ensures DistinctIds(e) ==> |PrefixIds(e, n)| == n
  {
    if n > 0 {
      PrefixIdsCard(e, n - 1);
      if DistinctIds(e) {
        PrefixIdsMembers(e, n - 1, e[n - 1].id);
      }
    }
  }

  /**
   * Within any two possible (possibly cut short) reads of the same query,
   * the score at a position of the first is at most the score there in the
   * second. (Pigeonhole: the i+1 leading ids of `a` would all have to sit
   * among the first i positions of `b`.)
   */
  lemma ScoreAtMost(t: Table, lmt: int, a: seq<Entry>, b: seq<Entry>, i: nat)
    requires IsTopPrefix(t, lmt, a) && IsTopPrefix(t, lmt, b)
    requires i < |a| && i < |b|
    ensures a[i].scr <= b[i].scr
  {
    if a[i].scr > b[i].scr {
      forall x | x in PrefixIds(a, i + 1)
        ensures x in PrefixIds(b, i)
      {
        AheadInBoth(t, lmt, a, b, i, x);
      }
      PrefixIdsCard(a, i + 1);
      PrefixIdsCard(b, i);
      SubsetCard(PrefixIds(a, i + 1), PrefixIds(b, i));
      assert false;
    }
  }

  /** A row that beats b[i] in score must appear in b before position i. */
  lemma AheadInBoth(t: Table, lmt: int, a: seq<Entry>, b: seq<Entry>, i: nat, x: string)
    requires FromTable(t, a) && Descending(a)
    requires FromTable(t, b) && Descending(b) && Outranked(t, b)
    requires i < |a| && i < |b| && a[i].scr > b[i].scr
    requires x in PrefixIds(a, i + 1)
    ensures x in PrefixIds(b, i)
  {
    PrefixIdsMembers(a, i + 1, x);
    var j :| 0 <= j < i + 1 && a[j].id == x;
    assert a[j].scr >= a[i].scr;
    assert x in t && t[x].scr == a[j].scr;
    PrefixIdsMembers(b, |b|, x);
    var m :| 0 <= m < |b| && b[m].id == x;
    assert t[x].scr == b[m].scr;
    assert m < i;
    PrefixIdsMembers(b, i, x);
  }

  lemma SubsetCard(s: set<string>, u: set<string>)
    requires s <= u
    ensures |s| <= |u|
  {
    assert u == s + (u - s);
  }

  /**
   * Two reads of the same query, either of them possibly cut short, show
   * the same score at every position both of them reached.
   */
  lemma PrefixScoresAgree(t: Table, lmt: int, a: seq<Entry>, b: seq<Entry>)
    requires IsTopPrefix(t, lmt, a) && IsTopPrefix(t, lmt, b)
    ensures forall i :: 0 <= i < |a| && i < |b| ==> a[i].scr == b[i].scr
  {
    forall i | 0 <= i < |a| && i < |b|
      ensures a[i].scr == b[i].scr
    {
      ScoreAtMost(t, lmt, a, b, i);
      ScoreAtMost(t, lmt, b, a, i);
    }
  }

  /**
   * Ties are the only freedom `getTop` has: every possible result of the
   * same query lists the same scores in the same order.
   */
  lemma TopScoresDetermined(t: Table, lmt: int, a: seq<Entry>, b: seq<Entry>)
    requires IsTop(t, lmt, a) && IsTop(t, lmt, b)
    ensures |a| == |b|
    ensures forall i :: 0 <= i < |a| ==> a[i].scr == b[i].scr
  {
    PrefixScoresAgree(t, lmt, a, b);
  }

  predicate DistinctScores(t: Table) {
    forall j, k :: j in t && k in t && j != k ==> t[j].scr != t[k].scr
  }

  /** When no two rows tie, the leaderboard is fully determined by the table. */
  lemma TopUnique(t: Table, lmt: int, a: seq<Entry>, b: seq<Entry>)
    requires IsTop(t, lmt, a) && IsTop(t, lmt, b)
    requires DistinctScores(t)
    ensures a == b
  {
    TopScoresDetermined(t, lmt, a, b);
    forall i | 0 <= i < |a|
      ensures a[i] == b[i]
    {
      assert t[a[i].id].scr == t[b[i].id].scr;
    }
  }

  /** The leader of a non-empty result holds the highest score in the whole table. */
  lemma TopLeaderIsMax(t: Table, lmt: int, e: seq<Entry>, k: string)
    requires IsTopPrefix(t, lmt, e) && |e| > 0
    requires k in t
    ensures t[k].scr <= e[0].scr
  {
    if k in Ids(e) {
      PrefixIdsMembers(e, |e|, k);
    }
  }

  /**
   * With no effective limit (negative, or at least the table's size) the
   * leaderboard lists every row of the table.
   */
  lemma TopListsEveryRow(t: Table, lmt: int, e: seq<Entry>)
    requires IsTop(t, lmt, e)
    requires lmt < 0 || lmt >= |t|
    ensures Ids(e) == t.Keys
  {
    PrefixIdsCard(e, |e|);
    forall x | x in Ids(e)
      ensures x in t
    {
      PrefixIdsMembers(e, |e|, x);
    }
    if k :| k in t.Keys && k !in Ids(e) {
      SubsetCard(Ids(e) + {k}, t.Keys);
      assert false;
    }
  }

  /** An entry changes the leaderboard when its id or its score differs. */
  predicate Differs(x: Entry, y: Entry) {
    x.id != y.id || x.scr != y.scr
  }

  /**
   * `changed` of `updScr`: the two top lists differ in length, or differ in
   * id or score at some aligned position. Names and ranks are not compared.
   */
  predicate Changed(cur: seq<Entry>, next: seq<Entry>) {
    |cur| != |next| || exists i :: 0 <= i < |cur| && Differs(cur[i], next[i])
  }

  /** The part of a leaderboard that `changed` looks at: (id, score) per position. */
  function Standing(e: seq<Entry>): (s: seq<(string, int64)>)
    ensures |s| == |e|
    ensures forall i :: 0 <= i < |e| ==> s[i] == (e[i].id, e[i].scr)
  {
    seq(|e|, i requires 0 <= i < |e| => (e[i].id, e[i].scr))
  }

  /**
   * `changed` is false exactly when the two lists show the same ids with the
   * same scores in the same order; in particular two empty lists are unchanged.
   */
  lemma ChangedIffStandingDiffers(cur: seq<Entry>, next: seq<Entry>)
    ensures Changed(cur, next) <==> Standing(cur) != Standing(next)
  {
    if Changed(cur, next) && |cur| == |next| {
      var i :| 0 <= i < |cur| && Differs(cur[i], next[i]);
      assert Standing(cur)[i] != Standing(next)[i];
    }
    if !Changed(cur, next) {
      assert forall i :: 0 <= i < |cur| ==> Standing(cur)[i] == Standing(next)[i];
    }
  }

  /** The loop at main.go:150-164, with its early break. */
  method ComputeChanged(cur: seq<Entry>, next: seq<Entry>) returns (changed: bool)
    ensures changed == Changed(cur, next)
  {
    changed := false;
    if |cur| != |next| {
      changed := true;
    } else {
      if |cur| > 0 {
        for i := 0 to |cur|
          invariant !changed
          invariant forall j :: 0 <= j < i ==> !Differs(cur[j], next[j])
        {
          if cur[i].id != next[i].id || cur[i].scr != next[i].scr {
            changed := true;
            break;
          }
        }
      } else if |next| > 0 {
        changed := true;
      }
    }
  }
}
