/**
 * Concrete runs of the leaderboard: the expected outcomes for an empty
 * table, a first and a second update of one player, and a limited read.
 */
module Scenarios {
  import opened GoInt
  import opened Standings
  import opened Scores

  /**
   * `{id:"a", name:"Alice", addScr:10}` on an empty table: curTop is empty,
   * newTop is Alice alone at rank 1 with 10, and `changed` is true.
   */
  lemma FirstUpdate(cur: seq<Entry>, next: seq<Entry>)
    requires IsTop(map[], 10, cur)
    requires IsTop(Apply(map[], UpdReq("a", "Alice", 10)), 10, next)
    ensures Apply(map[], UpdReq("a", "Alice", 10)) == map["a" := Record("Alice", 10)]
    ensures cur == []
    ensures next == [Entry(1, "a", "Alice", 10)]
    ensures Changed(cur, next)
  {
    var t := map["a" := Record("Alice", 10)];
    assert Apply(map[], UpdReq("a", "Alice", 10)) == t;
    OnlyEntry(t, "a", next);
  }

  /**
   * A second `{id:"a", name:"Alice", addScr:5}` brings Alice to 15. She is
   * still the sole entry at rank 1, yet `changed` is true, because the
   * comparison looks at scores as well as ids.
   */
  lemma SecondUpdate(cur: seq<Entry>, next: seq<Entry>)
    requires IsTop(map["a" := Record("Alice", 10)], 10, cur)
    requires IsTop(Apply(map["a" := Record("Alice", 10)], UpdReq("a", "Alice", 5)), 10, next)
    ensures Apply(map["a" := Record("Alice", 10)], UpdReq("a", "Alice", 5)) == map["a" := Record("Alice", 15)]
    ensures next == [Entry(1, "a", "Alice", 15)]
    ensures Changed(cur, next)
  {
    var t := map["a" := Record("Alice", 10)];
    var t' := map["a" := Record("Alice", 15)];
    assert Apply(t, UpdReq("a", "Alice", 5)) == t';
    OnlyEntry(t, "a", cur);
    OnlyEntry(t', "a", next);
    assert Differs(cur[0], next[0]);
  }

  /**
   * An update of Alice by 0 leaves her alone at rank 1 with 10, and
   * `changed` is false.
   */
  lemma ZeroUpdate(cur: seq<Entry>, next: seq<Entry>)
    requires IsTop(map["a" := Record("Alice", 10)], 10, cur)
    requires IsTop(Apply(map["a" := Record("Alice", 10)], UpdReq("a", "Alice", 0)), 10, next)
    ensures next == cur == [Entry(1, "a", "Alice", 10)]
    ensures !Changed(cur, next)
  {
    var t := map["a" := Record("Alice", 10)];
    assert Apply(t, UpdReq("a", "Alice", 0)) == t;
    OnlyEntry(t, "a", cur);
    OnlyEntry(t, "a", next);
  }

  /**
   * Two rows tied at 5 may be read in either order, and the two orders
   * count as changed: with ties, `changed` can be true although no id and
   * no score in the window moved.
   */
  lemma TiedRowsMayReorder()
    ensures IsTop(TwoTied(), 10, [Entry(1, "a", "A", 5), Entry(2, "b", "B", 5)])
    ensures IsTop(TwoTied(), 10, [Entry(1, "b", "B", 5), Entry(2, "a", "A", 5)])
    ensures Changed([Entry(1, "a", "A", 5), Entry(2, "b", "B", 5)], [Entry(1, "b", "B", 5), Entry(2, "a", "A", 5)])
  {
    TiedInOrder("a", "A", "b", "B");
    TiedInOrder("b", "B", "a", "A");
    var ab := [Entry(1, "a", "A", 5), Entry(2, "b", "B", 5)];
    var ba := [Entry(1, "b", "B", 5), Entry(2, "a", "A", 5)];
    assert Differs(ab[0], ba[0]);
  }

  /** Either order of the two tied rows is a complete top list. */
  lemma TiedInOrder(x: string, xn: string, y: string, yn: string)
    requires TwoTied() == map[x := Record(xn, 5), y := Record(yn, 5)] && x != y
    ensures IsTop(TwoTied(), 10, [Entry(1, x, xn, 5), Entry(2, y, yn, 5)])
  {
    var t := TwoTied();
    var e := [Entry(1, x, xn, 5), Entry(2, y, yn, 5)];
    assert t.Keys == {x, y};
    assert |t| == 2;
    assert PrefixIds(e, 1) == {x};
    assert Ids(e) == t.Keys;
    assert Outranked(t, e);
  }

  function TwoTied(): Table {
    map["a" := Record("A", 5), "b" := Record("B", 5)]
  }

  /**
   * A read of the new top list that stops early (iteration error, which
   * `getTop` does not check) makes `changed` true on an unchanged table.
   */
  lemma TruncatedReadChanged(t: Table, cur: seq<Entry>, next: seq<Entry>)
    requires IsTop(t, 10, cur) && IsTopPrefix(t, 10, next)
    requires |next| < RowLimit(|t|, 10)
    ensures Changed(cur, next)
  {
  }

  /** In a one-row table, the only possible top list is that row at rank 1. */
  lemma OnlyEntry(t: Table, id: string, e: seq<Entry>)
    requires t.Keys == {id}
    requires IsTop(t, 10, e)
    ensures e == [Entry(1, id, t[id].name, t[id].scr)]
  {
    var w := [Entry(1, id, t[id].name, t[id].scr)];
    assert PrefixIds(w, 0) == {};
    assert Ids(w) == {id};
    assert IsTop(t, 10, w);
    TopUnique(t, 10, e, w);
  }

  /** `?limit=2` over scores 30, 20 and 10 gives exactly the two highest, ranked 1 and 2. */
  lemma LimitTwo(e: seq<Entry>)
    requires IsTop(ThreeRows(), 2, e)
    ensures e == [Entry(1, "a", "A", 30), Entry(2, "b", "B", 20)]
  {
    ThreeRowsFacts();
    TopUnique(ThreeRows(), 2, e, [Entry(1, "a", "A", 30), Entry(2, "b", "B", 20)]);
  }

  function ThreeRows(): Table {
    map["a" := Record("A", 30), "b" := Record("B", 20), "c" := Record("C", 10)]
  }

  lemma ThreeRowsFacts()
    ensures DistinctScores(ThreeRows())
    ensures IsTop(ThreeRows(), 2, [Entry(1, "a", "A", 30), Entry(2, "b", "B", 20)])
  {
    ThreeRowsDistinct();
    ThreeRowsTop();
  }

  lemma ThreeRowsDistinct()
    ensures DistinctScores(ThreeRows())
  {
    ThreeRowsShape();
  }

  lemma ThreeRowsTop()
    ensures IsTop(ThreeRows(), 2, [Entry(1, "a", "A", 30), Entry(2, "b", "B", 20)])
  {
    ThreeRowsShape();
    TopTwoIds();
    var t := ThreeRows();
    var w := [Entry(1, "a", "A", 30), Entry(2, "b", "B", 20)];
    assert forall k :: k in t && k !in Ids(w) ==> k == "c";
    assert Outranked(t, w);
  }

  lemma ThreeRowsShape()
    ensures ThreeRows().Keys == {"a", "b", "c"}
    ensures |ThreeRows()| == 3
  {
    assert ThreeRows().Keys == {"a", "b", "c"};
  }

  lemma TopTwoIds()
    ensures Ids([Entry(1, "a", "A", 30), Entry(2, "b", "B", 20)]) == {"a", "b"}
  {
    var w := [Entry(1, "a", "A", 30), Entry(2, "b", "B", 20)];
    assert PrefixIds(w, 1) == {"a"};
  }
}
