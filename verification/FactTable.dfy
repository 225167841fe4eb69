/** The rows of one metric and month, written row by row by a save that runs alone. */
module FactTable {
  import opened Wrappers
  import opened FactRows
  import opened FactOutcome
  import FactSaves

  /** What the editor shows, summed row by row. */
  method ShowRows(rows: set<Fact>) returns (v: Option<int>)
    ensures v == Shown(rows)
  {
    if rows == {} {
      return None;
    }
    var sum := 0.0;
    var rest := rows;
    while rest != {}
      invariant rest <= rows && sum + SumValues(rest) == SumValues(rows)
    {
      var f :| f in rest;
      SumSplits(rest, f);
      sum := sum + f.value;
      rest := rest - {f};
    }
    v := Some(RoundHalfUp(sum));
  }

  ghost predicate IsStored(rows: set<Fact>, k: Key, value: Option<int>, author: Option<int>) {
    Shown(RowsOf(rows, k)) == value && forall f | f in RowsOf(rows, k) :: f.author == author && f.full
  }

  method LeastKey(keys: set<Key>) returns (k: Key)
    requires keys != {}
    ensures k in keys && forall j | j in keys :: j == k || KeyLt(k, j)
  {
    var order := Elements(keys);
    assert Any(keys) in order;
    k := order[0];
    assert k in order;
    for i := 1 to |order|
      invariant k in keys && forall m | 0 <= m < i :: order[m] == k || KeyLt(k, order[m])
    {
      assert order[i] in order;
      if KeyLt(order[i], k) {
        k := order[i];
      }
    }
    assert forall j | j in keys :: j in order;
  }

  class Table {
    var rows: set<Fact>
    var nextId: int

    ghost predicate Valid()
      reads this
    {
      (forall f | f in rows :: f.id < nextId) && FactSaves.UniqueKeys(rows)
    }

    method ShowKeys(keys: set<Key>) returns (shown: map<Key, Option<int>>)
      ensures shown == FactSaves.ShownAll(FactSaves.Snapshot(rows, keys))
    {
      shown := map[];
      var rest := keys;
      while rest != {}
        invariant rest <= keys && shown.Keys == keys - rest
        invariant forall k | k in shown :: shown[k] == Shown(RowsOf(rows, k))
      {
        var k :| k in rest;
        var v := ShowRows(RowsOf(rows, k));
        shown := shown[k := v];
        rest := rest - {k};
      }
    }

    /** Replace the rows of one key: delete them all, then insert the new value if there is one. */
    method ReplaceKey(k: Key, value: Option<int>, author: Option<int>)
      requires Valid()
      modifies this
      ensures Valid()
      ensures IsStored(rows, k, value, author)
      ensures forall j | j != k :: RowsOf(rows, j) == RowsOf(old(rows), j)
    {
      rows := rows - RowsOf(rows, k);
      if value.Some? {
        var f := Fact(nextId, k, true, value.value as real, author);
        rows := rows + {f};
        nextId := nextId + 1;
        assert RowsOf(rows, k) == {f};
        ShownSingle(f, value.value);
      } else {
        assert RowsOf(rows, k) == {};
        FactSaves.ShownEmpty();
      }
      assert forall j | j != k :: RowsOf(rows, j) == RowsOf(old(rows), j);
    }

    /** `_write_manual_facts` with nobody else writing: refuse the whole batch, or write exactly its edits. */
    method WriteBatch(posts: map<Key, Post>, access: Access, author: Option<int>) returns (v: Verdict)
      requires Valid()
      modifies this
      ensures Valid()
      ensures v == Judge(posts, FactSaves.ShownAll(FactSaves.Snapshot(old(rows), posts.Keys)), access)
      ensures !v.Write? ==> rows == old(rows)
      ensures v.Write? ==> forall k | k in v.changes :: IsStored(rows, k, v.changes[k], author)
      ensures v.Write? ==> forall k | k !in v.changes :: RowsOf(rows, k) == RowsOf(old(rows), k)
      ensures forall k | RowsOf(rows, k) != RowsOf(old(rows), k) ::
        && k in posts && Permits(access, k, Shown(RowsOf(old(rows), k)))
        && IsStored(rows, k, posts[k].value, author)
    {
      ghost var was := rows;
      var shown := ShowKeys(posts.Keys);
      v := JudgeBatch(posts, shown, access);
      if !v.Write? {
        return;
      }
      WrittenExactly(posts, shown, access);
      WriteChanges(v.changes, author);
      forall k | RowsOf(rows, k) != RowsOf(was, k) ensures k in posts && shown[k] == Shown(RowsOf(was, k)) {
        assert k in v.changes;
      }
    }

    /** The changed keys in ascending order, each replaced. */
    method WriteChanges(changes: map<Key, Option<int>>, author: Option<int>)
      requires Valid()
      modifies this
      ensures Valid()
      ensures forall k | k in changes :: IsStored(rows, k, changes[k], author)
      ensures forall k | k !in changes :: RowsOf(rows, k) == RowsOf(old(rows), k)
    {
      var rest := changes.Keys;
      while rest != {}
        invariant Valid() && rest <= changes.Keys
        invariant forall k | k in changes.Keys - rest :: IsStored(rows, k, changes[k], author)
        invariant forall k | k !in changes.Keys - rest :: RowsOf(rows, k) == RowsOf(old(rows), k)
      {
        var k := LeastKey(rest);
        ghost var before := rows;
        ReplaceKey(k, changes[k], author);
        forall j | j in changes.Keys - rest ensures IsStored(rows, j, changes[j], author) {
          assert IsStored(before, j, changes[j], author);
        }
        rest := rest - {k};
      }
    }
  }
}
