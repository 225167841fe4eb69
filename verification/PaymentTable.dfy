/** The month's Yandex Pay rows, written by a save that runs alone. */
module PaymentTable {
  import opened Wrappers
  import opened PaymentSaves
  import opened PaymentOutcome

  /** A pending row is still what its editor saw, and its new pair is whole. */
  predicate IsFreshRow(cells: map<int, Cell>, stored: map<int, Option<Cell>>, posts: map<int, Post>, pending: map<int,
                       Entry>, b: int)
    requires b in pending && b in posts && b in stored
  {
    && stored[b] == Look(cells, b) && EntryOf(stored[b]) == posts[b].previous
    && (pending[b].amount.Some? <==> pending[b].through.Some?) && (stored[b].None? ==> pending[b].amount.Some?)
  }

  class Table {
    var cells: map<int, Cell>
    var nextId: int

    /** The rows as they are read for a batch. */
    method ReadRows(keys: set<int>) returns (stored: map<int, Option<Cell>>)
      ensures stored == Snapshot(cells, keys)
    {
      stored := map b | b in keys :: Look(cells, b);
    }

    /** One guarded write; `ok` is the row count being one. */
    method WriteRow(b: int, read: Option<Cell>, previous: Entry, value: Entry, author: Option<int>) returns (ok: bool)
      requires read.None? ==> value.amount.Some?
      requires value.amount.Some? <==> value.through.Some?
      modifies this
      ensures ok <==> if read.None? then b !in old(cells)
        else b in old(cells) && old(cells)[b].id == read.value.id && EntryOf(Some(old(cells)[b])) == previous
      ensures !ok ==> cells == old(cells)
      ensures ok ==> EntryOf(Look(cells, b)) == value && (b in cells ==> cells[b].author == author)
      // A new row takes the next id, a row written over keeps its own.
      ensures ok && b in cells ==> cells[b].id == if read.None? then old(nextId) else read.value.id
      ensures nextId == if ok && read.None? then old(nextId) + 1 else old(nextId)
      ensures forall c | c != b :: Look(cells, c) == Look(old(cells), c)
    {
      if read.None? {
        if b in cells {
          return false;
        }
        cells := cells[b := Cell(nextId, value.amount.value, value.through.value, author)];
        nextId := nextId + 1;
        return true;
      }
      if b !in cells || cells[b].id != read.value.id || EntryOf(Some(cells[b])) != previous {
        return false;
      }
      ok := true;
      if value.amount.None? {
        cells := map c | c in cells && c != b :: cells[c];
      } else {
        cells := cells[b := Cell(read.value.id, value.amount.value, value.through.value, author)];
      }
    }

    /**
     * `save_yandex_pay` with nobody else writing: the batch is refused whole, or every pending row takes its new pair
     * and no guard fails.
     */
    method SaveBatch(m: Month, today: int, open: set<int>, posts: map<int, Post>, author: Option<int>)
      returns (v: Verdict)
      requires m.start <= m.end && m.start <= today
      requires forall b | b in posts :: ValidPost(m, today, posts[b])
      modifies this
      ensures v == Judge(m, today, open, posts, Snapshot(old(cells), posts.Keys))
      ensures !v.Write? ==> cells == old(cells)
      ensures v.Write? ==> forall b | b in v.pending ::
        EntryOf(Look(cells, b)) == v.pending[b] && (b in cells ==> cells[b].author == author)
      ensures v.Write? ==> forall b | b !in v.pending :: Look(cells, b) == Look(old(cells), b)
      ensures forall b | Look(cells, b) != Look(old(cells), b) ::
        && b in open && b in posts && IsThere(Look(old(cells), b), posts[b].previous)
        && IsThere(Look(cells, b), Asked(m, today, posts[b].value))
    {
      var before := cells;
      var stored := ReadRows(posts.Keys);
      v := JudgeBatch(m, today, open, posts, stored);
      if !v.Write? {
        return;
      }
      WrittenRowsWereFresh(m, today, open, posts, stored);
      forall b | b in v.pending ensures b in posts && IsFreshRow(cells, stored, posts, v.pending, b) {
        assert stored[b] == Look(cells, b);
      }
      var failed := WriteRows(posts, stored, v.pending, author);
      cells := if failed then before else cells;
      v := if failed then Conflict else v;
      VerdictExactly(m, today, open, posts, stored);
      forall b | Look(cells, b) != Look(before, b)
        ensures b in open && b in posts && IsThere(Look(before, b), posts[b].previous)
        ensures IsThere(Look(cells, b), Asked(m, today, posts[b].value))
      {
        WrittenIsOpen(m, today, open, posts, stored, b);
      }
    }

    /** The pending rows in ascending order, each under its guard. */
    method WriteRows(posts: map<int, Post>, stored: map<int, Option<Cell>>, pending: map<int, Entry>,
                     author: Option<int>) returns (failed: bool)
      requires forall b | b in pending :: b in posts && b in stored && IsFreshRow(cells, stored, posts, pending, b)
      modifies this
      ensures !failed
      ensures forall b | b in pending ::
        EntryOf(Look(cells, b)) == pending[b] && (b in cells ==> cells[b].author == author)
      ensures forall b | b !in pending :: Look(cells, b) == Look(old(cells), b)
    {
      ghost var before := cells;
      var rest := pending.Keys;
      failed := false;
      while rest != {}
        invariant !failed && rest <= pending.Keys
        invariant forall b | b in pending && b !in rest ::
          EntryOf(Look(cells, b)) == pending[b] && (b in cells ==> cells[b].author == author)
        invariant forall b | b in rest || b !in pending :: Look(cells, b) == Look(before, b)
      {
        var b := Least(rest);
        assert b in pending && IsFreshRow(before, stored, posts, pending, b);
        assert Look(cells, b) == Look(before, b);
        var ok := WriteRow(b, stored[b], posts[b].previous, pending[b], author);
        failed := failed || !ok;
        rest := rest - {b};
      }
    }
  }
}
