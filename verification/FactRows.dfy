/** Hand-entered facts of one metric and month: rows, what the editor shows, and how a posted batch is judged. */
module FactRows {
  import opened Wrappers

  datatype Key = Key(company: int, staff: int)

  /** `full` rows span the whole month and are unique per key; a legacy month may also be split over partial rows. */
  datatype Fact = Fact(id: int, key: Key, full: bool, value: real, author: Option<int>)

  predicate KeyLt(a: Key, b: Key) {
    a.company < b.company || (a.company == b.company && a.staff < b.staff)
  }

  function RowsOf(rows: set<Fact>, k: Key): set<Fact> {
    set f | f in rows && f.key == k
  }

  ghost function SumValues(rows: set<Fact>): real {
    if rows == {} then 0.0 else var f := Any(rows); f.value + SumValues(rows - {f})
  }

  /** The sum does not depend on the order rows are added in. */
  lemma {:induction false} SumSplits(rows: set<Fact>, f: Fact)
    requires f in rows
    ensures SumValues(rows) == f.value + SumValues(rows - {f})
  {
    var g := Any(rows);
    if f != g {
      SumSplits(rows - {g}, f);
      SumSplits(rows - {f}, g);
      assert rows - {g} - {f} == rows - {f} - {g};
    }
  }

  function RoundHalfUp(x: real): int {
    if x >= 0.0 then (x + 0.5).Floor else -((-x + 0.5).Floor)
  }

  /** What the editor shows for one key: nothing, or the rounded sum of its rows. */
  ghost function Shown(rows: set<Fact>): Option<int> {
    if rows == {} then None else Some(RoundHalfUp(SumValues(rows)))
  }

  lemma ShownSingle(f: Fact, v: int)
    requires f.value == v as real
    ensures Shown({f}) == Some(v)
  {
    SumSplits({f}, f);
    assert {f} - {f} == {};
  }

  // ---------------------------------------------------------------- judging a batch

  /** One posted row; an editor that sends no previous value is unversioned and posts `previous` as nothing. */
  datatype Post = Post(value: Option<int>, previous: Option<int>, versioned: bool)

  datatype Item = Item(key: Key, post: Post)

  /** The posted rows by key, or nothing when a key is posted twice. */
  method CollectPosts(items: seq<Item>) returns (posts: Option<map<Key, Post>>)
    ensures posts.None? <==> exists i, j :: 0 <= i < j < |items| && items[i].key == items[j].key
    ensures posts.Some? ==> forall k :: k in posts.value <==> exists i :: 0 <= i < |items| && items[i].key == k
    ensures posts.Some? ==> forall i | 0 <= i < |items| :: posts.value[items[i].key] == items[i].post
  {
    var found: map<Key, Post> := map[];
    for i := 0 to |items|
      invariant forall k :: k in found <==> exists j :: 0 <= j < i && items[j].key == k
      invariant forall j | 0 <= j < i :: found[items[j].key] == items[j].post
      invariant forall j, m | 0 <= j < m < i :: items[j].key != items[m].key
    {
      if items[i].key in found {
        return None;
      }
      found := found[items[i].key := items[i].post];
    }
    posts := Some(found);
  }

  /** The actor's branches and rows (all when absent), rows open for entry, branches that left before the month. */
  datatype Access = Access(companies: Option<set<int>>, open: set<Key>, allowed: Option<set<Key>>, departed: set<int>)

  datatype Verdict = Untouched | NotAllowed | Conflict | NotOpen | Foreign | Write(changes: map<Key, Option<int>>)

  predicate IsOutside(access: Access, k: Key) {
    access.companies.Some? && k.company !in access.companies.value
  }

  /** The row is an edit of what its editor was shown. */
  predicate IsEdit(p: Post, current: Option<int>) {
    p.value != p.previous && (p.versioned || p.value != current)
  }

  /** The row was changed by someone else since its editor loaded it. */
  predicate IsStale(p: Post, current: Option<int>) {
    if p.value == p.previous then !p.versioned && current.Some?
    else IsEdit(p, current) && current != p.previous
  }

  ghost function Changes(posts: map<Key, Post>, shown: map<Key, Option<int>>): map<Key, Option<int>>
    requires shown.Keys == posts.Keys
  {
    map k | k in posts && IsEdit(posts[k], shown[k]) :: posts[k].value
  }

  /** The verdict on a batch, check by check in the order they are made. */
  ghost function Judge(posts: map<Key, Post>, shown: map<Key, Option<int>>, access: Access): Verdict
    requires shown.Keys == posts.Keys
  {
    var closed := set k | k in posts && IsClosed(shown, access, k);
    if posts.Keys == {} then Untouched
    else if exists k | k in posts :: IsOutside(access, k) then NotAllowed
    else if exists k | k in closed :: posts[k].previous.Some? then Conflict
    else if exists k | k in closed :: posts[k].value.Some? then NotOpen
    else if access.allowed.Some? && !(posts.Keys <= access.allowed.value) then Foreign
    else if exists k | k in posts :: IsStale(posts[k], shown[k]) then Conflict
    else if Changes(posts, shown) == map[] then Untouched
    else if exists k | k in Changes(posts, shown) :: k.company in access.departed then NotOpen
    else Write(Changes(posts, shown))
  }

  predicate IsClosed(shown: map<Key, Option<int>>, access: Access, k: Key) {
    k !in access.open && k in shown && shown[k].None?
  }

  /** Rows not open for entry: was a value shown there, was one typed in? */
  method CheckClosed(posts: map<Key, Post>, shown: map<Key, Option<int>>, access: Access)
    returns (wasShown: bool, typedInto: bool)
    requires shown.Keys == posts.Keys
    ensures wasShown <==> exists k :: k in posts && IsClosed(shown, access, k) && posts[k].previous.Some?
    ensures typedInto <==> exists k :: k in posts && IsClosed(shown, access, k) && posts[k].value.Some?
  {
    var keys := Elements(posts.Keys);
    wasShown, typedInto := false, false;
    for i := 0 to |keys|
      invariant wasShown ==> exists k :: k in posts && IsClosed(shown, access, k) && posts[k].previous.Some?
      invariant typedInto ==> exists k :: k in posts && IsClosed(shown, access, k) && posts[k].value.Some?
      invariant forall j | 0 <= j < i && keys[j] in posts && IsClosed(shown, access, keys[j]) ::
        (posts[keys[j]].previous.Some? ==> wasShown) && (posts[keys[j]].value.Some? ==> typedInto)
    {
      var k := keys[i];
      assert k in keys;
      if IsClosed(shown, access, k) {
        wasShown := wasShown || posts[k].previous.Some?;
        typedInto := typedInto || posts[k].value.Some?;
      }
    }
    assert forall k | k in posts :: k in keys;
  }

  /** The edited rows, or nothing when some row went stale. */
  method CollectChanges(posts: map<Key, Post>, shown: map<Key, Option<int>>)
    returns (changes: Option<map<Key, Option<int>>>)
    requires shown.Keys == posts.Keys
    ensures changes.None? <==> exists k :: k in posts && IsStale(posts[k], shown[k])
    ensures changes.Some? ==> changes.value == Changes(posts, shown)
  {
    var keys := Elements(posts.Keys);
    var edits: map<Key, Option<int>> := map[];
    for i := 0 to |keys|
      invariant forall j | 0 <= j < i :: keys[j] in posts && !IsStale(posts[keys[j]], shown[keys[j]])
      invariant forall k | k in edits :: k in posts && IsEdit(posts[k], shown[k]) && edits[k] == posts[k].value
      invariant forall j | 0 <= j < i && keys[j] in posts && IsEdit(posts[keys[j]], shown[keys[j]]) :: keys[j] in edits
    {
      var k := keys[i];
      assert k in keys;
      var p, current := posts[k], shown[k];
      if p.value == p.previous {
        if !p.versioned && current.Some? {
          return None;
        }
      } else if p.versioned || p.value != current {
        if current != p.previous {
          return None;
        }
        edits := edits[k := p.value];
      }
    }
    assert forall k | k in posts :: k in keys;
    assert edits == Changes(posts, shown);
    changes := Some(edits);
  }

  /** `_write_manual_facts` up to its first write: the same verdict, found row by row. */
  method JudgeBatch(posts: map<Key, Post>, shown: map<Key, Option<int>>, access: Access) returns (v: Verdict)
    requires shown.Keys == posts.Keys
    ensures v == Judge(posts, shown, access)
  {
    if posts.Keys == {} {
      return Untouched;
    }
    if exists k | k in posts.Keys :: IsOutside(access, k) {
      return NotAllowed;
    }
    var wasShown, typedInto := CheckClosed(posts, shown, access);
    if wasShown {
      return Conflict;
    }
    if typedInto {
      return NotOpen;
    }
    if access.allowed.Some? && !(posts.Keys <= access.allowed.value) {
      return Foreign;
    }
    var changes := CollectChanges(posts, shown);
    if changes.None? {
      return Conflict;
    }
    if changes.value == map[] {
      return Untouched;
    }
    if exists k | k in changes.value.Keys :: k.company in access.departed {
      return NotOpen;
    }
    v := Write(changes.value);
  }

  /** A batch that is written changes rows whose shown value is what their editor was shown, and only edited ones. */
  lemma WrittenRowsWereFresh(posts: map<Key, Post>, shown: map<Key, Option<int>>, access: Access)
    requires shown.Keys == posts.Keys && Judge(posts, shown, access).Write?
    ensures var changes := Judge(posts, shown, access).changes;
      && changes.Keys <= posts.Keys
      && forall k | k in changes :: shown[k] == posts[k].previous && changes[k] == posts[k].value != posts[k].previous
  {
    forall k | k in Changes(posts, shown) ensures shown[k] == posts[k].previous {
      assert !IsStale(posts[k], shown[k]);
    }
  }
}
