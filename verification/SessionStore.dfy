/** The table of refresh-token sessions and the operations that change it in place. */
module SessionStore {
  import opened Wrappers
  import opened SessionRules

  /** The session holding a token in its current slot, or in its previous one. */
  method FindSession(rows: Rows, presented: int, byPrevious: bool) returns (found: Option<int>)
    ensures found.Some? ==>
      if byPrevious then HoldsPrevious(rows, found.value, presented) else HoldsToken(rows, found.value, presented)
    ensures found.None?
      ==> forall id :: !(if byPrevious then HoldsPrevious(rows, id, presented) else HoldsToken(rows, id, presented))
  {
    var ids := Elements(rows.Keys);
    for i := 0 to |ids|
      invariant forall j | 0 <= j < i ::
        !(if byPrevious then HoldsPrevious(rows, ids[j], presented) else HoldsToken(rows, ids[j], presented))
    {
      assert ids[i] in ids;
      if if byPrevious then rows[ids[i]].previous == Some(presented) else rows[ids[i]].token == presented {
        return Some(ids[i]);
      }
    }
    assert forall id | id in rows :: id in ids;
    found := None;
  }

  /** A user's live sessions in the order they are listed and retired by. */
  method ListLive(rows: Rows, user: int, now: int) returns (order: seq<int>)
    ensures LiveOrder(rows, user, now, order)
  {
    var ids := Elements(rows.Keys);
    order := [];
    for i := 0 to |ids|
      invariant Ordered(rows, order)
      invariant forall id :: id in order <==> id in ids[..i] && IsLive(rows, user, now, id)
    {
      assert ids[i] in ids;
      assert ids[..i + 1] == ids[..i] + [ids[i]];
      if IsLive(rows, user, now, ids[i]) && ids[i] !in order {
        order := InsertLive(rows, order, ids[i]);
      }
    }
    assert ids[..|ids|] == ids;
  }

  class Store {
    var rows: Rows
    var nextId: int

    /** `_maintain_user_sessions`: drop the expired, then everything past the first `max` of the rest. */
    method Maintain(user: int, now: int, max: nat)
      modifies this`rows
      ensures rows == Maintained(old(rows), user, now, max)
    {
      ghost var before := rows;
      rows := map id | id in rows && !(rows[id].user == user && rows[id].expires <= now) :: rows[id];
      var order := ListLive(rows, user, now);
      StillInOrder(before, rows, user, now, order);
      var excess := if max < |order| then order[max..] else [];
      rows := map id | id in rows && id !in excess :: rows[id];
      forall id | id in before ensures id in rows <==> IsKept(before, user, now, max, id) {
        if IsLive(before, user, now, id) {
          assert id in order;
          var p :| 0 <= p < |order| && order[p] == id;
          RankIsPosition(before, user, now, order, p);
          InTail(before, order, max, p);
        }
      }
      MapExt(rows, Maintained(before, user, now, max));
    }

    method Issue(cfg: Config, user: int, demo: bool, token: int, now: int) returns (id: int)
      modifies this
      ensures id == old(nextId) && nextId == id + 1
      ensures rows == Issued(cfg, old(rows), id, user, demo, token, now)
    {
      id := nextId;
      rows := rows[id := NewSession(cfg, user, token, now)];
      nextId := nextId + 1;
      Maintain(user, now, MaxActive(cfg, demo));
    }

    /**
     * `_load_rotatable_refresh`: find the session a token may rotate, ending it when the token is a replay or too old.
     */
    method Load(cfg: Config, presented: int, now: int) returns (r: Loaded)
      modifies this`rows
      ensures LoadsAs(cfg, old(rows), presented, now, r)
      ensures rows == AfterLoad(old(rows), r)
    {
      var byPrevious := false;
      var found := FindSession(rows, presented, false);
      if found.None? {
        byPrevious := true;
        found := FindSession(rows, presented, true);
        if found.None? {
          return Refused;
        }
      }
      r := Examine(cfg, rows, found.value, presented, byPrevious, now);
      rows := AfterLoad(rows, r);
    }

    /** The guarded update of `rotate_session`, then maintenance; refused when the guard no longer matches. */
    method Rotate(cfg: Config, k: Ticket, demo: bool, token: int) returns (ok: bool)
      modifies this`rows
      ensures ok == StillMatches(old(rows), k)
      ensures rows == AfterRotate(cfg, old(rows), k, demo, token)
    {
      ok := StillMatches(rows, k);
      if ok {
        rows := rows[k.id := Rotated(cfg, rows[k.id], k, token)];
        Maintain(k.user, k.now, MaxActive(cfg, demo));
      }
    }

    method List(cfg: Config, user: int, demo: bool, now: int) returns (order: seq<int>)
      modifies this`rows
      ensures rows == Maintained(old(rows), user, now, MaxActive(cfg, demo))
      ensures LiveOrder(rows, user, now, order)
    {
      Maintain(user, now, MaxActive(cfg, demo));
      order := ListLive(rows, user, now);
    }

    method RevokeToken(token: int)
      modifies this`rows
      ensures forall id :: id in rows <==> id in old(rows) && old(rows)[id].token != token
      ensures forall id | id in rows :: rows[id] == old(rows)[id]
    {
      rows := WithoutToken(rows, token);
    }

    method RevokeUser(user: int)
      modifies this`rows
      ensures forall id :: id in rows <==> id in old(rows) && old(rows)[id].user != user
      ensures forall id | id in rows :: rows[id] == old(rows)[id]
    {
      rows := WithoutUser(rows, user);
    }

    method RevokeSession(user: int, session: int) returns (removed: bool)
      modifies this`rows
      ensures removed <==> session in old(rows) && old(rows)[session].user == user
      ensures rows == if removed then old(rows) - {session} else old(rows)
    {
      removed := session in rows && rows[session].user == user;
      rows := WithoutSession(rows, user, session);
    }
  }

  lemma StillInOrder(before: Rows, after: Rows, user: int, now: int, order: seq<int>)
    requires Shrinks(before, after) && LiveOrder(after, user, now, order)
    requires forall id | IsLive(before, user, now, id) :: id in after
    ensures LiveOrder(before, user, now, order)
  {
    forall id ensures id in order <==> IsLive(before, user, now, id) {
      assert id in order <==> IsLive(after, user, now, id);
    }
    forall p | 0 <= p < |order| ensures order[p] in before {
      assert order[p] in order && IsLive(before, user, now, order[p]);
    }
    forall p, q | 0 <= p < q < |order| ensures Before(before, order[p], order[q]) {
      assert Before(after, order[p], order[q]);
    }
  }

  lemma InTail(rows: Rows, order: seq<int>, max: nat, p: nat)
    requires Ordered(rows, order) && p < |order|
    ensures max < |order| ==> (order[p] in order[max..] <==> max <= p)
  {
    if max < |order| && order[p] in order[max..] {
      var i :| max <= i < |order| && order[i] == order[p];
      if p < i {
        BeforeIsStrict(rows, order[p], order[i]);
      }
    }
    if max < |order| && max <= p {
      assert order[max..][p - max] == order[p];
    }
  }
}
