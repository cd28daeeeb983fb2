// The task3 client of tasks/task3/client.cpp: the controlled player, the other
// shown entities, and the queue of entity updates received since the last frame.
// Each frame both vectors are sorted by id and the updates are merged into the
// entities with a two-index walk that advances only the update index on a match,
// so every queued update for an id is applied in turn and the last one wins.
module MergeClient {
  import opened Types
  import opened Zip

  /** PEntityUpdate: a new position and size for one entity. */
  datatype EntityUpdate = EntityUpdate(x: F32, y: F32, size: F32, id: u32)

  function FlatKey(e: FlatEntity): int { e.id }
  function UpdateKey(u: EntityUpdate): int { u.id }

  /** The fields an update writes: x, y and size. */
  function ApplyUpdate(e: FlatEntity, u: EntityUpdate): (r: FlatEntity)
    ensures r.x == u.x && r.y == u.y && r.size == u.size
    ensures r.color == e.color && r.id == e.id
  {
    e.(x := u.x, y := u.y, size := u.size)
  }

  /** The merge loop from indices i and j, on the sorted vectors. */
  function MergeFrom(es: seq<FlatEntity>, us: seq<EntityUpdate>, i: nat, j: nat): (r: seq<FlatEntity>)
    ensures |r| == |es|
    ensures forall k :: 0 <= k < |es| ==> r[k].id == es[k].id && r[k].color == es[k].color
    decreases |es| - i + |us| - j
  {
    if i >= |es| || j >= |us| then es
    else if es[i].id < us[j].id then MergeFrom(es, us, i + 1, j)
    else if es[i].id > us[j].id then MergeFrom(es, us, i, j + 1)
    else MergeFrom(es[i := ApplyUpdate(es[i], us[j])], us, i, j + 1)
  }

  /** The last queued update for an id, if any. */
  function LastUpdate(us: seq<EntityUpdate>, id: int): (r: Option<EntityUpdate>)
    ensures r.None? <==> forall j :: 0 <= j < |us| ==> us[j].id != id
    ensures r.Some? ==> exists j :: 0 <= j < |us| && us[j] == r.value && us[j].id == id &&
                                    forall q :: j < q < |us| ==> us[q].id != id
  {
    if us == [] then None
    else if us[|us| - 1].id == id then Some(us[|us| - 1])
    else
      var r := LastUpdate(us[..|us| - 1], id);
      assert forall j :: 0 <= j < |us| - 1 ==> us[..|us| - 1][j] == us[j];
      r
  }

  /** An entity after every queued update for its id: the last one's x, y and size, or
      unchanged when there is none. */
  function Updated(e: FlatEntity, us: seq<EntityUpdate>): FlatEntity
  {
    match LastUpdate(us, e.id)
    case None => e
    case Some(u) => ApplyUpdate(e, u)
  }

  /** The reference result of the merge: every entity updated independently. */
  function UpdatedAll(es: seq<FlatEntity>, us: seq<EntityUpdate>): (r: seq<FlatEntity>)
    ensures |r| == |es| && forall k :: 0 <= k < |es| ==> r[k] == Updated(es[k], us)
  {
    if es == [] then [] else [Updated(es[0], us)] + UpdatedAll(es[1..], us)
  }

  lemma LastUpdateSnoc(us: seq<EntityUpdate>, j: nat, id: int)
    requires j < |us|
    ensures LastUpdate(us[..j + 1], id) == if us[j].id == id then Some(us[j]) else LastUpdate(us[..j], id)
  {
    assert us[..j + 1][..j] == us[..j];
  }

  /** Updates past j that all carry other ids do not change the last one for id. */
  lemma {:induction false} LastUpdateIgnoresTail(us: seq<EntityUpdate>, j: nat, id: int)
    requires j <= |us|
    requires forall q :: j <= q < |us| ==> us[q].id != id
    ensures LastUpdate(us, id) == LastUpdate(us[..j], id)
    decreases |us| - j
  {
    if j < |us| {
      LastUpdateIgnoresTail(us, j + 1, id);
      LastUpdateSnoc(us, j, id);
    } else {
      assert us[..j] == us;
    }
  }

  /** The merge loop's invariant at (i, j): entities before i are final, the one at i has
      taken the updates before j, the ones after i are untouched. */
  ghost predicate MergeInv(es: seq<FlatEntity>, cur: seq<FlatEntity>, us: seq<EntityUpdate>, i: nat, j: nat)
  {
    |cur| == |es| && i <= |es| && j <= |us| &&
    (j < |us| ==> forall k :: 0 <= k < i ==> es[k].id < us[j].id) &&
    (i < |es| ==> forall q :: 0 <= q < j ==> us[q].id <= es[i].id) &&
    (forall k :: 0 <= k < i ==> cur[k] == Updated(es[k], us)) &&
    (i < |es| ==> cur[i] == Updated(es[i], us[..j])) &&
    (forall k :: i < k < |es| ==> cur[k] == es[k])
  }

  /** Once every update is consumed, the entity at i is final and the later ones have none. */
  lemma MergeUpdatesDone(es: seq<FlatEntity>, cur: seq<FlatEntity>, us: seq<EntityUpdate>, i: nat, j: nat)
    requires StrictlySorted(es, FlatKey) && MergeInv(es, cur, us, i, j)
    requires i < |es| && j >= |us|
    ensures cur == UpdatedAll(es, us)
  {
    assert us[..j] == us;
    forall k | i < k < |es|
      ensures cur[k] == Updated(es[k], us)
    {
      assert es[i].id < es[k].id;
      assert LastUpdate(us, es[k].id).None?;
    }
  }

  /** An entity below the next update's id has seen all its updates: move to the next entity. */
  lemma MergeSkipEntity(es: seq<FlatEntity>, cur: seq<FlatEntity>, us: seq<EntityUpdate>, i: nat, j: nat)
    requires StrictlySorted(es, FlatKey) && SortedByKey(us, UpdateKey) && MergeInv(es, cur, us, i, j)
    requires i < |es| && j < |us| && cur[i].id < us[j].id
    ensures MergeInv(es, cur, us, i + 1, j)
  {
    assert forall q :: j <= q < |us| ==> us[j].id <= us[q].id;
    LastUpdateIgnoresTail(us, j, es[i].id);
    if i + 1 < |es| {
      assert es[i].id < es[i + 1].id;
      assert LastUpdate(us[..j], es[i + 1].id).None? by {
        forall q | 0 <= q < j ensures us[..j][q].id != es[i + 1].id {
          assert us[..j][q] == us[q];
        }
      }
    }
  }

  /** An update below the current entity's id matches no entity: move to the next update. */
  lemma MergeSkipUpdate(es: seq<FlatEntity>, cur: seq<FlatEntity>, us: seq<EntityUpdate>, i: nat, j: nat)
    requires StrictlySorted(es, FlatKey) && SortedByKey(us, UpdateKey) && MergeInv(es, cur, us, i, j)
    requires i < |es| && j < |us| && cur[i].id > us[j].id
    ensures MergeInv(es, cur, us, i, j + 1)
  {
    LastUpdateSnoc(us, j, es[i].id);
    if j + 1 < |us| {
      assert us[j].id <= us[j + 1].id;
    }
  }

  /** An update for the current entity is applied and the walk moves to the next update. */
  lemma MergeApplyUpdate(es: seq<FlatEntity>, cur: seq<FlatEntity>, us: seq<EntityUpdate>, i: nat, j: nat)
    requires StrictlySorted(es, FlatKey) && SortedByKey(us, UpdateKey) && MergeInv(es, cur, us, i, j)
    requires i < |es| && j < |us| && cur[i].id == us[j].id
    ensures MergeInv(es, cur[i := ApplyUpdate(cur[i], us[j])], us, i, j + 1)
  {
    LastUpdateSnoc(us, j, es[i].id);
    if j + 1 < |us| {
      assert us[j].id <= us[j + 1].id;
      forall k | 0 <= k < i ensures es[k].id < us[j + 1].id {
        assert es[k].id < es[i].id;
      }
    }
  }

  /** The loop's invariant, carried to the end, gives every entity its own updates. */
  lemma {:induction false} MergeFromUpdates(es: seq<FlatEntity>, cur: seq<FlatEntity>, us: seq<EntityUpdate>, i: nat, j: nat)
    requires StrictlySorted(es, FlatKey) && SortedByKey(us, UpdateKey)
    requires MergeInv(es, cur, us, i, j)
    ensures MergeFrom(cur, us, i, j) == UpdatedAll(es, us)
    decreases |es| - i + |us| - j
  {
    if i >= |es| {
      assert cur == UpdatedAll(es, us);
    } else if j >= |us| {
      MergeUpdatesDone(es, cur, us, i, j);
    } else if cur[i].id < us[j].id {
      MergeSkipEntity(es, cur, us, i, j);
      MergeFromUpdates(es, cur, us, i + 1, j);
    } else if cur[i].id > us[j].id {
      MergeSkipUpdate(es, cur, us, i, j);
      MergeFromUpdates(es, cur, us, i, j + 1);
    } else {
      MergeApplyUpdate(es, cur, us, i, j);
      MergeFromUpdates(es, cur[i := ApplyUpdate(cur[i], us[j])], us, i, j + 1);
    }
  }

  /** With distinct entity ids, the merge gives every entity the last queued update for its id
      (in sorted order) and leaves entities without updates unchanged. */
  lemma MergeIsUpdatedAll(es: seq<FlatEntity>, us: seq<EntityUpdate>)
    requires StrictlySorted(es, FlatKey) && SortedByKey(us, UpdateKey)
    ensures MergeFrom(es, us, 0, 0) == UpdatedAll(es, us)
  {
    if |es| > 0 {
      assert us[..0] == [];
    }
    MergeFromUpdates(es, es, us, 0, 0);
  }

  /** Every update for an id nobody shows is skipped: an entity whose id has no update comes
      out unchanged. */
  lemma MergeSkipsUnmatched(es: seq<FlatEntity>, us: seq<EntityUpdate>, k: nat)
    requires StrictlySorted(es, FlatKey) && SortedByKey(us, UpdateKey) && k < |es|
    requires forall q :: 0 <= q < |us| ==> us[q].id != es[k].id
    ensures MergeFrom(es, us, 0, 0)[k] == es[k]
  {
    MergeIsUpdatedAll(es, us);
  }

  /** Of several queued updates for a shown id, the last one in the queue wins. */
  lemma MergeLastWins(es: seq<FlatEntity>, us: seq<EntityUpdate>, k: nat, q: nat)
    requires StrictlySorted(es, FlatKey) && SortedByKey(us, UpdateKey) && k < |es| && q < |us|
    requires us[q].id == es[k].id && forall p :: q < p < |us| ==> us[p].id != es[k].id
    ensures MergeFrom(es, us, 0, 0)[k] == ApplyUpdate(es[k], us[q])
  {
    MergeIsUpdatedAll(es, us);
    var last := LastUpdate(us, es[k].id);
    var j :| 0 <= j < |us| && us[j] == last.value && us[j].id == es[k].id &&
             forall p :: j < p < |us| ==> us[p].id != es[k].id;
    assert j == q;
  }

  /** The player as a default-constructed Entity: at the origin, size 0.1f, white, no id. */
  const DefaultPlayer: FlatEntity := FlatEntity(0, 0, DefaultSize, 0xFFFF_FFFF, kInvalidId)

  class ClientService {
    var player: FlatEntity
    var entities: seq<FlatEntity>
    /** accumulatedUpdates_. */
    var updates: seq<EntityUpdate>

    constructor()
      ensures player == DefaultPlayer && entities == [] && updates == []
    {
      player := DefaultPlayer;
      entities := [];
      updates := [];
    }

    /** handlePacket(PPossesEntity). */
    method HandlePossesEntity(id: u32)
      modifies this
      ensures player == old(player).(id := id)
      ensures entities == old(entities) && updates == old(updates)
    {
      player := player.(id := id);
    }

    /** handlePacket(PEntityUpdate): an update for the player's own id sets its size, and its
        position only when it is far from the update (the float distance test is an input);
        any other update is queued. */
    method HandleEntityUpdate(u: EntityUpdate, far: (FlatEntity, EntityUpdate) -> bool)
      modifies this
      ensures u.id == old(player).id ==>
                updates == old(updates) && entities == old(entities) &&
                var sized := old(player).(size := u.size);
                player == if far(old(player), u) then sized.(x := u.x, y := u.y) else sized
      ensures u.id != old(player).id ==>
                updates == old(updates) + [u] && entities == old(entities) && player == old(player)
    {
      if u.id == player.id {
        var before := player;
        player := player.(size := u.size);
        if far(before, u) {
          player := player.(x := u.x, y := u.y);
        }
        return;
      }
      updates := updates + [u];
    }

    /** handlePacket(PSpawnEntity): a spawn of the player's own id overwrites its position, size
        and color; any other spawn appends a new entity. */
    method HandleSpawnEntity(x: F32, y: F32, size: F32, color: u32, id: u32)
      modifies this
      ensures id == old(player).id ==>
                player == FlatEntity(x, y, size, color, old(player).id) &&
                entities == old(entities) && updates == old(updates)
      ensures id != old(player).id ==>
                entities == old(entities) + [FlatEntity(x, y, size, color, id)] &&
                player == old(player) && updates == old(updates)
    {
      if id == player.id {
        player := player.(x := x, y := y, size := size, color := color);
        return;
      }
      entities := entities + [FlatEntity(x, y, size, color, id)];
    }

    /** The merge step of run, while connected to a server: both vectors sorted by id, the
        queued updates merged into the entities, and the queue emptied. */
    method MergeUpdates()
      modifies this
      ensures entities == MergeFrom(SortByKey(old(entities), FlatKey), SortByKey(old(updates), UpdateKey), 0, 0)
      ensures updates == [] && player == old(player)
    {
      var ua := ToArray(updates);
      SortInPlace(ua, UpdateKey);
      var ea := ToArray(entities);
      SortInPlace(ea, FlatKey);
      MergeInPlace(ea, ua[..]);
      entities := ea[..];
      updates := [];
    }
  }

  /** The two-index loop over the sorted vectors, writing into the entities in place. */
  method MergeInPlace(ea: array<FlatEntity>, us: seq<EntityUpdate>)
    modifies ea
    ensures ea[..] == MergeFrom(old(ea[..]), us, 0, 0)
  {
    var i, j := 0, 0;
    while i < ea.Length && j < |us|
      invariant 0 <= i <= ea.Length && 0 <= j <= |us|
      invariant MergeFrom(ea[..], us, i, j) == MergeFrom(old(ea[..]), us, 0, 0)
      decreases ea.Length - i + |us| - j
    {
      if ea[i].id < us[j].id {
        i := i + 1;
        continue;
      }
      if ea[i].id > us[j].id {
        j := j + 1;
        continue;
      }
      ea[i] := ApplyUpdate(ea[i], us[j]);
      j := j + 1;
    }
  }

  /** The merged entities are the sorted entities, each with the last queued update for its id,
      when the shown ids are distinct; nothing is added or dropped. */
  lemma MergeUpdatesEffect(entities: seq<FlatEntity>, updates: seq<EntityUpdate>)
    requires UniqueKeys(entities, FlatKey)
    ensures var sorted := SortByKey(entities, FlatKey);
            MergeFrom(sorted, SortByKey(updates, UpdateKey), 0, 0) == UpdatedAll(sorted, SortByKey(updates, UpdateKey)) &&
            multiset(sorted) == multiset(entities)
  {
    SortByKeyUnique(entities, FlatKey);
    SortByKeySorted(updates, UpdateKey);
    SortByKeyPermutes(entities, FlatKey);
    MergeIsUpdatedAll(SortByKey(entities, FlatKey), SortByKey(updates, UpdateKey));
  }
}
