// The task6 game server of tasks/task6/server.cpp: a history of world states,
// newest at the front, each with a sequence number one above the next older
// one; per-client bookkeeping (the sequence a client's deltas are diffed
// against); pruning of the history on acks; the removal of dead entities; and
// the per-client delta broadcast built with zipById. Float steps (simulation,
// absorption, bot steering, the "moved"/"resized"/"dead" tests) and random
// samples are inputs; packets are records appended to an outbox.
module SnapshotServer {
  import opened Types
  import opened Zip
  import opened Removal
  import opened EntityFactory
  import opened ServerPackets

  datatype ClientData = ClientData(id: u32, entityId: u32, lastSequenceAck: nat)

  /** TOP_SECRET_KEY. */
  const TopSecretKey: seq<Byte> := [0xDE, 0xAD, 0xBE, 0xEF]

  /** The random draws of one Entity::create and of the bot target that follows it. */
  datatype Sample = Sample(pos: Vec2, size: F32, color: u32)

  // ---------------------------------------------------------------------------
  // The history

  /** Front to back, each state's sequence is one above the next older one. */
  ghost predicate Consecutive(h: seq<GameState>)
  {
    forall k :: 0 <= k < |h| - 1 ==> h[k].sequence == h[k + 1].sequence + 1
  }

  lemma {:induction false} ConsecutiveGap(h: seq<GameState>, i: nat, j: nat)
    requires Consecutive(h) && i <= j < |h|
    ensures h[i].sequence == h[j].sequence + (j - i)
    decreases j - i
  {
    if i < j {
      ConsecutiveGap(h, i + 1, j);
    }
  }

  /** The ack-driven pruning: pop back states below minAck while more than two remain. */
  function Prune(h: seq<GameState>, minAck: nat): seq<GameState>
  {
    if |h| > 2 && h[|h| - 1].sequence < minAck then Prune(h[..|h| - 1], minAck) else h
  }

  /** Pruning keeps a front part of at least two states (or all, if fewer), drops only
      states below minAck, and stops at one that is not below it. */
  lemma {:induction false} PruneKeeps(h: seq<GameState>, minAck: nat)
    ensures var r := Prune(h, minAck);
            |r| <= |h| && r == h[..|r|] && |r| >= Min(|h|, 2) &&
            (forall k :: |r| <= k < |h| ==> h[k].sequence < minAck) &&
            (|r| > 2 ==> r[|r| - 1].sequence >= minAck)
  {
    if |h| > 2 && h[|h| - 1].sequence < minAck {
      var init := h[..|h| - 1];
      PruneKeeps(init, minAck);
      var r := Prune(init, minAck);
      assert h[..|r|] == init[..|r|];
    }
  }

  /** Whether some retained state is at least s (stateBySequence runs off the end otherwise). */
  ghost predicate Retained(h: seq<GameState>, s: nat)
  {
    exists k :: 0 <= k < |h| && h[k].sequence >= s
  }

  /** A client whose ack is not below minAck still finds a state after pruning. */
  lemma PruneRetains(h: seq<GameState>, minAck: nat, s: nat)
    requires Retained(h, s) && minAck <= s
    ensures Retained(Prune(h, minAck), s)
  {
    PruneKeeps(h, minAck);
    var k :| 0 <= k < |h| && h[k].sequence >= s;
    var r := Prune(h, minAck);
    assert k < |r| && r[k] == h[k];
  }

  /** Scanning from the back (oldest) to index idx: the first state at least s. */
  function OldestFrom(h: seq<GameState>, s: nat, idx: nat): (k: nat)
    requires idx < |h|
    requires exists m :: 0 <= m <= idx && h[m].sequence >= s
    ensures k <= idx && h[k].sequence >= s
    ensures forall m :: k < m <= idx ==> h[m].sequence < s
    decreases idx
  {
    if h[idx].sequence >= s then idx else OldestFrom(h, s, idx - 1)
  }

  /** stateBySequence(s): the index of the oldest retained state whose sequence is at least s. */
  function OldestAtLeast(h: seq<GameState>, s: nat): (k: nat)
    requires Retained(h, s)
    ensures k < |h| && h[k].sequence >= s
    ensures forall m :: k < m < |h| ==> h[m].sequence < s
  {
    OldestFrom(h, s, |h| - 1)
  }

  /** With consecutive sequences, a sequence within the retained range is found exactly. */
  lemma OldestAtLeastExact(h: seq<GameState>, s: nat)
    requires Consecutive(h) && h != []
    requires h[|h| - 1].sequence <= s <= h[0].sequence
    ensures Retained(h, s)
    ensures h[OldestAtLeast(h, s)].sequence == s
  {
    assert h[0].sequence >= s;
    var k := OldestAtLeast(h, s);
    if k < |h| - 1 {
      ConsecutiveGap(h, k, k + 1);
    }
  }

  /** The lookup depends only on the sequence numbers. */
  lemma {:induction false} OldestFromSameSequences(h: seq<GameState>, h': seq<GameState>, s: nat, idx: nat)
    requires |h| == |h'| && idx < |h|
    requires forall k :: 0 <= k < |h| ==> h[k].sequence == h'[k].sequence
    requires exists m :: 0 <= m <= idx && h[m].sequence >= s
    ensures exists m :: 0 <= m <= idx && h'[m].sequence >= s
    ensures OldestFrom(h, s, idx) == OldestFrom(h', s, idx)
    decreases idx
  {
    var m :| 0 <= m <= idx && h[m].sequence >= s;
    assert h'[m].sequence >= s;
    if h[idx].sequence < s {
      OldestFromSameSequences(h, h', s, idx - 1);
    }
  }

  // ---------------------------------------------------------------------------
  // Delta selection

  /** The deltas the zipById callback adds for a new entity n and its old version o. */
  function PairDeltas(n: Entity, o: Entity, moved: (Vec2, Vec2) -> bool, resized: (F32, F32) -> bool): seq<EntityDelta>
  {
    (if moved(n.pos, o.pos) then [EntityDelta(n.id, Pos, PosBits(n.pos))] else []) +
    (if resized(n.size, o.size) || n.color != o.color
     then [EntityDelta(n.id, SizeColor, PackSizeColor(n.size, n.color))] else [])
  }

  /** The callback folded over the zipById calls, in call order. */
  function DeltasFor(nf: seq<Entity>, of: seq<Entity>, calls: seq<(nat, nat)>,
                     moved: (Vec2, Vec2) -> bool, resized: (F32, F32) -> bool): seq<EntityDelta>
    requires forall c :: c in calls ==> c.0 < |nf| && c.1 < |of|
  {
    if calls == [] then []
    else
      var c := calls[|calls| - 1];
      DeltasFor(nf, of, calls[..|calls| - 1], moved, resized) + PairDeltas(nf[c.0], of[c.1], moved, resized)
  }

  /** The deltas for a client whose acked state is history index idx: zipById of the (sorted)
      front entities with the (sorted) entities of that state. */
  function ClientDeltasAt(h: seq<GameState>, idx: nat, moved: (Vec2, Vec2) -> bool, resized: (F32, F32) -> bool): seq<EntityDelta>
    requires idx < |h|
  {
    var nf := SortByKey(h[0].entities, EntityId);
    var of := SortByKey(h[idx].entities, EntityId);
    DeltasFor(nf, of, Walk(nf, of, EntityId, EntityId, 0, 0), moved, resized)
  }

  /** Every delta is about a matched pair: a Pos delta carries the new position's bits and means
      it moved; a SizeColor delta carries size (high half) and color (low half) and means the
      size changed or the color differs. */
  lemma {:induction false} DeltasForSound(nf: seq<Entity>, of: seq<Entity>, calls: seq<(nat, nat)>,
                                          moved: (Vec2, Vec2) -> bool, resized: (F32, F32) -> bool)
    requires forall c :: c in calls ==> c.0 < |nf| && c.1 < |of|
    ensures forall d :: d in DeltasFor(nf, of, calls, moved, resized) ==>
              exists c :: c in calls && d.id == nf[c.0].id &&
                (d.field == Pos ==> moved(nf[c.0].pos, of[c.1].pos) && d.value == PosBits(nf[c.0].pos)) &&
                (d.field == SizeColor ==> (resized(nf[c.0].size, of[c.1].size) || nf[c.0].color != of[c.1].color) &&
                                          d.value == PackSizeColor(nf[c.0].size, nf[c.0].color))
  {
    if calls != [] {
      var init := calls[..|calls| - 1];
      var c := calls[|calls| - 1];
      assert forall x :: x in init ==> x in calls;
      DeltasForSound(nf, of, init, moved, resized);
      assert c in calls;
    }
  }

  /** Conversely, every matched pair whose position moved gets a Pos delta, and every pair
      whose size or color changed gets a SizeColor delta. */
  lemma {:induction false} DeltasForComplete(nf: seq<Entity>, of: seq<Entity>, calls: seq<(nat, nat)>,
                                             moved: (Vec2, Vec2) -> bool, resized: (F32, F32) -> bool, c: (nat, nat))
    requires forall x :: x in calls ==> x.0 < |nf| && x.1 < |of|
    requires c in calls
    ensures moved(nf[c.0].pos, of[c.1].pos) ==>
              EntityDelta(nf[c.0].id, Pos, PosBits(nf[c.0].pos)) in DeltasFor(nf, of, calls, moved, resized)
    ensures resized(nf[c.0].size, of[c.1].size) || nf[c.0].color != of[c.1].color ==>
              EntityDelta(nf[c.0].id, SizeColor, PackSizeColor(nf[c.0].size, nf[c.0].color)) in DeltasFor(nf, of, calls, moved, resized)
  {
    var init := calls[..|calls| - 1];
    if c != calls[|calls| - 1] {
      assert c in init;
      assert forall x :: x in init ==> x in calls;
      DeltasForComplete(nf, of, init, moved, resized, c);
    }
  }

  /** The fold of the callback over the calls, as the loop that runs it. */
  method CollectDeltas(nf: seq<Entity>, of: seq<Entity>, calls: seq<(nat, nat)>,
                       moved: (Vec2, Vec2) -> bool, resized: (F32, F32) -> bool) returns (deltas: seq<EntityDelta>)
    requires forall c :: c in calls ==> c.0 < |nf| && c.1 < |of|
    ensures deltas == DeltasFor(nf, of, calls, moved, resized)
  {
    deltas := [];
    for k := 0 to |calls|
      invariant deltas == DeltasFor(nf, of, calls[..k], moved, resized)
    {
      assert calls[..k + 1][..k] == calls[..k];
      assert calls[k] in calls;
      var n, o := nf[calls[k].0], of[calls[k].1];
      if moved(n.pos, o.pos) {
        deltas := deltas + [EntityDelta(n.id, Pos, PosBits(n.pos))];
      }
      if resized(n.size, o.size) || n.color != o.color {
        deltas := deltas + [EntityDelta(n.id, SizeColor, PackSizeColor(n.size, n.color))];
      }
    }
    assert calls[..|calls|] == calls;
  }

  /** h' differs from h at most by sorting the entity vectors of some states. */
  ghost predicate SortedVariant(h': seq<GameState>, h: seq<GameState>)
  {
    |h'| == |h| &&
    forall k :: 0 <= k < |h| ==>
      h'[k].sequence == h[k].sequence &&
      (h'[k].entities == h[k].entities || h'[k].entities == SortByKey(h[k].entities, EntityId))
  }

  lemma SortedVariantSameSort(h': seq<GameState>, h: seq<GameState>, k: nat)
    requires SortedVariant(h', h) && k < |h|
    ensures SortByKey(h'[k].entities, EntityId) == SortByKey(h[k].entities, EntityId)
  {
    SortByKeyIdempotent(h[k].entities, EntityId);
  }

  /** Re-sorting the front and one more state of a sorted variant of h keeps it one. */
  lemma SortedVariantResort(before: seq<GameState>, h: seq<GameState>, idx: nat)
    requires SortedVariant(before, h) && idx < |h|
    ensures var after := before[0 := before[0].(entities := SortByKey(before[0].entities, EntityId))]
                                [idx := before[idx].(entities := SortByKey(before[idx].entities, EntityId))];
            SortedVariant(after, h)
  {
    var after := before[0 := before[0].(entities := SortByKey(before[0].entities, EntityId))]
                       [idx := before[idx].(entities := SortByKey(before[idx].entities, EntityId))];
    forall k | 0 <= k < |h|
      ensures after[k].sequence == h[k].sequence &&
              (after[k].entities == h[k].entities || after[k].entities == SortByKey(h[k].entities, EntityId))
    {
      if k == idx || k == 0 {
        SortedVariantSameSort(before, h, k);
        assert after[k].entities == SortByKey(before[k].entities, EntityId);
      } else {
        assert after[k] == before[k];
      }
    }
  }

  /** A sorted variant has the same sequences, hence the same consecutive numbering. */
  lemma SortedVariantKeepsShape(h': seq<GameState>, h: seq<GameState>)
    requires SortedVariant(h', h)
    ensures Consecutive(h) ==> Consecutive(h')
    ensures h != [] ==> h'[0].sequence == h[0].sequence
  {
  }

  /** The entities of resetGame's loop: the k-th is Entity::create's result on the k-th
      sample, with the k-th id the allocator hands out. */
  ghost predicate CreatedInOrder(entities: seq<Entity>, samples: seq<Sample>, start: u32)
  {
    |entities| == |samples| &&
    forall k :: 0 <= k < |samples| ==>
      entities[k] == Entity(samples[k].pos, ZeroVec, samples[k].size, CreatedColor(samples[k].color),
                            CounterFrom(start, k))
  }

  /** resetGame's creation loop: one entity per sample, and an emplaced bot target for each. */
  method CreateBots(allocator: EntityAllocator, samples: seq<Sample>, targets: seq<Vec2>)
    returns (entities: seq<Entity>, botTargets: map<u32, Vec2>)
    requires allocator.Valid() && |targets| == |samples|
    modifies allocator
    ensures allocator.Valid()
    ensures CreatedInOrder(entities, samples, old(allocator.firstFreeId))
    ensures botTargets.Keys == Ids(entities)
    ensures allocator.firstFreeId == CounterFrom(old(allocator.firstFreeId), |samples|)
  {
    ghost var start := allocator.firstFreeId;
    entities := [];
    botTargets := map[];
    for i := 0 to |samples|
      invariant allocator.Valid()
      invariant CreatedInOrder(entities, samples[..i], start)
      invariant allocator.firstFreeId == CounterFrom(start, i)
      invariant botTargets.Keys == Ids(entities)
    {
      var entity := allocator.Create(samples[i].pos, samples[i].size, samples[i].color);
      IdsSnoc(entities, entity);
      entities := entities + [entity];
      if entity.id !in botTargets {
        botTargets := botTargets[entity.id := targets[i]];
      }
    }
    assert samples[..|samples|] == samples;
  }

  /** The target refresh of updateLogic's steering loop, entity by entity over the cloned front:
      a bot that has reached its target (`arrived`, the float test length < 1e-3) gets the k-th
      random draw as its new target. Entities without a target are left alone. */
  function RefreshTargets(targets: map<u32, Vec2>, es: seq<Entity>, arrived: (Vec2, Vec2) -> bool,
                          draws: seq<Vec2>): (r: map<u32, Vec2>)
    requires |draws| == |es|
    ensures r.Keys == targets.Keys
    decreases |es|
  {
    if es == [] then targets
    else
      var n := |es| - 1;
      var t := RefreshTargets(targets, es[..n], arrived, draws[..n]);
      if es[n].id in t && arrived(t[es[n].id], es[n].pos) then t[es[n].id := draws[n]] else t
  }

  /** A target whose id no entity carries is never replaced. */
  lemma {:induction false} RefreshTargetsUntouched(targets: map<u32, Vec2>, es: seq<Entity>,
                                                   arrived: (Vec2, Vec2) -> bool, draws: seq<Vec2>, id: u32)
    requires |draws| == |es| && id in targets && id !in Ids(es)
    ensures RefreshTargets(targets, es, arrived, draws)[id] == targets[id]
    decreases |es|
  {
    if es != [] {
      var n := |es| - 1;
      assert forall k :: 0 <= k < n ==> es[..n][k] == es[k];
      assert Ids(es[..n]) <= Ids(es);
      assert es[n].id in Ids(es);
      RefreshTargetsUntouched(targets, es[..n], arrived, draws[..n], id);
    }
  }

  /** A bot whose id occurs once: its target is replaced by its own draw exactly when it has
      reached the target it had, and kept otherwise. */
  lemma {:induction false} RefreshTargetsOf(targets: map<u32, Vec2>, es: seq<Entity>,
                                            arrived: (Vec2, Vec2) -> bool, draws: seq<Vec2>, k: nat)
    requires |draws| == |es| && k < |es| && es[k].id in targets
    requires forall m :: 0 <= m < |es| && m != k ==> es[m].id != es[k].id
    ensures RefreshTargets(targets, es, arrived, draws)[es[k].id] ==
            if arrived(targets[es[k].id], es[k].pos) then draws[k] else targets[es[k].id]
    decreases |es|
  {
    var n := |es| - 1;
    var id := es[k].id;
    if k == n {
      assert id !in Ids(es[..n]);
      RefreshTargetsUntouched(targets, es[..n], arrived, draws[..n], id);
    } else {
      assert es[..n][k] == es[k];
      assert forall m :: 0 <= m < n && m != k ==> es[..n][m].id != id;
      RefreshTargetsOf(targets, es[..n], arrived, draws[..n], k);
    }
  }

  /** The zipById step of broadcastDeltas on copies of the two entity vectors: both come back
      sorted by id, and the deltas are the callback's over the matched pairs. When the client's
      state is the front itself, one vector is sorted twice and zipped with itself. */
  method DiffEntities(front: seq<Entity>, acked: seq<Entity>, same: bool,
                      moved: (Vec2, Vec2) -> bool, resized: (F32, F32) -> bool)
    returns (nf: seq<Entity>, of: seq<Entity>, deltas: seq<EntityDelta>)
    requires same ==> acked == front
    ensures nf == SortByKey(front, EntityId) && of == SortByKey(acked, EntityId)
    ensures deltas == DeltasFor(nf, of, Walk(nf, of, EntityId, EntityId, 0, 0), moved, resized)
  {
    var first := ToArray(front);
    var calls;
    if same {
      SortInPlace(first, EntityId);
      SortInPlace(first, EntityId);
      SortByKeyIdempotent(front, EntityId);
      calls := WalkLoop(first, first, EntityId, EntityId);
      nf, of := first[..], first[..];
    } else {
      var second := ToArray(acked);
      calls := ZipById(first, second, EntityId, EntityId);
      nf, of := first[..], second[..];
    }
    deltas := CollectDeltas(nf, of, calls, moved, resized);
  }

  class ServerService {
    /** stateHistory_: front (index 0) is the latest. */
    var stateHistory: seq<GameState>
    var botTargets: map<u32, Vec2>
    var clients: map<Peer, ClientData>
    /** idCounter_, a uint32 starting at 1. */
    var idCounter: u32
    /** Keys handed to setKeyFor. */
    var keys: map<Peer, seq<Byte>>
    var outbox: seq<Outgoing>
    /** The static Entity::firstFreeId. */
    const allocator: EntityAllocator

    ghost predicate Valid()
      reads this, allocator
    {
      Consecutive(stateHistory) && allocator.Valid()
    }

    /** Every client's acked sequence is no newer than the front state, so stateBySequence
        always finds a state for it. */
    ghost predicate AcksCovered()
      reads this
    {
      clients.Keys != {} ==>
        stateHistory != [] &&
        forall p :: p in clients ==> clients[p].lastSequenceAck <= stateHistory[0].sequence
    }

    constructor(allocator: EntityAllocator)
      requires allocator.Valid()
      ensures Valid() && AcksCovered()
      ensures this.allocator == allocator
      ensures stateHistory == [] && botTargets == map[] && clients == map[] && idCounter == 1
      ensures keys == map[] && outbox == []
    {
      this.allocator := allocator;
      stateHistory := [];
      botTargets := map[];
      clients := map[];
      idCounter := 1;
      keys := map[];
      outbox := [];
    }

    /** resetGame(bots): one state with sequence 0 holding `bots` freshly created entities,
        each with a bot target. */
    method ResetGame(bots: nat, samples: seq<Sample>, targets: seq<Vec2>)
      requires Valid()
      requires |samples| == bots && |targets| == bots
      modifies this, allocator
      ensures Valid()
      ensures clients == old(clients) && outbox == old(outbox) && keys == old(keys) && idCounter == old(idCounter)
      ensures |stateHistory| == 1 && stateHistory[0].sequence == 0
      ensures CreatedInOrder(stateHistory[0].entities, samples, old(allocator.firstFreeId))
      ensures botTargets.Keys == Ids(stateHistory[0].entities)
      ensures allocator.firstFreeId == CounterFrom(old(allocator.firstFreeId), bots)
      ensures clients == map[] ==> AcksCovered()
    {
      var entities, targetMap := CreateBots(allocator, samples, targets);
      botTargets := targetMap;
      stateHistory := [GameState(0, entities)];
    }

    /** connected(peer): hand out the key, clone the front state with a new player entity and
        the next sequence, record the client (emplace: an existing record is kept) and tell
        everybody. The history must not be empty (front() of an empty deque is undefined). */
    method Connected(peer: Peer, sample: Sample)
      requires Valid() && stateHistory != []
      modifies this, allocator
      ensures Valid()
      ensures old(AcksCovered()) ==> AcksCovered()
      ensures botTargets == old(botTargets)
      ensures keys == old(keys)[peer := TopSecretKey]
      ensures idCounter == WrapInc(old(idCounter))
      ensures allocator.firstFreeId == NextId(old(allocator.firstFreeId))
      ensures var player := Entity(sample.pos, ZeroVec, sample.size, CreatedColor(sample.color), old(allocator.firstFreeId));
              var front := old(stateHistory)[0];
              var newState := GameState(front.sequence + 1, front.entities + [player]);
              stateHistory == [newState] + old(stateHistory) &&
              clients == (if peer in old(clients) then old(clients)
                          else old(clients)[peer := ClientData(old(idCounter), player.id, newState.sequence)]) &&
              var others := clients.Keys - {peer};
              outbox == old(outbox) + [
                Send({peer}, SendKey(TopSecretKey)),
                Send({peer}, PossesEntity(player.id)),
                Send({peer}, Snapshot(newState.entities)),
                Send(others, PlayerJoined(old(idCounter))),
                Send(others, SpawnEntity(player)),
                SendPerPeer(peer, map q | q in others :: PlayerJoined(clients[q].id))]
    {
      outbox := outbox + [Send({peer}, SendKey(TopSecretKey))];
      keys := keys[peer := TopSecretKey];
      var id := idCounter;
      idCounter := WrapInc(idCounter);
      var player := SpawnPlayer(peer, id, sample);
      AnnounceJoin(peer, id, player);
    }

    /** The player entity of a new connection: created from the sample, added to a clone of the
        front state with the next sequence, and (emplace) recorded for a new peer. */
    method SpawnPlayer(peer: Peer, id: u32, sample: Sample) returns (player: Entity)
      requires Valid() && stateHistory != []
      modifies this, allocator
      ensures Valid()
      ensures old(AcksCovered()) ==> AcksCovered()
      ensures player == Entity(sample.pos, ZeroVec, sample.size, CreatedColor(sample.color), old(allocator.firstFreeId))
      ensures allocator.firstFreeId == NextId(old(allocator.firstFreeId))
      ensures var front := old(stateHistory)[0];
              var newState := GameState(front.sequence + 1, front.entities + [player]);
              stateHistory == [newState] + old(stateHistory) &&
              clients == (if peer in old(clients) then old(clients)
                          else old(clients)[peer := ClientData(id, player.id, newState.sequence)])
      ensures botTargets == old(botTargets) && keys == old(keys) && idCounter == old(idCounter)
      ensures outbox == old(outbox)
    {
      var front := stateHistory[0];
      player := allocator.Create(sample.pos, sample.size, sample.color);
      var newState := GameState(front.sequence + 1, front.entities + [player]);
      stateHistory := [newState] + stateHistory;
      if peer !in clients {
        clients := clients[peer := ClientData(id, player.id, newState.sequence)];
      }
    }

    /** The messages of a new connection after its key: its entity and the front snapshot to the
        peer, the join and the spawn to every other client, and each other client's id to the peer. */
    method AnnounceJoin(peer: Peer, id: u32, player: Entity)
      requires stateHistory != []
      modifies this
      ensures stateHistory == old(stateHistory) && clients == old(clients) && botTargets == old(botTargets)
      ensures keys == old(keys) && idCounter == old(idCounter)
      ensures var others := clients.Keys - {peer};
              outbox == old(outbox) + [
                Send({peer}, PossesEntity(player.id)),
                Send({peer}, Snapshot(stateHistory[0].entities)),
                Send(others, PlayerJoined(id)),
                Send(others, SpawnEntity(player)),
                SendPerPeer(peer, map q | q in others :: PlayerJoined(clients[q].id))]
    {
      outbox := outbox + [Send({peer}, PossesEntity(player.id)), Send({peer}, Snapshot(stateHistory[0].entities))];
      var others := clients.Keys - {peer};
      outbox := outbox + [Send(others, PlayerJoined(id)), Send(others, SpawnEntity(player)),
                          SendPerPeer(peer, map q | q in others :: PlayerJoined(clients[q].id))];
    }

    /** handlePacket(PSnapshotDeltaAck): the minimum of the acked sequence and every other
        client's stored lastSequenceAck. The loop iterates over copies, so the acking client's
        own record is not updated: its copy takes the acked sequence. */
    method MinAck(peer: Peer, sequence: nat) returns (minAck: nat)
      ensures minAck <= sequence
      ensures forall p :: p in clients && p != peer ==> minAck <= clients[p].lastSequenceAck
      ensures minAck == sequence || exists p :: p in clients && p != peer && minAck == clients[p].lastSequenceAck
    {
      minAck := sequence;
      var pending := clients.Keys;
      while pending != {}
        invariant pending <= clients.Keys
        invariant minAck <= sequence
        invariant forall p :: p in clients.Keys - pending && p != peer ==> minAck <= clients[p].lastSequenceAck
        invariant minAck == sequence || exists p :: p in clients && p != peer && minAck == clients[p].lastSequenceAck
        decreases pending
      {
        var p :| p in pending;
        var data := clients[p];
        if p == peer {
          data := data.(lastSequenceAck := sequence);
        }
        minAck := Min(minAck, data.lastSequenceAck);
        pending := pending - {p};
      }
    }

    /** handlePacket(PSnapshotDeltaAck): prune the history below the minimum ack, keeping at
        least two states; clients_ is left as it was. */
    method HandleSnapshotDeltaAck(peer: Peer, sequence: nat) returns (minAck: nat)
      requires Valid()
      modifies this
      ensures Valid()
      ensures old(AcksCovered()) ==> AcksCovered()
      ensures clients == old(clients) && botTargets == old(botTargets) && outbox == old(outbox)
      ensures keys == old(keys) && idCounter == old(idCounter)
      ensures minAck <= sequence
      ensures forall p :: p in clients && p != peer ==> minAck <= clients[p].lastSequenceAck
      ensures stateHistory == Prune(old(stateHistory), minAck)
    {
      minAck := MinAck(peer, sequence);
      ghost var h0 := stateHistory;
      while |stateHistory| > 2 && stateHistory[|stateHistory| - 1].sequence < minAck
        invariant Prune(stateHistory, minAck) == Prune(h0, minAck)
        invariant clients == old(clients) && botTargets == old(botTargets) && outbox == old(outbox)
        invariant keys == old(keys) && idCounter == old(idCounter)
        decreases |stateHistory|
      {
        stateHistory := stateHistory[..|stateHistory| - 1];
      }
      PruneKeeps(h0, minAck);
    }

    /** disconnected(peer): forget a known client, tell the others, and when nobody is left
        drop the game state and queue in the lobby again. Unknown peers are ignored. */
    method Disconnected(peer: Peer)
      requires Valid()
      modifies this
      ensures Valid()
      ensures old(AcksCovered()) ==> AcksCovered()
      ensures keys == old(keys) && idCounter == old(idCounter)
      ensures peer !in old(clients) ==> clients == old(clients) && stateHistory == old(stateHistory) &&
                                        botTargets == old(botTargets) && outbox == old(outbox)
      ensures peer in old(clients) ==>
                clients == old(clients) - {peer} &&
                var left := [Send(clients.Keys, PlayerLeft(old(clients)[peer].id))];
                if clients == map[] then
                  stateHistory == [] && botTargets == map[] && outbox == old(outbox) + left + [RegisterInLobby]
                else
                  stateHistory == old(stateHistory) && botTargets == old(botTargets) && outbox == old(outbox) + left
    {
      if peer !in clients {
        return;
      }
      var erased := clients[peer];
      clients := clients - {peer};
      outbox := outbox + [Send(clients.Keys, PlayerLeft(erased.id))];
      if clients == map[] {
        stateHistory := [];
        botTargets := map[];
        outbox := outbox + [RegisterInLobby];
      }
    }

    /** updateLogic: clone the front with the next sequence; refresh the targets of bots that
        reached theirs (the arrival test and the random draws are inputs); take the simulated
        entities (the float steps keep ids and count); then remove dead entities and broadcast
        their ids. */
    method UpdateLogic(arrived: (Vec2, Vec2) -> bool, draws: seq<Vec2>, simulated: seq<Entity>, dead: F32 -> bool)
      requires Valid() && stateHistory != []
      requires |draws| == |stateHistory[0].entities|
      requires |simulated| == |stateHistory[0].entities|
      requires forall k :: 0 <= k < |simulated| ==> simulated[k].id == stateHistory[0].entities[k].id
      modifies this
      ensures Valid()
      ensures old(AcksCovered()) ==> AcksCovered()
      ensures clients == old(clients) && keys == old(keys) && idCounter == old(idCounter)
      ensures botTargets == RefreshTargets(old(botTargets), old(stateHistory)[0].entities, arrived, draws)
      ensures var (kept, removed) := SwapPopFrom(simulated, 0, dead);
              stateHistory == [GameState(old(stateHistory)[0].sequence + 1, kept)] + old(stateHistory) &&
              outbox == old(outbox) + DestroySends(clients.Keys, removed)
    {
      var newState := GameState(stateHistory[0].sequence + 1, simulated);
      RefreshBotTargets(stateHistory[0].entities, arrived, draws);
      var kept, removed := RemoveDead(newState.entities, dead);
      stateHistory := [newState.(entities := kept)] + stateHistory;
      SendDestroys(removed);
    }

    /** The target part of updateLogic's steering loop, over the entities of the cloned front. */
    method RefreshBotTargets(entities: seq<Entity>, arrived: (Vec2, Vec2) -> bool, draws: seq<Vec2>)
      requires |draws| == |entities|
      modifies this
      ensures botTargets == RefreshTargets(old(botTargets), entities, arrived, draws)
      ensures stateHistory == old(stateHistory) && clients == old(clients) && outbox == old(outbox)
      ensures keys == old(keys) && idCounter == old(idCounter)
    {
      for k := 0 to |entities|
        invariant botTargets == RefreshTargets(old(botTargets), entities[..k], arrived, draws[..k])
        invariant stateHistory == old(stateHistory) && clients == old(clients) && outbox == old(outbox)
        invariant keys == old(keys) && idCounter == old(idCounter)
      {
        assert entities[..k + 1][..k] == entities[..k] && draws[..k + 1][..k] == draws[..k];
        var e := entities[k];
        if e.id in botTargets && arrived(botTargets[e.id], e.pos) {
          botTargets := botTargets[e.id := draws[k]];
        }
      }
      assert entities[..|entities|] == entities && draws[..|draws|] == draws;
    }

    /** The broadcast loop of updateLogic: one PDestroyEntity per removed entity, in order. */
    method SendDestroys(removed: seq<Entity>)
      modifies this
      ensures outbox == old(outbox) + DestroySends(clients.Keys, removed)
      ensures stateHistory == old(stateHistory) && clients == old(clients) && botTargets == old(botTargets)
      ensures keys == old(keys) && idCounter == old(idCounter)
    {
      for k := 0 to |removed|
        invariant outbox == old(outbox) + DestroySends(clients.Keys, removed)[..k]
        invariant stateHistory == old(stateHistory) && clients == old(clients) && botTargets == old(botTargets)
        invariant keys == old(keys) && idCounter == old(idCounter)
      {
        assert DestroySends(clients.Keys, removed)[..k + 1] == DestroySends(clients.Keys, removed)[..k] + [Send(clients.Keys, DestroyEntity(removed[k].id))];
        outbox := outbox + [Send(clients.Keys, DestroyEntity(removed[k].id))];
      }
      assert DestroySends(clients.Keys, removed)[..|removed|] == DestroySends(clients.Keys, removed);
    }

    /** stateBySequence(s): scan from the oldest state towards the front while the sequence is
        below s. Some state must be at least s (the scan is unbounded otherwise). */
    method StateBySequence(s: nat) returns (idx: nat)
      requires Retained(stateHistory, s)
      ensures idx == OldestAtLeast(stateHistory, s)
    {
      idx := |stateHistory| - 1;
      while stateHistory[idx].sequence < s
        invariant idx < |stateHistory|
        invariant exists m :: 0 <= m <= idx && stateHistory[m].sequence >= s
        invariant OldestFrom(stateHistory, s, idx) == OldestAtLeast(stateHistory, s)
        decreases idx
      {
        idx := idx - 1;
      }
    }

    /** One zipById of the front entities with those of history index idx: both vectors are
        sorted in place (the same vector twice when idx is the front) and the callback's deltas
        are returned. */
    method DiffAgainst(idx: nat, moved: (Vec2, Vec2) -> bool, resized: (F32, F32) -> bool) returns (deltas: seq<EntityDelta>)
      requires idx < |stateHistory|
      modifies this
      ensures clients == old(clients) && botTargets == old(botTargets) && outbox == old(outbox)
      ensures keys == old(keys) && idCounter == old(idCounter)
      ensures var h := old(stateHistory);
              stateHistory == h[0 := h[0].(entities := SortByKey(h[0].entities, EntityId))]
                               [idx := h[idx].(entities := SortByKey(h[idx].entities, EntityId))]
      ensures deltas == ClientDeltasAt(old(stateHistory), idx, moved, resized)
    {
      var h0 := stateHistory[0];
      var hi := stateHistory[idx];
      var nf, of;
      nf, of, deltas := DiffEntities(h0.entities, hi.entities, idx == 0, moved, resized);
      stateHistory := stateHistory[0 := h0.(entities := nf)][idx := hi.(entities := of)];
    }

    /** One client's round of broadcastDeltas against the history h it started from: look up
        the acked state, diff the front against it. The history stays a sorted variant of h. */
    method DeltasForClient(ghost h: seq<GameState>, ack: nat, moved: (Vec2, Vec2) -> bool, resized: (F32, F32) -> bool)
      returns (deltas: seq<EntityDelta>)
      requires SortedVariant(stateHistory, h) && h != [] && ack <= h[0].sequence
      modifies this
      ensures SortedVariant(stateHistory, h)
      ensures clients == old(clients) && botTargets == old(botTargets) && outbox == old(outbox)
      ensures keys == old(keys) && idCounter == old(idCounter)
      ensures Retained(h, ack)
      ensures deltas == ClientDeltasAt(h, OldestAtLeast(h, ack), moved, resized)
    {
      assert Retained(stateHistory, ack) by {
        assert stateHistory[0].sequence >= ack;
      }
      var idx := StateBySequence(ack);
      OldestFromSameSequences(stateHistory, h, ack, |h| - 1);
      SortedVariantSameSort(stateHistory, h, 0);
      SortedVariantSameSort(stateHistory, h, idx);
      ghost var before := stateHistory;
      deltas := DiffAgainst(idx, moved, resized);
      SortedVariantResort(before, h, idx);
    }

    /** The loop of broadcastDeltas over clients_, against the history h it started from. */
    method CollectBatch(ghost h: seq<GameState>, moved: (Vec2, Vec2) -> bool, resized: (F32, F32) -> bool)
      returns (batch: map<Peer, seq<EntityDelta>>)
      requires SortedVariant(stateHistory, h) && h != []
      requires forall p :: p in clients ==> clients[p].lastSequenceAck <= h[0].sequence
      modifies this
      ensures SortedVariant(stateHistory, h)
      ensures clients == old(clients) && botTargets == old(botTargets) && outbox == old(outbox)
      ensures keys == old(keys) && idCounter == old(idCounter)
      ensures batch.Keys == clients.Keys
      ensures forall p :: p in batch ==>
                Retained(h, clients[p].lastSequenceAck) &&
                batch[p] == ClientDeltasAt(h, OldestAtLeast(h, clients[p].lastSequenceAck), moved, resized)
    {
      batch := map[];
      var pending := clients.Keys;
      while pending != {}
        invariant pending <= clients.Keys
        invariant clients == old(clients) && botTargets == old(botTargets) && outbox == old(outbox)
        invariant keys == old(keys) && idCounter == old(idCounter)
        invariant SortedVariant(stateHistory, h)
        invariant batch.Keys == clients.Keys - pending
        invariant forall p :: p in batch ==>
                    Retained(h, clients[p].lastSequenceAck) &&
                    batch[p] == ClientDeltasAt(h, OldestAtLeast(h, clients[p].lastSequenceAck), moved, resized)
        decreases pending
      {
        var to :| to in pending;
        var deltas := DeltasForClient(h, clients[to].lastSequenceAck, moved, resized);
        batch := batch[to := deltas];
        pending := pending - {to};
      }
    }

    /** broadcastDeltas: nothing with an empty history; otherwise, for every client, the deltas
        of the front state against the oldest state at least as new as the client's ack, sent
        with the front's sequence. zipById leaves the compared entity vectors sorted by id. */
    method BroadcastDeltas(moved: (Vec2, Vec2) -> bool, resized: (F32, F32) -> bool)
      returns (batch: map<Peer, seq<EntityDelta>>)
      requires Valid() && AcksCovered()
      modifies this
      ensures Valid() && AcksCovered()
      ensures clients == old(clients) && botTargets == old(botTargets)
      ensures keys == old(keys) && idCounter == old(idCounter)
      ensures old(stateHistory) == [] ==> stateHistory == old(stateHistory) && outbox == old(outbox) && batch == map[]
      ensures old(stateHistory) != [] ==>
                SortedVariant(stateHistory, old(stateHistory)) &&
                outbox == old(outbox) + [DeltaBatch(old(stateHistory)[0].sequence, batch)] &&
                batch.Keys == clients.Keys &&
                forall p :: p in batch ==>
                  Retained(old(stateHistory), clients[p].lastSequenceAck) &&
                  batch[p] == ClientDeltasAt(old(stateHistory),
                                             OldestAtLeast(old(stateHistory), clients[p].lastSequenceAck),
                                             moved, resized)
    {
      batch := map[];
      if stateHistory == [] {
        return;
      }
      var currentSequence := stateHistory[0].sequence;
      batch := CollectBatch(stateHistory, moved, resized);
      outbox := outbox + [DeltaBatch(currentSequence, batch)];
      SortedVariantKeepsShape(stateHistory, old(stateHistory));
    }
  }
}
