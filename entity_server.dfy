// The task4 game server of tasks/task4/server.cpp: one vector of entities, the
// bot targets, and the connected clients with the entity each one controls.
// Packets are records appended to an outbox; the float steps (the length test
// and clamp of player input, the "too small" test of the removal loop) and the
// random draws of Entity::create are inputs.
module EntityServer {
  import opened Types
  import opened Removal
  import opened EntityFactory
  import opened ServerPackets
  import SnapshotServer

  datatype ClientData = ClientData(id: u32, entityId: u32)

  /** kBots. */
  const Bots: nat := 10

  /** Spawn packets for every entity, in vector order. */
  function SpawnAll(entities: seq<Entity>): (r: seq<Msg>)
    ensures |r| == |entities|
    ensures forall k :: 0 <= k < |entities| ==> r[k] == SpawnEntity(entities[k])
  {
    if entities == [] then [] else [SpawnEntity(entities[0])] + SpawnAll(entities[1..])
  }

  class ServerService {
    var entities: seq<Entity>
    var botTargets: map<u32, Vec2>
    var clients: map<Peer, ClientData>
    /** idCounter_, a uint32 starting at 1. */
    var idCounter: u32
    var outbox: seq<Outgoing>
    /** Entity::create's static counter. */
    const allocator: EntityAllocator

    ghost predicate Valid()
      reads this, allocator
    {
      allocator.Valid()
    }

    /** The constructor calls resetGame. */
    constructor(allocator: EntityAllocator, samples: seq<SnapshotServer.Sample>, targets: seq<Vec2>)
      requires allocator.Valid() && |samples| == Bots && |targets| == Bots
      modifies allocator
      ensures Valid() && this.allocator == allocator
      ensures clients == map[] && idCounter == 1 && outbox == []
      ensures SnapshotServer.CreatedInOrder(entities, samples, old(allocator.firstFreeId))
      ensures |entities| == Bots && botTargets.Keys == Ids(entities)
    {
      this.allocator := allocator;
      clients := map[];
      idCounter := 1;
      outbox := [];
      new;
      ResetGame(samples, targets);
    }

    /** resetGame: exactly kBots freshly created entities, each with a bot target. */
    method ResetGame(samples: seq<SnapshotServer.Sample>, targets: seq<Vec2>)
      requires Valid() && |samples| == Bots && |targets| == Bots
      modifies this, allocator
      ensures Valid()
      ensures SnapshotServer.CreatedInOrder(entities, samples, old(allocator.firstFreeId))
      ensures |entities| == Bots && botTargets.Keys == Ids(entities)
      ensures allocator.firstFreeId == CounterFrom(old(allocator.firstFreeId), Bots)
      ensures clients == old(clients) && idCounter == old(idCounter) && outbox == old(outbox)
    {
      var created, targetMap := SnapshotServer.CreateBots(allocator, samples, targets);
      entities := created;
      botTargets := targetMap;
    }

    /** connected(peer): a new client id and a new entity for it, the client recorded with that
        entity (emplace: an existing record is kept), and the join announced both ways; then
        every entity is spawned at the new peer. */
    method Connected(peer: Peer, sample: SnapshotServer.Sample)
      requires Valid()
      modifies this, allocator
      ensures Valid()
      ensures botTargets == old(botTargets)
      ensures idCounter == WrapInc(old(idCounter))
      ensures allocator.firstFreeId == NextId(old(allocator.firstFreeId))
      ensures var player := Entity(sample.pos, ZeroVec, sample.size, CreatedColor(sample.color), old(allocator.firstFreeId));
              entities == old(entities) + [player] &&
              clients == (if peer in old(clients) then old(clients)
                          else old(clients)[peer := ClientData(old(idCounter), player.id)]) &&
              var others := clients.Keys - {peer};
              outbox == old(outbox) + [
                Send({peer}, PossesEntity(player.id)),
                Send(others, PlayerJoined(old(idCounter))),
                Send(others, SpawnEntity(player)),
                SendPerPeer(peer, map q | q in others :: PlayerJoined(clients[q].id)),
                SendInOrder(peer, SpawnAll(entities))]
    {
      var id := idCounter;
      idCounter := WrapInc(idCounter);
      var created := allocator.Create(sample.pos, sample.size, sample.color);
      entities := entities + [created];
      if peer !in clients {
        clients := clients[peer := ClientData(id, created.id)];
      }
      var others := clients.Keys - {peer};
      outbox := outbox + [Send({peer}, PossesEntity(created.id)),
                          Send(others, PlayerJoined(id)), Send(others, SpawnEntity(created)),
                          SendPerPeer(peer, map q | q in others :: PlayerJoined(clients[q].id)),
                          SendInOrder(peer, SpawnAll(entities))];
    }

    /** handlePacket(PPlayerInput): ignored for an unknown peer or when its entity is gone;
        otherwise the first entity with the client's entity id gets velocity zero for a tiny
        input and the clamped input otherwise. */
    method HandlePlayerInput(peer: Peer, desiredSpeed: Vec2, tiny: Vec2 -> bool, clamped: Vec2 -> Vec2)
      modifies this
      ensures peer !in old(clients) || FindId(old(entities), old(clients)[peer].entityId) < 0 ==>
                entities == old(entities)
      ensures peer in old(clients) && FindId(old(entities), old(clients)[peer].entityId) >= 0 ==>
                var k := FindId(old(entities), old(clients)[peer].entityId);
                entities == old(entities)[k := old(entities)[k].(vel := if tiny(desiredSpeed) then ZeroVec else clamped(desiredSpeed))]
      ensures botTargets == old(botTargets) && clients == old(clients) && idCounter == old(idCounter) && outbox == old(outbox)
    {
      if peer !in clients {
        return;
      }
      var k := FindId(entities, clients[peer].entityId);
      if k < 0 {
        return;
      }
      if tiny(desiredSpeed) {
        entities := entities[k := entities[k].(vel := ZeroVec)];
        return;
      }
      entities := entities[k := entities[k].(vel := clamped(desiredSpeed))];
    }

    /** disconnected(peer): ignored for an unknown peer; otherwise the client is erased, the
        others are told, and when nobody is left the game is reset and the server queues itself
        in the lobby again. */
    method Disconnected(peer: Peer, samples: seq<SnapshotServer.Sample>, targets: seq<Vec2>)
      requires Valid() && |samples| == Bots && |targets| == Bots
      modifies this, allocator
      ensures Valid()
      ensures peer !in old(clients) ==>
                clients == old(clients) && entities == old(entities) && botTargets == old(botTargets) &&
                outbox == old(outbox) && allocator.firstFreeId == old(allocator.firstFreeId)
      ensures peer in old(clients) ==>
                clients == old(clients) - {peer} &&
                var left := Send(clients.Keys, PlayerLeft(old(clients)[peer].id));
                (clients != map[] ==> entities == old(entities) && botTargets == old(botTargets) &&
                                      outbox == old(outbox) + [left]) &&
                (clients == map[] ==> SnapshotServer.CreatedInOrder(entities, samples, old(allocator.firstFreeId)) &&
                                      |entities| == Bots && botTargets.Keys == Ids(entities) &&
                                      outbox == old(outbox) + [left, RegisterInLobby])
      ensures idCounter == old(idCounter)
    {
      if peer !in clients {
        return;
      }
      var erased := clients[peer];
      clients := clients - {peer};
      outbox := outbox + [Send(clients.Keys, PlayerLeft(erased.id))];
      if clients == map[] {
        ResetGame(samples, targets);
        outbox := outbox + [RegisterInLobby];
      }
    }

    /** The removal loop of updateLogic: the entities too small to live are swapped out and
        popped, and each removal is announced to every client. */
    method RemoveSmall(dead: F32 -> bool)
      modifies this
      ensures var (kept, removed) := SwapPopFrom(old(entities), 0, dead);
              entities == kept && outbox == old(outbox) + DestroySends(clients.Keys, removed)
      ensures botTargets == old(botTargets) && clients == old(clients) && idCounter == old(idCounter)
    {
      var i := 0;
      ghost var removed: seq<Entity> := [];
      assert removed + SwapPopFrom(entities, i, dead).1 == SwapPopFrom(entities, i, dead).1;
      while i < |entities|
        invariant i <= |entities|
        invariant SwapPopFrom(old(entities), 0, dead) ==
                  (SwapPopFrom(entities, i, dead).0, removed + SwapPopFrom(entities, i, dead).1)
        invariant outbox == old(outbox) + DestroySends(clients.Keys, removed)
        invariant botTargets == old(botTargets) && clients == old(clients) && idCounter == old(idCounter)
        decreases |entities| - i
      {
        if dead(entities[i].size) {
          var id := entities[i].id;
          ghost var rest := SwapPopFrom(entities[i := entities[|entities| - 1]][..|entities| - 1], i, dead);
          assert removed + ([entities[i]] + rest.1) == (removed + [entities[i]]) + rest.1;
          DestroySendsSnoc(clients.Keys, removed, entities[i]);
          removed := removed + [entities[i]];
          entities := entities[i := entities[|entities| - 1]][..|entities| - 1];
          outbox := outbox + [Send(clients.Keys, DestroyEntity(id))];
        } else {
          i := i + 1;
        }
      }
      assert removed + [] == removed;
    }
  }
}
