// The packets the game servers of tasks/task4/server.cpp and
// tasks/task6/server.cpp send to their clients, and the outbox records that
// stand for the loops sending them. Both servers announce removed entities the
// same way, one PDestroyEntity per removal to every client.
module ServerPackets {
  import opened Types

  datatype Msg =
    | SendKey(key: seq<Byte>)
    | PossesEntity(id: u32)
    | Snapshot(entities: seq<Entity>)
    | PlayerJoined(id: u32)
    | PlayerLeft(id: u32)
    | SpawnEntity(entity: Entity)
    | DestroyEntity(id: u32)

  datatype Outgoing =
    /** The same packet to every peer in `to` (a loop over clients_). */
    | Send(to: set<Peer>, msg: Msg)
    /** To one peer, one packet per entry, about each of the other clients. */
    | SendPerPeer(peer: Peer, about: map<Peer, Msg>)
    /** To one peer, these packets in this order (a loop over entities_). */
    | SendInOrder(peer: Peer, msgs: seq<Msg>)
    /** One PSnapshotDelta per client, all with the same sequence. */
    | DeltaBatch(sequence: nat, perClient: map<Peer, seq<EntityDelta>>)
    /** registerInLobby: reconnect to the lobby to be queued again. */
    | RegisterInLobby

  /** Outgoing DestroyEntity packets, one per removed entity, to every client. */
  function DestroySends(to: set<Peer>, removed: seq<Entity>): (r: seq<Outgoing>)
    ensures |r| == |removed|
    ensures forall k :: 0 <= k < |removed| ==> r[k] == Send(to, DestroyEntity(removed[k].id))
  {
    if removed == [] then [] else [Send(to, DestroyEntity(removed[0].id))] + DestroySends(to, removed[1..])
  }

  lemma DestroySendsSnoc(to: set<Peer>, removed: seq<Entity>, e: Entity)
    ensures DestroySends(to, removed + [e]) == DestroySends(to, removed) + [Send(to, DestroyEntity(e.id))]
  {
  }
}
