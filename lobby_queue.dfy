// The task5 lobby of tasks/task5/lobby.cpp: one waiting room of registered
// clients and a queue of registered game-server addresses. Starting sends every
// waiting client the oldest registered server (first in, first out); clients stay
// registered, and servers are only ever removed by being handed out.
module LobbyQueue {
  import opened Types

  /** ENetAddress: a host and a port. */
  datatype Address = Address(host: u32, port: int)

  datatype Outgoing = LobbyStarted(to: set<Peer>, serverAddress: Address)

  class LobbyService {
    var clients: set<Peer>
    /** servers_: registered server addresses, the oldest at the front. */
    var servers: seq<Address>
    var outbox: seq<Outgoing>
    /** Every server address ever registered, in order, and how many have been handed out. */
    ghost var registered: seq<Address>
    ghost var served: nat

    /** The queue is the registered addresses not yet handed out. */
    ghost predicate Valid()
      reads this
    {
      served <= |registered| && servers == registered[served..]
    }

    constructor()
      ensures Valid() && clients == {} && servers == [] && outbox == [] && registered == []
    {
      clients := {};
      servers := [];
      outbox := [];
      registered := [];
      served := 0;
    }

    /** handlePacket(PStartLobby): nothing without servers; otherwise the oldest server is
        dequeued and every registered client is sent its address. */
    method StartLobby()
      requires Valid()
      modifies this
      ensures Valid() && clients == old(clients) && registered == old(registered)
      ensures old(servers) == [] ==> servers == old(servers) && outbox == old(outbox) && served == old(served)
      ensures old(servers) != [] ==>
                servers == old(servers)[1..] && served == old(served) + 1 &&
                outbox == old(outbox) + [LobbyStarted(clients, registered[old(served)])]
    {
      if servers == [] {
        return;
      }
      var server := servers[0];
      servers := servers[1..];
      served := served + 1;
      outbox := outbox + [LobbyStarted(clients, server)];
    }

    /** handlePacket(PRegisterClientInLobby): emplace into the set. */
    method RegisterClient(client: Peer)
      requires Valid()
      modifies this
      ensures Valid() && clients == old(clients) + {client}
      ensures servers == old(servers) && outbox == old(outbox)
      ensures registered == old(registered) && served == old(served)
    {
      clients := clients + {client};
    }

    /** handlePacket(PRegisterServerInLobby): the server's address joins the back of the queue. */
    method RegisterServer(address: Address)
      requires Valid()
      modifies this
      ensures Valid() && servers == old(servers) + [address]
      ensures registered == old(registered) + [address] && served == old(served)
      ensures clients == old(clients) && outbox == old(outbox)
    {
      servers := servers + [address];
      registered := registered + [address];
    }

    /** disconnected(peer): only the client set forgets the peer. */
    method Disconnected(peer: Peer)
      requires Valid()
      modifies this
      ensures Valid() && clients == old(clients) - {peer}
      ensures servers == old(servers) && outbox == old(outbox)
      ensures registered == old(registered) && served == old(served)
    {
      clients := clients - {peer};
    }
  }
}
