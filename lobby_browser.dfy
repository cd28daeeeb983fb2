// The task6 lobby of tasks/task6/lobby.cpp: named lobbies with member lists,
// the registered clients that see the lobby list, and a stack of registered game
// servers. Creating or joining a lobby first deletes any lobby the peer is in
// (removeFromLobby deletes the whole lobby, not only the member); starting a
// lobby hands its members the most recently registered server. Iteration over the
// unordered lobby map has no fixed order, so the loops pick keys in any order.
module LobbyBrowser {
  import opened Types

  datatype Lobby = Lobby(name: seq<char>, botCount: u32, players: seq<Peer>)

  /** LobbyEntry: a 128-char NUL-padded name, the lobby id, its player count, and a bot count
      that collectEntries leaves at 0. */
  datatype LobbyEntry = LobbyEntry(name: seq<char>, id: u32, playerCount: u32, botCount: u32)

  datatype Msg =
    | JoinedLobby(id: u32)
    | LobbyListUpdate(entries: seq<LobbyEntry>)
    | StartServerGame(botCount: u32)
    /** PLobbyStarted carrying the address of this server. */
    | LobbyStarted(server: Peer)

  datatype Outgoing =
    | Send(to: set<Peer>, msg: Msg)
    /** The same packet to each peer of a list, in list order. */
    | SendEach(peers: seq<Peer>, msg: Msg)
    /** disconnect(peer): ask the transport to close the connection. */
    | Disconnect(peer: Peer)

  /** The size of LobbyEntry::name. */
  const NameSize: nat := 128

  /** strlen: the characters before the first NUL (all of them if there is none). */
  function CStringLength(s: seq<char>): (r: nat)
    ensures r <= |s|
    ensures forall k :: 0 <= k < r ==> s[k] != '\0'
    ensures r < |s| ==> s[r] == '\0'
  {
    if s == [] || s[0] == '\0' then 0 else 1 + CStringLength(s[1..])
  }

  /** The entry name: strncpy of at most 127 characters of the C string into a zeroed array,
      so the copy stops at the first NUL and the last character is always NUL. */
  function EntryName(name: seq<char>): (r: seq<char>)
    ensures |r| == NameSize && r[NameSize - 1] == '\0'
    ensures var n := Min(CStringLength(name), NameSize - 1);
            (forall k :: 0 <= k < n ==> r[k] == name[k]) &&
            (forall k :: n <= k < NameSize ==> r[k] == '\0')
  {
    var n := Min(CStringLength(name), NameSize - 1);
    seq(NameSize, k requires 0 <= k < NameSize => if k < n then name[k] else '\0')
  }

  function EntryOf(id: u32, lobby: Lobby): LobbyEntry
  {
    LobbyEntry(EntryName(lobby.name), id, |lobby.players| % U32_LIMIT, 0)
  }

  /** Part way through collectEntries: the entries so far list exactly the lobbies whose ids
      are no longer in `remaining`. */
  ghost predicate Collected(lobbies: map<u32, Lobby>, remaining: set<u32>, entries: seq<LobbyEntry>)
  {
    remaining <= lobbies.Keys &&
    |entries| + |remaining| == |lobbies| &&
    (forall k :: 0 <= k < |entries| ==>
       entries[k].id in lobbies && entries[k].id !in remaining &&
       entries[k] == EntryOf(entries[k].id, lobbies[entries[k].id])) &&
    (forall k1, k2 :: 0 <= k1 < k2 < |entries| ==> entries[k1].id != entries[k2].id) &&
    (forall id :: id in lobbies && id !in remaining ==> exists k :: 0 <= k < |entries| && entries[k].id == id)
  }

  /** One step of collectEntries keeps the entries listing the lobbies already visited. */
  lemma CollectStep(lobbies: map<u32, Lobby>, remaining: set<u32>, entries: seq<LobbyEntry>, id: u32)
    requires Collected(lobbies, remaining, entries) && id in remaining
    ensures Collected(lobbies, remaining - {id}, entries + [EntryOf(id, lobbies[id])])
  {
    var next := entries + [EntryOf(id, lobbies[id])];
    forall other | other in lobbies && other !in remaining - {id}
      ensures exists k :: 0 <= k < |next| && next[k].id == other
    {
      if other == id {
        assert next[|entries|].id == other;
      } else {
        var k :| 0 <= k < |entries| && entries[k].id == other;
        assert next[k].id == other;
      }
    }
  }

  /** A list of entries describes a lobby map: one entry per lobby, each made from its lobby. */
  ghost predicate Lists(lobbies: map<u32, Lobby>, entries: seq<LobbyEntry>)
  {
    |entries| == |lobbies| &&
    (forall k :: 0 <= k < |entries| ==> entries[k].id in lobbies && entries[k] == EntryOf(entries[k].id, lobbies[entries[k].id])) &&
    (forall k1, k2 :: 0 <= k1 < k2 < |entries| ==> entries[k1].id != entries[k2].id) &&
    (forall id :: id in lobbies ==> exists k :: 0 <= k < |entries| && entries[k].id == id)
  }

  /** What removeFromLobby(peer) did to the lobby map: nothing when the peer is in no lobby,
      otherwise erased one lobby the peer is in. */
  ghost predicate LeftLobby(before: map<u32, Lobby>, after: map<u32, Lobby>, peer: Peer)
  {
    if LobbiesOf(before, peer) == {} then after == before
    else exists id :: id in LobbiesOf(before, peer) && after == before - {id}
  }

  /** The ids of the lobbies a peer is a member of. */
  function LobbiesOf(lobbies: map<u32, Lobby>, peer: Peer): set<u32>
  {
    set id | id in lobbies && peer in lobbies[id].players
  }

  /** Index of the first occurrence of a peer in a list, or -1 (std::find). */
  function FindPeer(s: seq<Peer>, p: Peer): (r: int)
    ensures -1 <= r < |s|
    ensures r == -1 <==> p !in s
    ensures r >= 0 ==> s[r] == p && p !in s[..r]
  {
    if s == [] then -1
    else if s[0] == p then 0
    else
      var r := FindPeer(s[1..], p);
      assert r >= 0 ==> s[..r + 1] == [s[0]] + s[1..][..r];
      if r == -1 then -1 else r + 1
  }

  class LobbyService {
    var clients: set<Peer>
    /** servers_: registered game servers, the most recent at the back. */
    var servers: seq<Peer>
    var lobbies: map<u32, Lobby>
    var lobbyIdCounter: u32
    var outbox: seq<Outgoing>

    /** Every peer is a member of at most one lobby. */
    ghost predicate OneLobbyEach()
      reads this
    {
      OneEach(lobbies)
    }

    constructor()
      ensures clients == {} && servers == [] && lobbies == map[] && lobbyIdCounter == 0 && outbox == []
      ensures OneLobbyEach()
    {
      clients := {};
      servers := [];
      lobbies := map[];
      lobbyIdCounter := 0;
      outbox := [];
    }

    /** collectEntries: one entry per lobby, in the map's iteration order. */
    method CollectEntries() returns (entries: seq<LobbyEntry>)
      ensures Lists(lobbies, entries)
    {
      var remaining := lobbies.Keys;
      entries := [];
      while remaining != {}
        invariant Collected(lobbies, remaining, entries)
        decreases |remaining|
      {
        var id :| id in remaining;
        CollectStep(lobbies, remaining, entries, id);
        entries := entries + [EntryOf(id, lobbies[id])];
        remaining := remaining - {id};
      }
    }

    /** broadcastLobbies: the current list to every registered client. */
    method BroadcastLobbies() returns (entries: seq<LobbyEntry>)
      modifies this
      ensures Lists(lobbies, entries)
      ensures outbox == old(outbox) + [Send(clients, LobbyListUpdate(entries))]
      ensures clients == old(clients) && servers == old(servers) && lobbies == old(lobbies)
      ensures lobbyIdCounter == old(lobbyIdCounter)
    {
      entries := CollectEntries();
      outbox := outbox + [Send(clients, LobbyListUpdate(entries))];
    }

    /** removeFromLobby(peer, id, lobby): when the peer is a member, the whole lobby is erased. */
    method RemoveFromLobby(peer: Peer, id: u32) returns (removed: bool)
      requires id in lobbies
      modifies this
      ensures removed == (peer in old(lobbies)[id].players)
      ensures lobbies == if removed then old(lobbies) - {id} else old(lobbies)
      ensures clients == old(clients) && servers == old(servers) && outbox == old(outbox)
      ensures lobbyIdCounter == old(lobbyIdCounter)
      ensures old(OneLobbyEach()) ==> OneLobbyEach()
    {
      var players := lobbies[id].players;
      var k := FindPeer(players, peer);
      if k < 0 {
        return false;
      }
      lobbies := lobbies - {id};
      return true;
    }

    /** removeFromLobby(peer): erase the first lobby, in iteration order, the peer is a member of. */
    method RemoveFromAnyLobby(peer: Peer)
      modifies this
      ensures LeftLobby(old(lobbies), lobbies, peer)
      ensures old(OneLobbyEach()) ==> OneLobbyEach() && LobbiesOf(lobbies, peer) == {}
      ensures clients == old(clients) && servers == old(servers) && outbox == old(outbox)
      ensures lobbyIdCounter == old(lobbyIdCounter)
    {
      var remaining := lobbies.Keys;
      while remaining != {}
        invariant remaining <= lobbies.Keys && lobbies == old(lobbies)
        invariant forall id :: id in lobbies && id !in remaining ==> peer !in lobbies[id].players
        invariant clients == old(clients) && servers == old(servers) && outbox == old(outbox)
        invariant lobbyIdCounter == old(lobbyIdCounter)
        decreases |remaining|
      {
        var id :| id in remaining;
        var removed := RemoveFromLobby(peer, id);
        if removed {
          assert id in LobbiesOf(old(lobbies), peer);
          if old(OneLobbyEach()) {
            OnlyLobbyOf(old(lobbies), peer, id);
          }
          return;
        }
        remaining := remaining - {id};
      }
      assert LobbiesOf(old(lobbies), peer) == {};
    }

    /** handlePacket(PCreateLobby): leave any lobby, then add a lobby under the next id (emplace:
        an id still in use keeps its lobby) with the peer as its only member; tell the peer and
        broadcast the list. */
    method CreateLobby(peer: Peer, name: seq<char>, botCount: u32)
      returns (ghost before: map<u32, Lobby>, ghost entries: seq<LobbyEntry>)
      modifies this
      ensures lobbyIdCounter == WrapInc(old(lobbyIdCounter))
      ensures LeftLobby(old(lobbies), before, peer)
      ensures var id := old(lobbyIdCounter);
              lobbies == (if id in before then before else before[id := Lobby(name, botCount, [peer])])
      ensures Lists(lobbies, entries)
      ensures outbox == old(outbox) + [Send({peer}, JoinedLobby(old(lobbyIdCounter))), Send(clients, LobbyListUpdate(entries))]
      ensures old(OneLobbyEach()) ==> OneLobbyEach()
      ensures old(OneLobbyEach()) && old(lobbyIdCounter) !in old(lobbies) ==> LobbiesOf(lobbies, peer) == {old(lobbyIdCounter)}
      ensures clients == old(clients) && servers == old(servers)
    {
      RemoveFromAnyLobby(peer);
      before := lobbies;
      LeftLobbyShrinks(old(lobbies), before, peer);
      var id := lobbyIdCounter;
      lobbyIdCounter := WrapInc(lobbyIdCounter);
      AddLobby(id, Lobby(name, botCount, [peer]), peer);
      outbox := outbox + [Send({peer}, JoinedLobby(id))];
      entries := BroadcastLobbies();
    }

    /** lobbies_.emplace(id, lobby): a new lobby under an unused id; an id in use keeps its lobby. */
    method AddLobby(id: u32, lobby: Lobby, peer: Peer)
      requires lobby.players == [peer]
      modifies this
      ensures lobbies == (if id in old(lobbies) then old(lobbies) else old(lobbies)[id := lobby])
      ensures old(OneLobbyEach()) && LobbiesOf(old(lobbies), peer) == {} ==> OneLobbyEach()
      ensures old(OneLobbyEach()) && LobbiesOf(old(lobbies), peer) == {} && id !in old(lobbies) ==>
                LobbiesOf(lobbies, peer) == {id}
      ensures clients == old(clients) && servers == old(servers) && outbox == old(outbox)
      ensures lobbyIdCounter == old(lobbyIdCounter)
    {
      if id !in lobbies {
        if OneLobbyEach() && LobbiesOf(lobbies, peer) == {} {
          InsertOnly(lobbies, id, lobby, peer);
        }
        lobbies := lobbies[id := lobby];
      }
    }

    /** handlePacket(PJoinLobby): nothing for an unknown lobby or one the peer is already in;
        otherwise leave any lobby, append the peer to this one, tell the peer and broadcast. */
    method JoinLobby(peer: Peer, id: u32) returns (ghost before: map<u32, Lobby>, ghost entries: seq<LobbyEntry>)
      modifies this
      ensures id !in old(lobbies) || peer in old(lobbies)[id].players ==>
                lobbies == old(lobbies) && outbox == old(outbox)
      ensures id in old(lobbies) && peer !in old(lobbies)[id].players ==>
                LeftLobby(old(lobbies), before, peer) && id in before &&
                before[id] == old(lobbies)[id] &&
                lobbies == before[id := before[id].(players := before[id].players + [peer])] &&
                Lists(lobbies, entries) &&
                outbox == old(outbox) + [Send({peer}, JoinedLobby(id)), Send(clients, LobbyListUpdate(entries))]
      ensures old(OneLobbyEach()) ==> OneLobbyEach()
      ensures old(OneLobbyEach()) && id in old(lobbies) ==> id in LobbiesOf(lobbies, peer)
      ensures clients == old(clients) && servers == old(servers) && lobbyIdCounter == old(lobbyIdCounter)
    {
      before := lobbies;
      entries := [];
      if id !in lobbies {
        return;
      }
      var k := FindPeer(lobbies[id].players, peer);
      if k >= 0 {
        if old(OneLobbyEach()) {
          assert id in LobbiesOf(lobbies, peer);
        }
        return;
      }
      RemoveFromAnyLobby(peer);
      before := lobbies;
      LeftLobbyKeeps(old(lobbies), lobbies, peer, id);
      if old(OneLobbyEach()) {
        AppendOnly(lobbies, id, peer);
      }
      lobbies := lobbies[id := lobbies[id].(players := lobbies[id].players + [peer])];
      outbox := outbox + [Send({peer}, JoinedLobby(id))];
      entries := BroadcastLobbies();
    }

    /** handlePacket(PLeaveLobby): for a known lobby, erase it if the peer is a member, and
        broadcast the list either way. */
    method LeaveLobby(peer: Peer, id: u32) returns (ghost entries: seq<LobbyEntry>)
      modifies this
      ensures id !in old(lobbies) ==> lobbies == old(lobbies) && outbox == old(outbox)
      ensures id in old(lobbies) ==>
                lobbies == (if peer in old(lobbies)[id].players then old(lobbies) - {id} else old(lobbies)) &&
                Lists(lobbies, entries) && outbox == old(outbox) + [Send(clients, LobbyListUpdate(entries))]
      ensures old(OneLobbyEach()) ==> OneLobbyEach()
      ensures clients == old(clients) && servers == old(servers) && lobbyIdCounter == old(lobbyIdCounter)
    {
      entries := [];
      if id !in lobbies {
        return;
      }
      var _ := RemoveFromLobby(peer, id);
      entries := BroadcastLobbies();
    }

    /** handlePacket(PStartLobby): nothing without servers or for an unknown lobby; otherwise the
        lobby is erased, the most recently registered server is popped, told the bot count and
        disconnected, and every member is sent that server's address. */
    method StartLobby(id: u32)
      modifies this
      ensures old(servers) == [] || id !in old(lobbies) ==>
                lobbies == old(lobbies) && servers == old(servers) && outbox == old(outbox)
      ensures old(servers) != [] && id in old(lobbies) ==>
                var server := old(servers)[|old(servers)| - 1];
                var lobby := old(lobbies)[id];
                lobbies == old(lobbies) - {id} && servers == old(servers)[..|old(servers)| - 1] &&
                outbox == old(outbox) + [Send({server}, StartServerGame(lobby.botCount)), Disconnect(server),
                                         SendEach(lobby.players, LobbyStarted(server))]
      ensures old(OneLobbyEach()) ==> OneLobbyEach()
      ensures clients == old(clients) && lobbyIdCounter == old(lobbyIdCounter)
    {
      if servers == [] {
        return;
      }
      if id !in lobbies {
        return;
      }
      var lobby := lobbies[id];
      lobbies := lobbies - {id};
      var server := servers[|servers| - 1];
      servers := servers[..|servers| - 1];
      outbox := outbox + [Send({server}, StartServerGame(lobby.botCount)), Disconnect(server),
                          SendEach(lobby.players, LobbyStarted(server))];
    }

    /** handlePacket(PRegisterClientInLobby): remember the client and send it the list. */
    method RegisterClient(client: Peer) returns (ghost entries: seq<LobbyEntry>)
      modifies this
      ensures clients == old(clients) + {client}
      ensures Lists(lobbies, entries) && outbox == old(outbox) + [Send({client}, LobbyListUpdate(entries))]
      ensures lobbies == old(lobbies) && servers == old(servers) && lobbyIdCounter == old(lobbyIdCounter)
    {
      clients := clients + {client};
      var list := CollectEntries();
      entries := list;
      outbox := outbox + [Send({client}, LobbyListUpdate(list))];
    }

    /** handlePacket(PRegisterServerInLobby): push the server on the stack. */
    method RegisterServer(server: Peer)
      modifies this
      ensures servers == old(servers) + [server]
      ensures clients == old(clients) && lobbies == old(lobbies) && outbox == old(outbox)
      ensures lobbyIdCounter == old(lobbyIdCounter)
    {
      servers := servers + [server];
    }

    /** disconnected(peer): a client is forgotten and its lobby erased; otherwise a registered
        server is swapped with the back and popped. */
    method Disconnected(peer: Peer)
      modifies this
      ensures peer in old(clients) ==>
                clients == old(clients) - {peer} && servers == old(servers) && LeftLobby(old(lobbies), lobbies, peer)
      ensures peer !in old(clients) ==>
                clients == old(clients) && lobbies == old(lobbies) &&
                var k := FindPeer(old(servers), peer);
                servers == if k < 0 then old(servers)
                           else old(servers)[k := old(servers)[|old(servers)| - 1]][..|old(servers)| - 1]
      ensures old(OneLobbyEach()) ==> OneLobbyEach()
      ensures old(OneLobbyEach()) && peer in old(clients) ==> LobbiesOf(lobbies, peer) == {}
      ensures outbox == old(outbox) && lobbyIdCounter == old(lobbyIdCounter)
    {
      if peer in clients {
        clients := clients - {peer};
        RemoveFromAnyLobby(peer);
        return;
      }
      var k := FindPeer(servers, peer);
      if k >= 0 {
        servers := servers[k := servers[|servers| - 1]][..|servers| - 1];
      }
    }
  }

  /** Every peer is a member of at most one lobby. */
  ghost predicate OneEach(lobbies: map<u32, Lobby>)
  {
    forall a, b, p :: a in lobbies && b in lobbies && p in lobbies[a].players && p in lobbies[b].players ==> a == b
  }

  /** A new lobby whose only member is in no lobby yet keeps every peer in at most one lobby. */
  lemma InsertOnly(lobbies: map<u32, Lobby>, id: u32, lobby: Lobby, peer: Peer)
    requires OneEach(lobbies) && LobbiesOf(lobbies, peer) == {} && id !in lobbies && lobby.players == [peer]
    ensures OneEach(lobbies[id := lobby]) && LobbiesOf(lobbies[id := lobby], peer) == {id}
  {
    NotInAny(lobbies, peer);
    var m := lobbies[id := lobby];
    forall a, b, p | a in m && b in m && p in m[a].players && p in m[b].players
      ensures a == b
    {
      if a == id || b == id {
        assert p == peer;
      }
    }
  }

  /** Appending a peer that is in no lobby to an existing lobby keeps every peer in at most one. */
  lemma AppendOnly(lobbies: map<u32, Lobby>, id: u32, peer: Peer)
    requires OneEach(lobbies) && LobbiesOf(lobbies, peer) == {} && id in lobbies
    ensures var m := lobbies[id := lobbies[id].(players := lobbies[id].players + [peer])];
            OneEach(m) && LobbiesOf(m, peer) == {id}
  {
    NotInAny(lobbies, peer);
    var m := lobbies[id := lobbies[id].(players := lobbies[id].players + [peer])];
    forall a, b, p | a in m && b in m && p in m[a].players && p in m[b].players
      ensures a == b
    {
      if p != peer {
        assert p in lobbies[a].players && p in lobbies[b].players;
      }
    }
    assert peer in m[id].players;
  }

  lemma NotInAny(lobbies: map<u32, Lobby>, peer: Peer)
    requires LobbiesOf(lobbies, peer) == {}
    ensures forall a :: a in lobbies ==> peer !in lobbies[a].players
  {
    forall a | a in lobbies
      ensures peer !in lobbies[a].players
    {
      assert a !in LobbiesOf(lobbies, peer);
    }
  }

  /** Leaving some lobby does not touch a lobby the peer is not a member of. */
  lemma LeftLobbyKeeps(before: map<u32, Lobby>, after: map<u32, Lobby>, peer: Peer, id: u32)
    requires LeftLobby(before, after, peer) && id in before && peer !in before[id].players
    ensures id in after && after[id] == before[id]
  {
  }

  /** Leaving a lobby only ever removes ids. */
  lemma LeftLobbyShrinks(before: map<u32, Lobby>, after: map<u32, Lobby>, peer: Peer)
    requires LeftLobby(before, after, peer)
    ensures after.Keys <= before.Keys
  {
  }

  /** With every peer in at most one lobby, erasing the one lobby a peer is in leaves it in none. */
  lemma OnlyLobbyOf(lobbies: map<u32, Lobby>, peer: Peer, id: u32)
    requires OneEach(lobbies)
    requires id in LobbiesOf(lobbies, peer)
    ensures LobbiesOf(lobbies - {id}, peer) == {}
  {
  }
}
