// The Service base class of tasks/task5/common/Service.hpp and its older form in
// tasks/task4/common/Service.hpp: connect and disconnect requests whose callbacks
// wait in per-peer maps until the transport reports the matching event, the
// routing of transport events to those callbacks or to the derived service's
// hooks, the type-tag check and continuation count of received packets, and (in
// task5) the per-peer XOR key applied to every packet sent and received.
// Callbacks are tokens; running one, calling a hook or handing bytes to the
// transport is a record appended to a log. Packets are byte strings.
module Transport {
  import opened Types

  /** A connect or disconnect callback, identified by a token. */
  datatype Callback = Callback(token: nat)

  datatype Effect =
    /** A connect callback ran, with the connected peer or with none (nullptr). */
    | RanConnect(callback: Callback, result: Option<Peer>)
    /** A disconnect callback ran. */
    | RanDisconnect(callback: Callback)
    /** The derived service's connected(peer) hook. */
    | Connected(peer: Peer)
    /** The derived service's disconnected(peer) hook. */
    | Disconnected(peer: Peer)
    /** enet_peer_disconnect_later(peer). */
    | DisconnectLater(peer: Peer)
    /** enet_peer_send: these bytes on this channel to this peer. */
    | Sent(peer: Peer, channel: Channel, bytes: seq<Byte>)

  /** The shape of a packet type: a fixed size, or a header followed by elements. */
  datatype Layout = Fixed | WithContinuation(headerSize: nat, contSize: nat)

  /** What a received packet turns into: a fatal error for a tag past COUNT, or a dispatch to
      the handler of its tag with the (deciphered) bytes and the continuation count. */
  datatype Received = Fatal | Dispatched(peer: Peer, tag: Byte, bytes: seq<Byte>, contCount: nat)

  /** PacketType::COUNT in tasks/task5/common/proto.hpp. */
  const TagCount: nat := 11

  /** PacketType::COUNT in tasks/task4/common/proto.hpp. */
  const PlainTagCount: nat := 14

  const SizeLimit: int := 0x1_0000_0000_0000_0000

  /** XorKey: four bytes. */
  type XorKey = k: seq<Byte> | |k| == 4 witness [0, 0, 0, 0]

  /** (size - sizeof(Packet<t>)) / sizeof(Cont) in size_t arithmetic: the whole elements after
      the header; trailing partial bytes are ignored. */
  function ContinuationCount(size: nat, headerSize: nat, contSize: nat): (r: nat)
    requires contSize > 0 && size < SizeLimit && headerSize < SizeLimit
    ensures size >= headerSize ==> r * contSize <= size - headerSize < (r + 1) * contSize
  {
    ((size - headerSize) % SizeLimit) / contSize
  }

  /** A packet sent with n elements is read back with n elements. */
  lemma ContinuationRoundTrip(headerSize: nat, contSize: nat, n: nat)
    requires contSize > 0 && headerSize + n * contSize < SizeLimit
    ensures ContinuationCount(headerSize + n * contSize, headerSize, contSize) == n
  {
    var size := headerSize + n * contSize;
    var r := ContinuationCount(size, headerSize, contSize);
    MulStrict(r, n, contSize);
    MulStrict(n, r, contSize);
  }

  /** Strictly fewer whole elements take at least one element's bytes less. */
  lemma MulStrict(a: nat, b: nat, c: nat)
    ensures a < b ==> (a + 1) * c <= b * c
  {
    if a < b {
      MulMonotone(a + 1, b, c);
    }
  }

  lemma MulMonotone(a: nat, b: nat, c: nat)
    requires a <= b
    ensures a * c <= b * c
  {
  }

  /** The key byte the cipher loop uses at step i: j runs 0, 1, 2, 3 and wraps, so key[i % 4]. */
  function KeyByte(key: XorKey, i: nat): Byte
  {
    key[i % 4]
  }

  /** After `laps` full turns of the key and j more steps, the loop's j picks KeyByte(key, i). */
  lemma KeyByteAt(key: XorKey, i: nat, laps: nat, j: nat)
    requires j < 4 && i == 4 * laps + j
    ensures KeyByte(key, i) == key[j]
  {
  }

  /** The key bytes the cipher loop folds over a packet of length n, XORed together. */
  function KeyStreamXor(key: XorKey, n: nat): Byte
  {
    if n == 0 then 0 else KeyStreamXor(key, n - 1) ^ KeyByte(key, n - 1)
  }

  /** The first byte after n steps of the cipher loop, each XORing the next key byte into it. */
  function XorFold(first: Byte, key: XorKey, n: nat): Byte
  {
    if n == 0 then first else XorFold(first, key, n - 1) ^ KeyByte(key, n - 1)
  }

  lemma XorAssoc(a: Byte, b: Byte, c: Byte)
    ensures (a ^ b) ^ c == a ^ (b ^ c)
  {
  }

  /** Folding the key bytes into the first byte one by one XORs it with the whole key stream. */
  lemma {:induction false} XorFoldStream(first: Byte, key: XorKey, n: nat)
    ensures XorFold(first, key, n) == first ^ KeyStreamXor(key, n)
  {
    if n > 0 {
      XorFoldStream(first, key, n - 1);
      XorAssoc(first, KeyStreamXor(key, n - 1), KeyByte(key, n - 1));
    }
  }

  /** cipher as written: every step XORs a key byte into the first byte, so only byte 0
      changes, by the XOR of the key stream over the packet length. */
  function Ciphered(data: seq<Byte>, key: XorKey): (r: seq<Byte>)
    ensures |r| == |data|
    ensures |data| > 0 ==> r[0] == data[0] ^ KeyStreamXor(key, |data|) && r[1..] == data[1..]
  {
    if |data| == 0 then data else data[0 := data[0] ^ KeyStreamXor(key, |data|)]
  }

  /** Deciphering undoes enciphering: the same key over the same length is its own inverse. */
  lemma CipheredInvolution(data: seq<Byte>, key: XorKey)
    ensures Ciphered(Ciphered(data, key), key) == data
  {
    if |data| > 0 {
      var x := KeyStreamXor(key, |data|);
      assert (data[0] ^ x) ^ x == data[0];
    }
  }

  /** As written, everything past the first byte goes out in clear: two bytes under the key
      DE AD BE EF keep their second byte. */
  lemma CipheredLeavesTail()
    ensures Ciphered([0x01, 0x02], [0xDE, 0xAD, 0xBE, 0xEF])[1] == 0x02
  {
  }

  /** The evidently intended stream cipher: byte i XORed with key[i % 4]. */
  function CipherStream(data: seq<Byte>, key: XorKey): (r: seq<Byte>)
    ensures |r| == |data|
    ensures forall i :: 0 <= i < |data| ==> r[i] == data[i] ^ key[i % 4]
  {
    seq(|data|, i requires 0 <= i < |data| => data[i] ^ key[i % 4])
  }

  /** The intended cipher is its own inverse and masks every byte with the key. */
  lemma CipherStreamInvolution(data: seq<Byte>, key: XorKey)
    ensures CipherStream(CipherStream(data, key), key) == data
  {
    var once := CipherStream(data, key);
    var twice := CipherStream(once, key);
    forall i | 0 <= i < |data|
      ensures twice[i] == data[i]
    {
      assert (data[i] ^ key[i % 4]) ^ key[i % 4] == data[i];
    }
  }

  /** Bytes of a packet with continuation: the header, then every element right after it. */
  function Flatten(cont: seq<seq<Byte>>): (r: seq<Byte>)
  {
    if cont == [] then [] else cont[0] + Flatten(cont[1..])
  }

  /** n elements of contSize bytes each take n * contSize bytes. */
  lemma {:induction false} FlattenLength(cont: seq<seq<Byte>>, contSize: nat)
    requires forall k :: 0 <= k < |cont| ==> |cont[k]| == contSize
    ensures |Flatten(cont)| == |cont| * contSize
  {
    if cont != [] {
      FlattenLength(cont[1..], contSize);
    }
  }

  /** The Service of tasks/task5/common/Service.hpp. */
  class Service {
    /** IS_SERVER: whether unexpected connects reach the connected hook. */
    const isServer: bool
    var keys: map<Peer, XorKey>
    var pendingConnect: map<Peer, Callback>
    var pendingDisconnect: map<Peer, Callback>
    var log: seq<Effect>

    constructor(isServer: bool)
      ensures this.isServer == isServer
      ensures keys == map[] && pendingConnect == map[] && pendingDisconnect == map[] && log == []
    {
      this.isServer := isServer;
      keys := map[];
      pendingConnect := map[];
      pendingDisconnect := map[];
      log := [];
    }

    /** connect(address, f): the transport's peer for the new connection is an input; with no
        peer the callback runs at once with none, otherwise it waits (emplace: a callback already
        waiting for that peer is kept). */
    method Connect(peer: Option<Peer>, f: Callback)
      modifies this
      ensures peer.None? ==> log == old(log) + [RanConnect(f, None)] && pendingConnect == old(pendingConnect)
      ensures peer.Some? ==>
                log == old(log) &&
                pendingConnect == if peer.value in old(pendingConnect) then old(pendingConnect)
                                  else old(pendingConnect)[peer.value := f]
      ensures keys == old(keys) && pendingDisconnect == old(pendingDisconnect)
    {
      if peer.None? {
        log := log + [RanConnect(f, None)];
        return;
      }
      if peer.value !in pendingConnect {
        pendingConnect := pendingConnect[peer.value := f];
      }
    }

    /** disconnect(peer, f): ask the transport to close after pending sends, and let f wait for
        the disconnect event (emplace). */
    method Disconnect(peer: Peer, f: Callback)
      modifies this
      ensures log == old(log) + [DisconnectLater(peer)]
      ensures pendingDisconnect == if peer in old(pendingDisconnect) then old(pendingDisconnect)
                                   else old(pendingDisconnect)[peer := f]
      ensures keys == old(keys) && pendingConnect == old(pendingConnect)
    {
      log := log + [DisconnectLater(peer)];
      if peer !in pendingDisconnect {
        pendingDisconnect := pendingDisconnect[peer := f];
      }
    }

    /** A connect event: a waiting callback runs once with the peer and is dropped; with none
        waiting, only a server calls its connected hook. */
    method OnConnect(peer: Peer)
      modifies this
      ensures peer in old(pendingConnect) ==>
                log == old(log) + [RanConnect(old(pendingConnect)[peer], Some(peer))] &&
                pendingConnect == old(pendingConnect) - {peer}
      ensures peer !in old(pendingConnect) ==>
                log == old(log) + (if isServer then [Connected(peer)] else []) &&
                pendingConnect == old(pendingConnect)
      ensures keys == old(keys) && pendingDisconnect == old(pendingDisconnect)
    {
      if peer in pendingConnect {
        log := log + [RanConnect(pendingConnect[peer], Some(peer))];
        pendingConnect := pendingConnect - {peer};
      } else if isServer {
        log := log + [Connected(peer)];
      }
    }

    /** A disconnect event: the peer's key is always forgotten; a waiting callback runs once and
        is dropped, otherwise the disconnected hook is called. */
    method OnDisconnect(peer: Peer)
      modifies this
      ensures keys == old(keys) - {peer}
      ensures peer in old(pendingDisconnect) ==>
                log == old(log) + [RanDisconnect(old(pendingDisconnect)[peer])] &&
                pendingDisconnect == old(pendingDisconnect) - {peer}
      ensures peer !in old(pendingDisconnect) ==>
                log == old(log) + [Disconnected(peer)] && pendingDisconnect == old(pendingDisconnect)
      ensures pendingConnect == old(pendingConnect)
    {
      keys := keys - {peer};
      if peer in pendingDisconnect {
        log := log + [RanDisconnect(pendingDisconnect[peer])];
        pendingDisconnect := pendingDisconnect - {peer};
      } else {
        log := log + [Disconnected(peer)];
      }
    }

    /** setKeyFor(peer, key). */
    method SetKeyFor(peer: Peer, key: XorKey)
      modifies this
      ensures keys == old(keys)[peer := key]
      ensures pendingConnect == old(pendingConnect) && pendingDisconnect == old(pendingDisconnect) && log == old(log)
    {
      keys := keys[peer := key];
    }

    /** cipher(peer, packet): nothing without a key for the peer; otherwise the loop over the
        packet XORs key[j] into the first byte, j running round the key. */
    method Cipher(peer: Peer, data: array<Byte>)
      modifies data
      ensures data[..] == if peer in keys then Ciphered(old(data[..]), keys[peer]) else old(data[..])
    {
      if peer !in keys {
        return;
      }
      var key := keys[peer];
      if data.Length == 0 {
        return;
      }
      ghost var first := data[0];
      var j := 0;
      ghost var laps: nat := 0;
      for i := 0 to data.Length
        invariant 0 <= j < 4 && i == 4 * laps + j
        invariant data[0] == XorFold(first, key, i)
        invariant forall p :: 1 <= p < data.Length ==> data[p] == old(data[p])
      {
        KeyByteAt(key, i, laps, j);
        data[0] := data[0] ^ key[j];
        j := j + 1;
        if j == |key| {
          j := 0;
          laps := laps + 1;
        }
      }
      XorFoldStream(first, key, data.Length);
      assert data[..] == old(data[..])[0 := first ^ KeyStreamXor(key, data.Length)];
    }

    /** A receive event: decipher in place, check the type tag against COUNT (fatal otherwise)
        and dispatch with the number of whole continuation elements after the header. */
    method OnReceive(peer: Peer, data: array<Byte>, layout: Byte -> Layout) returns (r: Received)
      requires data.Length >= 1 && data.Length < SizeLimit
      requires forall t :: layout(t).WithContinuation? ==> layout(t).contSize > 0 && layout(t).headerSize < SizeLimit
      modifies data
      ensures data[..] == if peer in keys then Ciphered(old(data[..]), keys[peer]) else old(data[..])
      ensures data[0] as int >= TagCount ==> r == Fatal
      ensures data[0] as int < TagCount ==>
                r == Dispatched(peer, data[0], data[..],
                                match layout(data[0])
                                case Fixed => 0
                                case WithContinuation(h, c) => ContinuationCount(data.Length, h, c))
    {
      Cipher(peer, data);
      var tag := data[0];
      if tag as int >= TagCount {
        return Fatal;
      }
      var count := 0;
      match layout(tag) {
        case Fixed =>
        case WithContinuation(h, c) =>
          count := ((data.Length - h) % SizeLimit) / c;
      }
      return Dispatched(peer, tag, data[..], count);
    }

    /** send(peer, channel, flag, packet): sizeof(packet) bytes, enciphered for the peer. */
    method Send(peer: Peer, channel: Channel, packet: seq<Byte>)
      modifies this
      ensures log == old(log) + [Sent(peer, channel, if peer in keys then Ciphered(packet, keys[peer]) else packet)]
      ensures keys == old(keys) && pendingConnect == old(pendingConnect) && pendingDisconnect == old(pendingDisconnect)
    {
      var data := new Byte[|packet|](i requires 0 <= i < |packet| => packet[i]);
      assert data[..] == packet;
      Cipher(peer, data);
      log := log + [Sent(peer, channel, data[..])];
    }

    /** send(peer, channel, flag, packet, cont): the header followed by the elements, in one
        packet of sizeof(packet) + n * sizeof(Cont) bytes, enciphered for the peer. */
    method SendWithContinuation(peer: Peer, channel: Channel, header: seq<Byte>, cont: seq<seq<Byte>>, ghost contSize: nat)
      requires forall k :: 0 <= k < |cont| ==> |cont[k]| == contSize
      modifies this
      ensures var bytes := header + Flatten(cont);
              |bytes| == |header| + |cont| * contSize &&
              log == old(log) + [Sent(peer, channel, if peer in keys then Ciphered(bytes, keys[peer]) else bytes)]
      ensures keys == old(keys) && pendingConnect == old(pendingConnect) && pendingDisconnect == old(pendingDisconnect)
    {
      FlattenLength(cont, contSize);
      Send(peer, channel, header + Flatten(cont));
    }
  }

  /** The Service of tasks/task4/common/Service.hpp: no keys, no continuations. */
  class PlainService {
    const isServer: bool
    var pendingConnect: map<Peer, Callback>
    var pendingDisconnect: map<Peer, Callback>
    var log: seq<Effect>

    constructor(isServer: bool)
      ensures this.isServer == isServer
      ensures pendingConnect == map[] && pendingDisconnect == map[] && log == []
    {
      this.isServer := isServer;
      pendingConnect := map[];
      pendingDisconnect := map[];
      log := [];
    }

    /** connect(address, f). */
    method Connect(peer: Option<Peer>, f: Callback)
      modifies this
      ensures peer.None? ==> log == old(log) + [RanConnect(f, None)] && pendingConnect == old(pendingConnect)
      ensures peer.Some? ==>
                log == old(log) &&
                pendingConnect == if peer.value in old(pendingConnect) then old(pendingConnect)
                                  else old(pendingConnect)[peer.value := f]
      ensures pendingDisconnect == old(pendingDisconnect)
    {
      if peer.None? {
        log := log + [RanConnect(f, None)];
        return;
      }
      if peer.value !in pendingConnect {
        pendingConnect := pendingConnect[peer.value := f];
      }
    }

    /** disconnect(peer, f). */
    method Disconnect(peer: Peer, f: Callback)
      modifies this
      ensures log == old(log) + [DisconnectLater(peer)]
      ensures pendingDisconnect == if peer in old(pendingDisconnect) then old(pendingDisconnect)
                                   else old(pendingDisconnect)[peer := f]
      ensures pendingConnect == old(pendingConnect)
    {
      log := log + [DisconnectLater(peer)];
      if peer !in pendingDisconnect {
        pendingDisconnect := pendingDisconnect[peer := f];
      }
    }

    /** A connect event. */
    method OnConnect(peer: Peer)
      modifies this
      ensures peer in old(pendingConnect) ==>
                log == old(log) + [RanConnect(old(pendingConnect)[peer], Some(peer))] &&
                pendingConnect == old(pendingConnect) - {peer}
      ensures peer !in old(pendingConnect) ==>
                log == old(log) + (if isServer then [Connected(peer)] else []) &&
                pendingConnect == old(pendingConnect)
      ensures pendingDisconnect == old(pendingDisconnect)
    {
      if peer in pendingConnect {
        log := log + [RanConnect(pendingConnect[peer], Some(peer))];
        pendingConnect := pendingConnect - {peer};
      } else if isServer {
        log := log + [Connected(peer)];
      }
    }

    /** A disconnect event: a waiting callback runs once, otherwise the disconnected hook. */
    method OnDisconnect(peer: Peer)
      modifies this
      ensures peer in old(pendingDisconnect) ==>
                log == old(log) + [RanDisconnect(old(pendingDisconnect)[peer])] &&
                pendingDisconnect == old(pendingDisconnect) - {peer}
      ensures peer !in old(pendingDisconnect) ==>
                log == old(log) + [Disconnected(peer)] && pendingDisconnect == old(pendingDisconnect)
      ensures pendingConnect == old(pendingConnect)
    {
      if peer in pendingDisconnect {
        log := log + [RanDisconnect(pendingDisconnect[peer])];
        pendingDisconnect := pendingDisconnect - {peer};
      } else {
        log := log + [Disconnected(peer)];
      }
    }

    /** A receive event: the type tag must be below COUNT (fatal otherwise). */
    method OnReceive(peer: Peer, data: seq<Byte>) returns (r: Received)
      requires |data| >= 1
      ensures data[0] as int >= PlainTagCount ==> r == Fatal
      ensures data[0] as int < PlainTagCount ==> r == Dispatched(peer, data[0], data, 0)
    {
      if data[0] as int >= PlainTagCount {
        return Fatal;
      }
      return Dispatched(peer, data[0], data, 0);
    }

    /** send(peer, channel, flag, packet): exactly sizeof(packet) bytes, as they are. */
    method Send(peer: Peer, channel: Channel, packet: seq<Byte>)
      modifies this
      ensures log == old(log) + [Sent(peer, channel, packet)]
      ensures pendingConnect == old(pendingConnect) && pendingDisconnect == old(pendingDisconnect)
    {
      log := log + [Sent(peer, channel, packet)];
    }
  }
}
