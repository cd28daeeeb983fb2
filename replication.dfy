// The byte-diff replication channel of tasks/task5/common/Replication.hpp.
// Each (peer, channel) session keeps the last state received from the remote
// side and a deque of local states, newest at the front. `replicate` pushes a
// new local state and sends its diff against the oldest retained (last acked)
// state; acks trim the deque from the back. A diff is a change mask plus the
// changed bytes, written with the byte stream codec.
module Replication {
  import opened Types
  import opened ByteStream

  // ---------------------------------------------------------------------------
  // Specification of delta and apply

  /** Position i of recent is unchanged iff prev has a byte there and it is equal. */
  function ChangedMask(prev: seq<Byte>, recent: seq<Byte>): (m: seq<bool>)
    ensures |m| == |recent|
  {
    seq(|recent|, i requires 0 <= i < |recent| => !(i < |prev| && prev[i] == recent[i]))
  }

  /** Number of set flags. */
  function CountTrue(m: seq<bool>): (n: nat)
    ensures n <= |m|
  {
    if m == [] then 0 else CountTrue(m[..|m| - 1]) + (if m[|m| - 1] then 1 else 0)
  }

  /** The bytes s[i] with m[i] set, in increasing i. */
  function Select(s: seq<Byte>, m: seq<bool>): (r: seq<Byte>)
    requires |s| == |m|
    ensures |r| == CountTrue(m)
  {
    if s == [] then []
    else Select(s[..|s| - 1], m[..|m| - 1]) + (if m[|m| - 1] then [s[|s| - 1]] else [])
  }

  /** The wire form of delta(prev, recent): the change mask, then the changed bytes as a span. */
  function DeltaBytes(prev: seq<Byte>, recent: seq<Byte>): seq<Byte>
    requires |recent| < U64_LIMIT
  {
    var m := ChangedMask(prev, recent);
    EncodeBoolMask(m) + EncodeSpan(CountTrue(m), Select(recent, m))
  }

  /** prev copied into a vector and resized to n: truncated, or padded with zero bytes. */
  function Resized(prev: seq<Byte>, n: nat): (r: seq<Byte>)
    ensures |r| == n
    ensures forall i :: 0 <= i < n ==> r[i] == if i < |prev| then prev[i] else 0
  {
    if n <= |prev| then prev[..n] else prev + seq(n - |prev|, _ => 0)
  }

  lemma SelectSnoc(s: seq<Byte>, m: seq<bool>, i: nat, c: bool)
    requires i < |s| && |m| == i
    ensures Select(s[..i + 1], m + [c]) == Select(s[..i], m) + (if c then [s[i]] else [])
  {
    assert s[..i + 1][..i] == s[..i];
    assert (m + [c])[..i] == m;
  }

  lemma CountTrueSnoc(m: seq<bool>, i: nat)
    requires i < |m|
    ensures CountTrue(m[..i + 1]) == CountTrue(m[..i]) + (if m[i] then 1 else 0)
  {
    assert m[..i + 1][..i] == m[..i];
  }

  lemma {:induction false} CountTruePrefix(m: seq<bool>, i: nat)
    requires i <= |m|
    ensures CountTrue(m[..i]) <= CountTrue(m)
    ensures i < |m| && m[i] ==> CountTrue(m[..i]) < CountTrue(m)
    decreases |m| - i
  {
    if i < |m| {
      CountTruePrefix(m, i + 1);
      CountTrueSnoc(m, i);
    } else {
      assert m[..i] == m;
    }
  }

  /** Byte i of apply's result: the next changed byte if flag i is set, otherwise the prev byte or 0. */
  function PatchAt(prev: seq<Byte>, m: seq<bool>, del: seq<Byte>, i: nat): Byte
    requires CountTrue(m) <= |del| && i < |m|
  {
    if m[i] then
      CountTruePrefix(m, i);
      del[CountTrue(m[..i])]
    else Resized(prev, |m|)[i]
  }

  function Patch(prev: seq<Byte>, m: seq<bool>, del: seq<Byte>): (r: seq<Byte>)
    requires CountTrue(m) <= |del|
    ensures |r| == |m|
  {
    seq(|m|, i requires 0 <= i < |m| => PatchAt(prev, m, del, i))
  }

  /** apply(prev, d): None where the source would read past the end of d or of the changed bytes. */
  function ApplyDelta(prev: seq<Byte>, d: seq<Byte>): Option<seq<Byte>>
  {
    match DecodeBoolMask(d)
    case None => None
    case Some((m, rest)) =>
      match DecodeVector(rest, 1)
      case None => None
      case Some((_, del, _)) =>
        if CountTrue(m) <= |del| then Some(Patch(prev, m, del)) else None
  }

  /** The changed byte for a set flag i sits at the number of flags set before i. */
  lemma {:induction false} SelectAt(s: seq<Byte>, m: seq<bool>, i: nat)
    requires |s| == |m| && i < |m| && m[i]
    ensures CountTrue(m[..i]) < |Select(s, m)|
    ensures Select(s, m)[CountTrue(m[..i])] == s[i]
  {
    var n := |s|;
    var s', m' := s[..n - 1], m[..n - 1];
    CountTruePrefix(m, i);
    if i < n - 1 {
      SelectAt(s', m', i);
      assert m'[..i] == m[..i];
    } else {
      assert m[..i] == m';
    }
  }

  lemma PatchSelect(prev: seq<Byte>, recent: seq<Byte>)
    ensures Patch(prev, ChangedMask(prev, recent), Select(recent, ChangedMask(prev, recent))) == recent
  {
    var m := ChangedMask(prev, recent);
    var del := Select(recent, m);
    forall i | 0 <= i < |recent|
      ensures Patch(prev, m, del)[i] == recent[i]
    {
      if m[i] {
        SelectAt(recent, m, i);
      }
    }
  }

  /** The headline property: applying the diff of prev and recent to prev rebuilds recent. */
  lemma ApplyDeltaRoundTrip(prev: seq<Byte>, recent: seq<Byte>)
    requires |recent| < U64_LIMIT
    ensures ApplyDelta(prev, DeltaBytes(prev, recent)) == Some(recent)
  {
    var m := ChangedMask(prev, recent);
    var del := Select(recent, m);
    var span := EncodeSpan(CountTrue(m), del);
    BoolMaskRoundTrip(m, span);
    assert span + [] == span;
    VectorRoundTrip(CountTrue(m), 1, del, []);
    PatchSelect(prev, recent);
  }

  /** A diff has the mask length |recent|, and it marks exactly the bytes that differ. */
  lemma DeltaMarksChanges(prev: seq<Byte>, recent: seq<Byte>, rest: seq<Byte>)
    requires |recent| < U64_LIMIT
    ensures DecodeBoolMask(DeltaBytes(prev, recent) + rest).Some?
    ensures var (m, _) := DecodeBoolMask(DeltaBytes(prev, recent) + rest).value;
            |m| == |recent| &&
            forall i :: 0 <= i < |recent| ==> (m[i] <==> !(i < |prev| && prev[i] == recent[i]))
  {
    var m := ChangedMask(prev, recent);
    var span := EncodeSpan(CountTrue(m), Select(recent, m));
    assert DeltaBytes(prev, recent) + rest == EncodeBoolMask(m) + (span + rest);
    BoolMaskRoundTrip(m, span + rest);
  }

  /** The changed bytes carried by a diff are exactly the bytes of recent at changed positions. */
  lemma DeltaCarriesChangedBytes(prev: seq<Byte>, recent: seq<Byte>, i: nat)
    requires |recent| < U64_LIMIT && i < |recent| && !(i < |prev| && prev[i] == recent[i])
    ensures var m := ChangedMask(prev, recent);
            CountTrue(m[..i]) < CountTrue(m) && Select(recent, m)[CountTrue(m[..i])] == recent[i]
  {
    SelectAt(recent, ChangedMask(prev, recent), i);
  }

  /** Bytes of apply's result: a set flag takes a changed byte, a clear one keeps prev or is 0. */
  lemma ApplyKeepsUnchanged(prev: seq<Byte>, d: seq<Byte>, i: nat)
    requires ApplyDelta(prev, d).Some?
    requires var (m, _) := DecodeBoolMask(d).value; i < |m| && !m[i]
    ensures i < |ApplyDelta(prev, d).value|
    ensures ApplyDelta(prev, d).value[i] == if i < |prev| then prev[i] else 0
    ensures |ApplyDelta(prev, d).value| == |DecodeBoolMask(d).value.0|
  {
  }

  // ---------------------------------------------------------------------------
  // Sessions

  datatype ReplState = ReplState(sequence: nat, data: seq<Byte>)

  datatype ReplicationData = ReplicationData(remoteState: seq<Byte>, localStates: seq<ReplState>)

  type Key = (Peer, Channel)

  /** Packets the channel sends: a PReplication with its diff as continuation, or an ack. */
  datatype Outgoing =
    | SendReplication(peer: Peer, channel: Channel, sequence: nat, delta: seq<Byte>)
    | SendAck(peer: Peer, channel: Channel, sequence: nat)

  /** Local states, front to back, carry consecutive decreasing sequence numbers. */
  ghost predicate Consecutive(states: seq<ReplState>)
  {
    forall k :: 0 <= k < |states| - 1 ==> states[k].sequence == states[k + 1].sequence + 1
  }

  /** The ack loop: drop back entries while the back's sequence is below the ack. */
  function TrimAcked(states: seq<ReplState>, ack: nat): (r: seq<ReplState>)
  {
    if states != [] && states[|states| - 1].sequence < ack then TrimAcked(states[..|states| - 1], ack)
    else states
  }

  /** Trimming keeps a prefix (front part) and stops at the first entry from the back not below the ack. */
  lemma {:induction false} TrimAckedPrefix(states: seq<ReplState>, ack: nat)
    ensures var r := TrimAcked(states, ack);
            |r| <= |states| && r == states[..|r|] &&
            (r != [] ==> r[|r| - 1].sequence >= ack) &&
            forall k :: |r| <= k < |states| ==> states[k].sequence < ack
  {
    if states != [] && states[|states| - 1].sequence < ack {
      var init := states[..|states| - 1];
      TrimAckedPrefix(init, ack);
      var r := TrimAcked(init, ack);
      assert states[..|r|] == init[..|r|];
    }
  }

  /** With consecutive sequences, an ack no newer than the front keeps the front and every
      entry whose sequence is at least the ack. */
  lemma {:induction false} TrimAckedKeepsFront(states: seq<ReplState>, ack: nat)
    requires Consecutive(states) && states != [] && ack <= states[0].sequence
    ensures var r := TrimAcked(states, ack);
            r != [] && r[0] == states[0] &&
            forall k :: 0 <= k < |r| ==> r[k].sequence >= ack
  {
    TrimAckedPrefix(states, ack);
    var r := TrimAcked(states, ack);
    forall k | 0 <= k < |r|
      ensures r[k].sequence >= ack
    {
      ConsecutiveDecreasing(states, k, |r| - 1);
    }
  }

  lemma {:induction false} ConsecutiveDecreasing(states: seq<ReplState>, i: nat, j: nat)
    requires Consecutive(states) && i <= j < |states|
    ensures states[i].sequence >= states[j].sequence + (j - i)
    decreases j - i
  {
    if i < j {
      ConsecutiveDecreasing(states, i + 1, j);
    }
  }

  /** A repeated ack changes nothing. */
  lemma TrimAckedIdempotent(states: seq<ReplState>, ack: nat)
    ensures TrimAcked(TrimAcked(states, ack), ack) == TrimAcked(states, ack)
  {
    TrimAckedPrefix(states, ack);
  }

  /** A stale ack (no newer than one already applied) changes nothing. */
  lemma {:induction false} TrimAckedStale(states: seq<ReplState>, ack: nat, stale: nat)
    requires stale <= ack
    ensures TrimAcked(TrimAcked(states, ack), stale) == TrimAcked(states, ack)
  {
    TrimAckedPrefix(states, ack);
  }

  lemma TrimAckedConsecutive(states: seq<ReplState>, ack: nat)
    requires Consecutive(states)
    ensures Consecutive(TrimAcked(states, ack))
  {
    TrimAckedPrefix(states, ack);
  }

  class ReplicationHost {
    /** replication_: one session per (peer, channel). */
    var replication: map<Key, ReplicationData>
    /** Packets handed to send(), in order. */
    var outbox: seq<Outgoing>
    /** The (peer, channel, remoteState) arguments of each handleReplication call, in order. */
    var handled: seq<(Peer, Channel, seq<Byte>)>

    ghost predicate Valid()
      reads this
    {
      forall key :: key in replication ==> Consecutive(replication[key].localStates)
    }

    constructor()
      ensures Valid()
      ensures replication == map[] && outbox == [] && handled == []
    {
      replication := map[];
      outbox := [];
      handled := [];
    }

    /** The loop of delta(prev, recent): the change mask and the changed bytes, in order. */
    static method DiffLoop(prev: seq<Byte>, recent: seq<Byte>) returns (changed: seq<bool>, del: seq<Byte>)
      ensures changed == ChangedMask(prev, recent)
      ensures del == Select(recent, changed)
    {
      ghost var mask := ChangedMask(prev, recent);
      changed := [];
      del := [];
      for i := 0 to |recent|
        invariant changed == mask[..i]
        invariant del == Select(recent[..i], changed)
      {
        var c := !(i < |prev| && prev[i] == recent[i]);
        SelectSnoc(recent, changed, i, c);
        assert mask[..i + 1] == mask[..i] + [c];
        if !c {
          changed := changed + [false];
        } else {
          changed := changed + [true];
          del := del + [recent[i]];
        }
      }
      assert recent[..|recent|] == recent;
      assert mask[..|recent|] == mask;
    }

    /** delta(prev, recent): the mask and the changed bytes written to a stream. */
    static method Delta(prev: seq<Byte>, recent: seq<Byte>) returns (d: seq<Byte>)
      requires |recent| < U64_LIMIT
      ensures d == DeltaBytes(prev, recent)
    {
      var changed, del := DiffLoop(prev, recent);
      ghost var mask := EncodeBoolMask(changed);
      ghost var span := EncodeSpan(|del|, del);
      var s := new ByteOstream();
      s.WriteBoolMask(changed);
      assert s.data == mask;
      s.WriteSpan(|del|, 1, del);
      assert s.data == mask + span;
      d := s.Finalize();
    }

    /** apply(prev, delta): read the mask and the changed bytes, then patch. */
    static method Apply(prev: seq<Byte>, delta: seq<Byte>) returns (result: seq<Byte>)
      requires ApplyDelta(prev, delta).Some?
      ensures ApplyDelta(prev, delta) == Some(result)
    {
      var s := new ByteIstream(delta);
      var changed := s.ReadBoolMask();
      var count, del := s.ReadVector(1);
      result := PatchLoop(prev, changed, del);
    }

    /** The loop of apply: copy prev resized to the mask length, then overwrite the flagged
        positions with the changed bytes in order. */
    static method PatchLoop(prev: seq<Byte>, changed: seq<bool>, del: seq<Byte>) returns (result: seq<Byte>)
      requires CountTrue(changed) <= |del|
      ensures result == Patch(prev, changed, del)
    {
      result := Resized(prev, |changed|);
      var j := 0;
      for i := 0 to |changed|
        invariant |result| == |changed|
        invariant j == CountTrue(changed[..i])
        invariant forall k :: 0 <= k < i ==> result[k] == PatchAt(prev, changed, del, k)
        invariant forall k :: i <= k < |changed| ==> result[k] == Resized(prev, |changed|)[k]
      {
        CountTrueSnoc(changed, i);
        if changed[i] {
          CountTruePrefix(changed, i);
          result := result[i := del[j]];
          j := j + 1;
        }
      }
    }

    /** handlePacket(PReplication): patch the remote state with the received diff, ack the
        packet's sequence, and hand the new remote state to handleReplication. Deltas are
        assumed to arrive in send order: the diff is applied to whatever state is held.
        An unknown session is an error (map::at throws) and changes nothing. */
    method HandleReplication(peer: Peer, chan: Channel, sequence: nat, cont: seq<Byte>) returns (ok: bool)
      requires (peer, chan) in replication ==> ApplyDelta(replication[(peer, chan)].remoteState, cont).Some?
      requires Valid()
      modifies this
      ensures Valid()
      ensures ok == ((peer, chan) in old(replication))
      ensures !ok ==> replication == old(replication) && outbox == old(outbox) && handled == old(handled)
      ensures ok ==>
        var r := old(replication)[(peer, chan)];
        var remote := ApplyDelta(r.remoteState, cont).value;
        replication == old(replication)[(peer, chan) := r.(remoteState := remote)] &&
        outbox == old(outbox) + [SendAck(peer, chan, sequence)] &&
        handled == old(handled) + [(peer, chan, remote)]
    {
      if (peer, chan) !in replication {
        return false;
      }
      var replData := replication[(peer, chan)];
      var remote := Apply(replData.remoteState, cont);
      replication := replication[(peer, chan) := replData.(remoteState := remote)];
      outbox := outbox + [SendAck(peer, chan, sequence)];
      handled := handled + [(peer, chan, remote)];
      ok := true;
    }

    /** handlePacket(PReplicationAck): pop back states older than the acked sequence. The loop
        may empty the deque when the ack is newer than every retained state. */
    method HandleAck(peer: Peer, chan: Channel, ack: nat) returns (ok: bool)
      requires Valid()
      modifies this
      ensures Valid()
      ensures outbox == old(outbox) && handled == old(handled)
      ensures ok == ((peer, chan) in old(replication))
      ensures !ok ==> replication == old(replication)
      ensures ok ==>
        var r := old(replication)[(peer, chan)];
        replication == old(replication)[(peer, chan) := r.(localStates := TrimAcked(r.localStates, ack))]
    {
      if (peer, chan) !in replication {
        return false;
      }
      var replData := replication[(peer, chan)];
      var states := replData.localStates;
      while states != [] && states[|states| - 1].sequence < ack
        invariant TrimAcked(states, ack) == TrimAcked(replData.localStates, ack)
        decreases |states|
      {
        states := states[..|states| - 1];
      }
      TrimAckedConsecutive(replData.localStates, ack);
      replication := replication[(peer, chan) := replData.(localStates := states)];
      ok := true;
    }

    /** setupReplication: emplace a session whose only local state is {0, []}; an existing
        session is left as it is. */
    method SetupReplication(peer: Peer, chan: Channel)
      requires Valid()
      modifies this
      ensures Valid()
      ensures outbox == old(outbox) && handled == old(handled)
      ensures (peer, chan) in old(replication) ==> replication == old(replication)
      ensures (peer, chan) !in old(replication) ==>
        replication == old(replication)[(peer, chan) := ReplicationData([], [ReplState(0, [])])]
    {
      if (peer, chan) !in replication {
        replication := replication[(peer, chan) := ReplicationData([], [ReplState(0, [])])];
      }
    }

    /** stopReplication: erase the session, if any. */
    method StopReplication(peer: Peer, chan: Channel)
      requires Valid()
      modifies this
      ensures Valid()
      ensures outbox == old(outbox) && handled == old(handled)
      ensures replication == old(replication) - {(peer, chan)}
    {
      replication := replication - {(peer, chan)};
    }

    /** replicate: push the new state at the front with the next sequence number and send its
        diff against the back (the oldest retained, last acked) state. The session must exist
        (map::at throws otherwise) and hold a state (front() of an empty deque is undefined). */
    method Replicate(peer: Peer, chan: Channel, bytes: seq<Byte>) returns (ok: bool)
      requires Valid()
      requires (peer, chan) in replication ==> replication[(peer, chan)].localStates != []
      requires |bytes| < U64_LIMIT
      modifies this
      ensures Valid()
      ensures handled == old(handled)
      ensures ok == ((peer, chan) in old(replication))
      ensures !ok ==> replication == old(replication) && outbox == old(outbox)
      ensures ok ==>
        var r := old(replication)[(peer, chan)];
        var newState := ReplState(r.localStates[0].sequence + 1, bytes);
        var lastAcked := r.localStates[|r.localStates| - 1];
        replication == old(replication)[(peer, chan) := r.(localStates := [newState] + r.localStates)] &&
        outbox == old(outbox) + [SendReplication(peer, chan, newState.sequence, DeltaBytes(lastAcked.data, bytes))]
    {
      if (peer, chan) !in replication {
        return false;
      }
      var replData := replication[(peer, chan)];
      var newState := ReplState(replData.localStates[0].sequence + 1, bytes);
      var states := [newState] + replData.localStates;
      replication := replication[(peer, chan) := replData.(localStates := states)];
      var lastAcked := states[|states| - 1];
      var del := Delta(lastAcked.data, newState.data);
      outbox := outbox + [SendReplication(peer, chan, newState.sequence, del)];
      ok := true;
    }
  }

  /** Delivered in order: a receiver whose remote state is the sender's last acked state
      rebuilds exactly the newly replicated bytes from the diff it is sent. */
  lemma InOrderDelivery(sender: ReplicationData, receiverRemote: seq<Byte>, bytes: seq<Byte>)
    requires sender.localStates != [] && |bytes| < U64_LIMIT
    requires receiverRemote == sender.localStates[|sender.localStates| - 1].data
    ensures ApplyDelta(receiverRemote, DeltaBytes(sender.localStates[|sender.localStates| - 1].data, bytes)) == Some(bytes)
  {
    ApplyDeltaRoundTrip(receiverRemote, bytes);
  }
}
