// The task6 client of tasks/task6/client.cpp: the entities it shows, a buffer of
// timestamped snapshots (oldest at the front) built from full snapshots and from
// deltas applied to a copy of the newest one, the choice of the two oldest
// buffered snapshots to interpolate between, the trimming of the player's
// velocity history, the merge of interpolated values into the shown entities and
// the rate-limited input send. Times are integers (milliseconds); float blending,
// simulation and vector lengths are inputs.
module SnapshotClient {
  import opened Types
  import opened Zip

  /** A buffered snapshot and the time it was received. */
  datatype Snapshot = Snapshot(state: GameState, time: int)

  /** One entry of the player's velocity history. */
  datatype InputSnapshot = InputSnapshot(vel: Vec2, time: int)

  datatype Outgoing =
    | SnapshotDeltaAck(sequence: nat)
    /** PPlayerInput; the snorm packing of the desired speed is not modelled. */
    | PlayerInput(desiredSpeed: Vec2)

  /** Snapshots buffered after a delta at most. */
  const MaxSnapshots: nat := 10

  /** kSendRate, in milliseconds. */
  const SendRateMs: int := 60

  // ---------------------------------------------------------------------------
  // Applying deltas

  /** The zipById callback of the delta handler: a Pos delta overwrites the position with the
      value's bits, a SizeColor delta takes size from the high half and color from the low half. */
  function ApplyEntityDelta(e: Entity, d: EntityDelta): (r: Entity)
    ensures r.id == e.id && r.vel == e.vel
  {
    match d.field
    case Pos => e.(pos := PosFromBits(d.value))
    case SizeColor => e.(size := UnpackSize(d.value), color := UnpackColor(d.value))
  }

  /** A server delta for entity e read back on the client restores the server's fields. */
  lemma ApplyEntityDeltaInvertsPacking(e: Entity, n: Entity)
    ensures ApplyEntityDelta(e, EntityDelta(n.id, Pos, PosBits(n.pos))).pos == n.pos
    ensures var r := ApplyEntityDelta(e, EntityDelta(n.id, SizeColor, PackSizeColor(n.size, n.color)));
            r.size == n.size && r.color == n.color && r.pos == e.pos
  {
    PosBitsRoundTrip(n.pos);
    SizeColorRoundTrip(n.size, n.color);
  }

  /** The new snapshot state of the delta handler as written: the newest state's entities
      sorted by id, the deltas sorted by id, and the callback folded over zipById's calls. */
  function ZipApply(back: GameState, deltas: seq<EntityDelta>): GameState
  {
    var nf := SortByKey(back.entities, EntityId);
    var sd := SortByKey(deltas, DeltaId);
    GameState(back.sequence, FoldCalls(nf, sd, Walk(nf, sd, EntityId, DeltaId, 0, 0), ApplyEntityDelta))
  }

  /** Applying deltas keeps the sequence and the ids: the result is the sorted entity vector
      with only positions, sizes and colors rewritten. */
  lemma ZipApplyKeepsIds(back: GameState, deltas: seq<EntityDelta>)
    ensures var r := ZipApply(back, deltas);
            var nf := SortByKey(back.entities, EntityId);
            r.sequence == back.sequence && |r.entities| == |nf| &&
            (forall k :: 0 <= k < |nf| ==> r.entities[k].id == nf[k].id && r.entities[k].vel == nf[k].vel) &&
            multiset(nf) == multiset(back.entities)
  {
    var nf := SortByKey(back.entities, EntityId);
    var sd := SortByKey(deltas, DeltaId);
    var calls := Walk(nf, sd, EntityId, DeltaId, 0, 0);
    FoldCallsKeys(nf, sd, calls, ApplyEntityDelta, EntityId);
    FoldCallsKeys(nf, sd, calls, ApplyEntityDelta, (e: Entity) => e.vel.x);
    FoldCallsKeys(nf, sd, calls, ApplyEntityDelta, (e: Entity) => e.vel.y);
    SortByKeyPermutes(back.entities, EntityId);
  }

  /** The delta handler's new state: the newest state's entities and the deltas copied into
      vectors, zipped by id, and the callback applied to each pair found. */
  method ApplyDeltas(back: GameState, deltas: seq<EntityDelta>) returns (r: GameState)
    ensures r == ZipApply(back, deltas)
  {
    var first := ToArray(back.entities);
    var second := ToArray(deltas);
    var calls := ZipById(first, second, EntityId, DeltaId);
    ApplyCalls(first, second[..], calls, ApplyEntityDelta);
    r := back.(entities := first[..]);
  }

  /** With unique ids on both sides, an entity with a delta for its id gets exactly that delta
      applied, every other entity is unchanged, and deltas for ids not in the snapshot are
      ignored. */
  lemma ZipApplyUniqueDeltas(back: GameState, deltas: seq<EntityDelta>)
    requires UniqueKeys(back.entities, EntityId) && UniqueKeys(deltas, DeltaId)
    ensures var r := ZipApply(back, deltas).entities;
            var nf := SortByKey(back.entities, EntityId);
            forall k :: 0 <= k < |nf| ==>
              (forall d :: d in deltas && d.id == nf[k].id ==> r[k] == ApplyEntityDelta(nf[k], d)) &&
              ((forall d :: d in deltas ==> d.id != nf[k].id) ==> r[k] == nf[k])
  {
    var nf := SortByKey(back.entities, EntityId);
    var sd := SortByKey(deltas, DeltaId);
    var calls := Walk(nf, sd, EntityId, DeltaId, 0, 0);
    SortByKeyUnique(back.entities, EntityId);
    SortByKeyUnique(deltas, DeltaId);
    SortByKeyPermutes(deltas, DeltaId);
    WalkIncreasing(nf, sd, EntityId, DeltaId, 0, 0);
    FoldCallsEffect(nf, sd, calls, ApplyEntityDelta);
    forall k, d | 0 <= k < |nf| && d in deltas && d.id == nf[k].id
      ensures FoldCalls(nf, sd, calls, ApplyEntityDelta)[k] == ApplyEntityDelta(nf[k], d)
    {
      DeltaFound(nf, sd, deltas, k, d);
    }
    forall k | 0 <= k < |nf| && (forall d :: d in deltas ==> d.id != nf[k].id)
      ensures FoldCalls(nf, sd, calls, ApplyEntityDelta)[k] == nf[k]
    {
      NoDeltaNoCall(nf, sd, deltas, k);
    }
  }

  /** A delta whose id matches sorted entity k is paired with it by the walk. */
  lemma DeltaFound(nf: seq<Entity>, sd: seq<EntityDelta>, deltas: seq<EntityDelta>, k: nat, d: EntityDelta)
    requires StrictlySorted(nf, EntityId) && StrictlySorted(sd, DeltaId)
    requires multiset(sd) == multiset(deltas)
    requires k < |nf| && d in deltas && d.id == nf[k].id
    ensures exists c :: c in Walk(nf, sd, EntityId, DeltaId, 0, 0) && c.0 == k && sd[c.1] == d
  {
    assert d in multiset(sd);
    var q :| 0 <= q < |sd| && sd[q] == d;
    WalkFindsPair(nf, sd, EntityId, DeltaId, k, q);
    assert (k, q) in Walk(nf, sd, EntityId, DeltaId, 0, 0);
  }

  /** Sorted entity k with no delta for its id is never handed to the callback. */
  lemma NoDeltaNoCall(nf: seq<Entity>, sd: seq<EntityDelta>, deltas: seq<EntityDelta>, k: nat)
    requires multiset(sd) == multiset(deltas)
    requires k < |nf| && forall d :: d in deltas ==> d.id != nf[k].id
    ensures forall c :: c in Walk(nf, sd, EntityId, DeltaId, 0, 0) ==> c.0 != k
  {
    forall c | c in Walk(nf, sd, EntityId, DeltaId, 0, 0)
      ensures c.0 != k
    {
      assert sd[c.1] in multiset(deltas);
    }
  }

  /** As written, an entity that both moved and changed size or color in one step loses one of
      its two deltas: after a match zipById advances past the entity, so the second delta with
      the same id is skipped. */
  lemma ZipApplyDropsSecondDelta()
    ensures var e := Entity(ZeroVec, ZeroVec, 1, 2, 5);
            var deltas := [EntityDelta(5, Pos, PosBits(Vec2(7, 8))), EntityDelta(5, SizeColor, PackSizeColor(3, 4))];
            var r := ZipApply(GameState(0, [e]), deltas).entities;
            |r| == 1 && r[0].pos == Vec2(7, 8) && r[0].size == 1 && r[0].color == 2
  {
    var e := Entity(ZeroVec, ZeroVec, 1, 2, 5);
    var deltas := [EntityDelta(5, Pos, PosBits(Vec2(7, 8))), EntityDelta(5, SizeColor, PackSizeColor(3, 4))];
    assert SortByKey([e], EntityId) == [e] by {
      assert [e][..0] == [];
    }
    assert SortByKey(deltas, DeltaId) == deltas by {
      assert deltas[..1] == [deltas[0]] && deltas[..1][..0] == [];
      assert SortByKey(deltas[..1], DeltaId) == [deltas[0]];
      assert Insert([deltas[0]], deltas[1], DeltaId) == deltas;
    }
    assert Walk([e], deltas, EntityId, DeltaId, 1, 1) == [];
    assert Walk([e], deltas, EntityId, DeltaId, 0, 0) == [(0, 0)];
    var calls := [(0, 0)];
    assert calls[..0] == [];
    assert FoldCalls([e], deltas, calls, ApplyEntityDelta) == [ApplyEntityDelta(e, deltas[0])];
    PosBitsRoundTrip(Vec2(7, 8));
  }

  /** The last value of the deltas for an id and field, if any. */
  function LastDelta(deltas: seq<EntityDelta>, id: int, field: EntityField): Option<u64>
  {
    if deltas == [] then None
    else
      var d := deltas[|deltas| - 1];
      if d.id == id && d.field == field then Some(d.value) else LastDelta(deltas[..|deltas| - 1], id, field)
  }

  /** An entity with an optional position value and an optional size/color value applied. */
  function Patched(e: Entity, pos: Option<u64>, sizeColor: Option<u64>): Entity
  {
    var e1 := if pos.Some? then e.(pos := PosFromBits(pos.value)) else e;
    if sizeColor.Some? then e1.(size := UnpackSize(sizeColor.value), color := UnpackColor(sizeColor.value)) else e1
  }

  /** The evidently intended delta application: every delta, in order, on the entity with its
      id (the first one, as find_if picks); deltas for unknown ids are ignored. */
  function ApplyAllDeltas(entities: seq<Entity>, deltas: seq<EntityDelta>): (r: seq<Entity>)
    ensures |r| == |entities|
    ensures forall k :: 0 <= k < |r| ==> r[k].id == entities[k].id
  {
    if deltas == [] then entities
    else
      var r := ApplyAllDeltas(entities, deltas[..|deltas| - 1]);
      var d := deltas[|deltas| - 1];
      var k := FindId(r, d.id);
      if k < 0 then r else r[k := ApplyEntityDelta(r[k], d)]
  }

  /** With unique entity ids, every entity ends with the last position and the last size/color
      sent for its id: both kinds of delta for one entity take effect. */
  lemma {:induction false} ApplyAllDeltasEffect(entities: seq<Entity>, deltas: seq<EntityDelta>)
    requires UniqueKeys(entities, EntityId)
    ensures var r := ApplyAllDeltas(entities, deltas);
            forall k :: 0 <= k < |entities| ==>
              r[k] == Patched(entities[k], LastDelta(deltas, entities[k].id, Pos), LastDelta(deltas, entities[k].id, SizeColor))
  {
    if deltas != [] {
      var init, d := deltas[..|deltas| - 1], deltas[|deltas| - 1];
      ApplyAllDeltasEffect(entities, init);
      var r := ApplyAllDeltas(entities, init);
      var k0 := FindId(r, d.id);
      forall k | 0 <= k < |entities|
        ensures ApplyAllDeltas(entities, deltas)[k] ==
                Patched(entities[k], LastDelta(deltas, entities[k].id, Pos), LastDelta(deltas, entities[k].id, SizeColor))
      {
        if k0 >= 0 && k0 != k {
          assert r[k0].id == entities[k0].id && r[k].id == entities[k].id;
          assert entities[k].id != d.id by {
            if k0 < k { assert EntityId(entities[k0]) != EntityId(entities[k]); }
            else { assert EntityId(entities[k]) != EntityId(entities[k0]); }
          }
        }
        if k0 < 0 {
          assert r[k].id in Ids(r);
        }
      }
    }
  }

  /** On the input that loses a delta as written, the intended application keeps both. */
  lemma ApplyAllDeltasKeepsBoth()
    ensures var e := Entity(ZeroVec, ZeroVec, 1, 2, 5);
            var deltas := [EntityDelta(5, Pos, PosBits(Vec2(7, 8))), EntityDelta(5, SizeColor, PackSizeColor(3, 4))];
            var r := ApplyAllDeltas([e], deltas);
            |r| == 1 && r[0].pos == Vec2(7, 8) && r[0].size == 3 && r[0].color == 4
  {
    var e := Entity(ZeroVec, ZeroVec, 1, 2, 5);
    var deltas := [EntityDelta(5, Pos, PosBits(Vec2(7, 8))), EntityDelta(5, SizeColor, PackSizeColor(3, 4))];
    ApplyAllDeltasEffect([e], deltas);
    assert deltas[..1] == [deltas[0]] && deltas[..1][..0] == [];
    PosBitsRoundTrip(Vec2(7, 8));
    SizeColorRoundTrip(3, 4);
  }

  /** After a delta the oldest snapshot is dropped once more than ten are buffered. */
  function CapSnapshots(h: seq<Snapshot>): (r: seq<Snapshot>)
    ensures |h| <= MaxSnapshots + 1 ==> |r| <= MaxSnapshots
    ensures h != [] ==> r != [] && r[|r| - 1] == h[|h| - 1]
  {
    if |h| > MaxSnapshots then h[1..] else h
  }

  // ---------------------------------------------------------------------------
  // Interpolation

  /** The trimming loop of interpolate: drop the oldest snapshot while more than two are
      buffered and the second oldest is older than the render time. */
  function TrimBefore(h: seq<Snapshot>, time: int): seq<Snapshot>
  {
    if |h| > 2 && h[1].time < time then TrimBefore(h[1..], time) else h
  }

  /** Trimming keeps a suffix of at least two snapshots (or all, if fewer); when it stops with
      more than two left, the second oldest is not older than the render time. */
  lemma {:induction false} TrimBeforeKeeps(h: seq<Snapshot>, time: int)
    ensures var r := TrimBefore(h, time);
            |r| <= |h| && r == h[|h| - |r|..] && |r| >= Min(|h|, 2) &&
            (|r| > 2 ==> r[1].time >= time)
  {
    if |h| > 2 && h[1].time < time {
      TrimBeforeKeeps(h[1..], time);
      var r := TrimBefore(h[1..], time);
      assert h[1..][|h| - 1 - |r|..] == h[|h| - |r|..];
    }
  }

  /** The interpolate callback: position and size blended from the older o and the newer r
      (the blend itself is the parameter), color and id from the newer one. */
  function Blend(o: Entity, r: Entity, lerp: (Entity, Entity) -> (Vec2, F32)): (e: Entity)
    ensures e.id == r.id && e.color == r.color
  {
    var (pos, size) := lerp(o, r);
    Entity(pos, ZeroVec, size, r.color, r.id)
  }

  /** The result vector of interpolate: one blended entity per zipById call, in call order. */
  function Interpolated(o: seq<Entity>, r: seq<Entity>, calls: seq<(nat, nat)>,
                        lerp: (Entity, Entity) -> (Vec2, F32)): (res: seq<Entity>)
    requires forall c :: c in calls ==> c.0 < |o| && c.1 < |r|
    ensures |res| == |calls|
    ensures forall k :: 0 <= k < |calls| ==> res[k] == Blend(o[calls[k].0], r[calls[k].1], lerp)
  {
    if calls == [] then []
    else
      var c := calls[|calls| - 1];
      Interpolated(o, r, calls[..|calls| - 1], lerp) + [Blend(o[c.0], r[c.1], lerp)]
  }

  /** The ids of the interpolated list are the ids of the older side's called elements. */
  lemma InterpolatedIdsOfCalls(o: seq<Entity>, r: seq<Entity>, calls: seq<(nat, nat)>,
                               lerp: (Entity, Entity) -> (Vec2, F32))
    requires forall c :: c in calls ==> c.0 < |o| && c.1 < |r| && o[c.0].id == r[c.1].id
    ensures Ids(Interpolated(o, r, calls, lerp)) == (set c | c in calls :: EntityId(o[c.0]))
  {
    var res := Interpolated(o, r, calls, lerp);
    forall x | x in Ids(res)
      ensures x in (set c | c in calls :: EntityId(o[c.0]))
    {
      var k :| 0 <= k < |res| && res[k].id == x;
      assert calls[k] in calls;
    }
    forall c | c in calls
      ensures EntityId(o[c.0]) in Ids(res)
    {
      var k :| 0 <= k < |calls| && calls[k] == c;
      assert res[k].id == EntityId(o[c.0]);
    }
  }

  /** The interpolated list of two snapshots with unique ids: exactly the ids present in both,
      ascending, each with the color of the newer snapshot's entity of that id. */
  lemma InterpolatedIds(older: seq<Entity>, newer: seq<Entity>, lerp: (Entity, Entity) -> (Vec2, F32))
    requires UniqueKeys(older, EntityId) && UniqueKeys(newer, EntityId)
    ensures var o := SortByKey(older, EntityId);
            var r := SortByKey(newer, EntityId);
            var res := Interpolated(o, r, Walk(o, r, EntityId, EntityId, 0, 0), lerp);
            Ids(res) == Ids(older) * Ids(newer) &&
            (forall p, q :: 0 <= p < q < |res| ==> res[p].id < res[q].id) &&
            (forall e :: e in res ==> exists n :: n in newer && n.id == e.id && n.color == e.color)
  {
    var o := SortByKey(older, EntityId);
    var r := SortByKey(newer, EntityId);
    var calls := Walk(o, r, EntityId, EntityId, 0, 0);
    var res := Interpolated(o, r, calls, lerp);
    SortByKeyUnique(older, EntityId);
    SortByKeyUnique(newer, EntityId);
    ZipByIdCommonIds(o, r, EntityId, EntityId);
    assert Ids(older) == KeysFrom(older, EntityId, 0);
    assert Ids(newer) == KeysFrom(newer, EntityId, 0);
    InterpolatedIdsOfCalls(o, r, calls, lerp);
    InterpolatedColors(o, newer, calls, lerp);
  }

  /** Every interpolated entity takes id and color from an entity of the newer snapshot. */
  lemma InterpolatedColors(o: seq<Entity>, newer: seq<Entity>, calls: seq<(nat, nat)>,
                           lerp: (Entity, Entity) -> (Vec2, F32))
    requires forall c :: c in calls ==> c.0 < |o| && c.1 < |newer|
    ensures var r := SortByKey(newer, EntityId);
            forall e :: e in Interpolated(o, r, calls, lerp) ==> exists n :: n in newer && n.id == e.id && n.color == e.color
  {
    var r := SortByKey(newer, EntityId);
    SortByKeyPermutes(newer, EntityId);
    var res := Interpolated(o, r, calls, lerp);
    forall e | e in res
      ensures exists n :: n in newer && n.id == e.id && n.color == e.color
    {
      var k :| 0 <= k < |res| && res[k] == e;
      assert calls[k] in calls;
      assert r[calls[k].1] in multiset(newer);
    }
  }

  /** The trimming loop of interpolatePlayer: drop velocity entries older than `last`. */
  function DropOlder(vh: seq<InputSnapshot>, last: int): seq<InputSnapshot>
  {
    if vh != [] && vh[0].time < last then DropOlder(vh[1..], last) else vh
  }

  ghost predicate TimesAscending(vh: seq<InputSnapshot>)
  {
    forall p, q :: 0 <= p < q < |vh| ==> vh[p].time <= vh[q].time
  }

  /** Trimming keeps a suffix that starts at an entry not older than `last`; with entries in
      time order, every kept entry is at least `last` and every dropped one older. */
  lemma {:induction false} DropOlderKeeps(vh: seq<InputSnapshot>, last: int)
    ensures var r := DropOlder(vh, last);
            |r| <= |vh| && r == vh[|vh| - |r|..] && (r != [] ==> r[0].time >= last) &&
            (forall k :: 0 <= k < |vh| - |r| ==> vh[k].time < last) &&
            (TimesAscending(vh) ==> forall e :: e in r ==> e.time >= last)
  {
    if vh != [] && vh[0].time < last {
      DropOlderKeeps(vh[1..], last);
      var r := DropOlder(vh[1..], last);
      assert vh[1..][|vh| - 1 - |r|..] == vh[|vh| - |r|..];
      forall k | 1 <= k < |vh| - |r|
        ensures vh[k].time < last
      {
        assert vh[1..][k - 1] == vh[k];
      }
    } else if vh != [] && TimesAscending(vh) {
      forall e | e in vh
        ensures e.time >= last
      {
        var k :| 0 <= k < |vh| && vh[k] == e;
        if k > 0 { assert vh[0].time <= vh[k].time; }
      }
    }
  }

  // ---------------------------------------------------------------------------
  // Merging into the shown entities

  /** The run-loop callback: size and color from the interpolated entity, and the position too
      unless it is the player's own entity. */
  function MergeOne(e: Entity, interp: Entity, player: u32): (r: Entity)
    ensures r.id == e.id
  {
    if e.id == player then e.(size := interp.size, color := interp.color)
    else e.(size := interp.size, color := interp.color, pos := interp.pos)
  }

  function MergeStep(player: u32): (Entity, Entity) -> Entity
  {
    (e, interp) => MergeOne(e, interp, player)
  }

  /** The shown entities after the merge: sorted by id, with the callback folded over zipById. */
  function Merged(entities: seq<Entity>, interpolated: seq<Entity>, player: u32): seq<Entity>
  {
    var es := SortByKey(entities, EntityId);
    var ins := SortByKey(interpolated, EntityId);
    FoldCalls(es, ins, Walk(es, ins, EntityId, EntityId, 0, 0), MergeStep(player))
  }

  /** The merge keeps every id and the player's position, and a permutation of the entities;
      an entity matched by an interpolated one takes its size and color (and its position,
      unless it is the player). */
  lemma MergedKeepsPlayer(entities: seq<Entity>, interpolated: seq<Entity>, player: u32)
    ensures var es := SortByKey(entities, EntityId);
            var ins := SortByKey(interpolated, EntityId);
            var calls := Walk(es, ins, EntityId, EntityId, 0, 0);
            var r := Merged(entities, interpolated, player);
            |r| == |es| && multiset(es) == multiset(entities) &&
            (forall k :: 0 <= k < |es| ==> r[k].id == es[k].id && r[k].vel == es[k].vel) &&
            (forall k :: 0 <= k < |es| && es[k].id == player ==> r[k].pos == es[k].pos) &&
            (forall c :: c in calls ==>
               r[c.0].size == ins[c.1].size && r[c.0].color == ins[c.1].color &&
               (es[c.0].id != player ==> r[c.0].pos == ins[c.1].pos))
  {
    var es := SortByKey(entities, EntityId);
    var ins := SortByKey(interpolated, EntityId);
    var calls := Walk(es, ins, EntityId, EntityId, 0, 0);
    var f := MergeStep(player);
    SortByKeyPermutes(entities, EntityId);
    WalkIncreasing(es, ins, EntityId, EntityId, 0, 0);
    FoldCallsEffect(es, ins, calls, f);
    FoldCallsKeys(es, ins, calls, f, EntityId);
    var r := FoldCalls(es, ins, calls, f);
    forall k | 0 <= k < |es|
      ensures r[k].vel == es[k].vel
      ensures es[k].id == player ==> r[k].pos == es[k].pos
    {
      if c :| c in calls && c.0 == k {
        assert r[k] == MergeOne(es[k], ins[c.1], player);
      }
    }
  }

  /** Whether the run loop sends the desired speed now: connected to a server, a player entity
      assigned, more than kSendRate since the last send, and fewer than two velocity entries
      or a change between the last two. */
  function InputDue(serverConnected: bool, player: u32, now: int, lastSendTime: int,
                    vh: seq<InputSnapshot>, differs: (Vec2, Vec2) -> bool): bool
  {
    serverConnected && player != kInvalidId && now - lastSendTime > SendRateMs &&
    (|vh| < 2 || differs(vh[|vh| - 1].vel, vh[|vh| - 2].vel))
  }

  /** Sends are at least kSendRate apart: right after a send nothing is due again for 60 ms. */
  lemma InputRateLimited(serverConnected: bool, player: u32, sentAt: int, now: int,
                         vh: seq<InputSnapshot>, differs: (Vec2, Vec2) -> bool)
    requires now <= sentAt + SendRateMs
    ensures !InputDue(serverConnected, player, now, sentAt, vh, differs)
  {
  }

  class ClientService {
    /** state_.entities: what is drawn. */
    var entities: seq<Entity>
    /** snapshotHistory_, oldest first. */
    var history: seq<Snapshot>
    var playerEntityId: u32
    /** playerVelHistory_, oldest first. */
    var velHistory: seq<InputSnapshot>
    var desiredSpeed: Vec2
    var lastSendTime: int
    var outbox: seq<Outgoing>

    /** Entities are shown only once a snapshot has been buffered. */
    ghost predicate Valid()
      reads this
    {
      history == [] ==> entities == []
    }

    /** playerEntityId_ has no initializer in the source; its indeterminate value is a parameter. */
    constructor(initialPlayerId: u32, startTime: int)
      ensures Valid()
      ensures entities == [] && history == [] && velHistory == [] && outbox == []
      ensures playerEntityId == initialPlayerId && desiredSpeed == ZeroVec && lastSendTime == startTime
    {
      entities := [];
      history := [];
      playerEntityId := initialPlayerId;
      velHistory := [];
      desiredSpeed := ZeroVec;
      lastSendTime := startTime;
      outbox := [];
    }

    /** handlePacket(PPossesEntity). */
    method HandlePossesEntity(id: u32)
      modifies this
      ensures playerEntityId == id
      ensures entities == old(entities) && history == old(history) && velHistory == old(velHistory)
      ensures desiredSpeed == old(desiredSpeed) && lastSendTime == old(lastSendTime) && outbox == old(outbox)
    {
      playerEntityId := id;
    }

    /** handlePacket(PSnapshot): the payload replaces the shown entities and is buffered with
        sequence 0. */
    method HandleSnapshot(payload: seq<Entity>, now: int)
      requires Valid()
      modifies this
      ensures Valid()
      ensures entities == payload
      ensures history == old(history) + [Snapshot(GameState(0, payload), now)]
      ensures playerEntityId == old(playerEntityId) && velHistory == old(velHistory)
      ensures desiredSpeed == old(desiredSpeed) && lastSendTime == old(lastSendTime) && outbox == old(outbox)
    {
      entities := payload;
      history := history + [Snapshot(GameState(0, payload), now)];
    }

    /** handlePacket(PSnapshotDelta): buffer a copy of the newest snapshot with the deltas
        applied through zipById, cap the buffer and acknowledge. The buffer must not be empty
        (back() of an empty deque is undefined). The callback only rewrites non-id fields, so
        walking first and applying afterwards visits the same pairs. */
    method HandleSnapshotDelta(sequence: nat, deltas: seq<EntityDelta>, now: int)
      requires Valid() && history != []
      modifies this
      ensures Valid()
      ensures var back := old(history)[|old(history)| - 1];
              history == CapSnapshots(old(history) + [Snapshot(ZipApply(back.state, deltas), now)])
      ensures |old(history)| <= MaxSnapshots ==> |history| <= MaxSnapshots
      ensures outbox == old(outbox) + [SnapshotDeltaAck(sequence)]
      ensures entities == old(entities) && playerEntityId == old(playerEntityId) && velHistory == old(velHistory)
      ensures desiredSpeed == old(desiredSpeed) && lastSendTime == old(lastSendTime)
    {
      var back := history[|history| - 1];
      var state := ApplyDeltas(back.state, deltas);
      history := history + [Snapshot(state, now)];
      if |history| > MaxSnapshots {
        history := history[1..];
      }
      outbox := outbox + [SnapshotDeltaAck(sequence)];
    }

    /** handlePacket(PSpawnEntity): the entity joins the shown entities and the newest buffered
        snapshot, which must exist. */
    method HandleSpawnEntity(e: Entity)
      requires Valid() && history != []
      modifies this
      ensures Valid()
      ensures entities == old(entities) + [e]
      ensures var n := |history| - 1;
              |history| == |old(history)| && history[..n] == old(history)[..n] &&
              history[n] == old(history)[n].(state := old(history)[n].state.(entities := old(history)[n].state.entities + [e]))
      ensures playerEntityId == old(playerEntityId) && velHistory == old(velHistory)
      ensures desiredSpeed == old(desiredSpeed) && lastSendTime == old(lastSendTime) && outbox == old(outbox)
    {
      entities := entities + [e];
      var n := |history| - 1;
      var back := history[n];
      history := history[n := back.(state := back.state.(entities := back.state.entities + [e]))];
    }

    /** handlePacket(PDestroyEntity): swap the first entity with that id to the back and pop it;
        an unknown id changes nothing. The buffered snapshots are left alone. */
    method HandleDestroyEntity(id: u32)
      requires Valid()
      modifies this
      ensures Valid()
      ensures var k := FindId(old(entities), id);
              (k < 0 ==> entities == old(entities)) &&
              (k >= 0 ==> multiset(entities) + multiset{old(entities)[k]} == multiset(old(entities)) &&
                          old(entities)[k].id == id)
      ensures UniqueKeys(old(entities), EntityId) ==> id !in Ids(entities)
      ensures history == old(history) && playerEntityId == old(playerEntityId) && velHistory == old(velHistory)
      ensures desiredSpeed == old(desiredSpeed) && lastSendTime == old(lastSendTime) && outbox == old(outbox)
    {
      var k := FindId(entities, id);
      if k < 0 {
        return;
      }
      ghost var s := entities;
      entities := SwapPop(entities, k);
      SwapPopRemoves(s, k);
    }

    /** interpolate(time): trim the buffer, then with one snapshot return its entities, with
        two or more blend the two oldest through zipById (which sorts both in place), and with
        none return the shown entities. */
    method Interpolate(time: int, lerp: (Entity, Entity) -> (Vec2, F32)) returns (result: seq<Entity>)
      requires Valid()
      modifies this
      ensures Valid()
      ensures var t := TrimBefore(old(history), time);
              (|t| == 0 ==> history == t && result == entities) &&
              (|t| == 1 ==> history == t && result == t[0].state.entities) &&
              (|t| >= 2 ==>
                 var o := SortByKey(t[0].state.entities, EntityId);
                 var r := SortByKey(t[1].state.entities, EntityId);
                 history == t[0 := t[0].(state := t[0].state.(entities := o))][1 := t[1].(state := t[1].state.(entities := r))] &&
                 result == Interpolated(o, r, Walk(o, r, EntityId, EntityId, 0, 0), lerp))
      ensures entities == old(entities) && playerEntityId == old(playerEntityId) && velHistory == old(velHistory)
      ensures desiredSpeed == old(desiredSpeed) && lastSendTime == old(lastSendTime) && outbox == old(outbox)
    {
      ghost var h := history;
      while |history| > 2 && history[1].time < time
        invariant TrimBefore(history, time) == TrimBefore(h, time)
        invariant history == [] ==> h == []
        invariant entities == old(entities) && playerEntityId == old(playerEntityId) && velHistory == old(velHistory)
        invariant desiredSpeed == old(desiredSpeed) && lastSendTime == old(lastSendTime) && outbox == old(outbox)
        decreases |history|
      {
        history := history[1..];
      }
      if |history| == 1 {
        result := history[0].state.entities;
      } else if |history| >= 2 {
        var o, r := history[0], history[1];
        var first := ToArray(o.state.entities);
        var second := ToArray(r.state.entities);
        var calls := ZipById(first, second, EntityId, EntityId);
        result := BlendCalls(first[..], second[..], calls, lerp);
        history := history[0 := o.(state := o.state.(entities := first[..]))][1 := r.(state := r.state.(entities := second[..]))];
      } else {
        result := entities;
      }
    }

    /** interpolatePlayer: with the player's entity shown, record the desired speed, give the
        entity that velocity and its stepped position (the float step is the input), and when
        the newest snapshot has the player drop velocity entries older than that snapshot's
        time less half the round trip. The buffer must not be empty then. */
    method InterpolatePlayer(now: int, halfRtt: nat, steppedPos: Vec2)
      requires Valid()
      modifies this
      ensures Valid()
      ensures var k := FindId(old(entities), playerEntityId);
              (k < 0 ==> entities == old(entities) && velHistory == old(velHistory)) &&
              (k >= 0 ==>
                 entities == old(entities)[k := old(entities)[k].(vel := desiredSpeed, pos := steppedPos)] &&
                 var vh := old(velHistory) + [InputSnapshot(desiredSpeed, now)];
                 var back := history[|history| - 1];
                 velHistory == if playerEntityId in Ids(back.state.entities) then DropOlder(vh, back.time - halfRtt) else vh)
      ensures history == old(history) && playerEntityId == old(playerEntityId)
      ensures desiredSpeed == old(desiredSpeed) && lastSendTime == old(lastSendTime) && outbox == old(outbox)
    {
      var k := FindId(entities, playerEntityId);
      if k < 0 {
        return;
      }
      velHistory := velHistory + [InputSnapshot(desiredSpeed, now)];
      entities := entities[k := entities[k].(vel := desiredSpeed, pos := steppedPos)];
      var back := history[|history| - 1];
      if FindId(back.state.entities, playerEntityId) < 0 {
        return;
      }
      var last := back.time - halfRtt;
      ghost var vh := velHistory;
      while velHistory != [] && velHistory[0].time < last
        invariant DropOlder(velHistory, last) == DropOlder(vh, last)
        invariant entities == old(entities)[k := old(entities)[k].(vel := desiredSpeed, pos := steppedPos)]
        invariant history == old(history) && playerEntityId == old(playerEntityId)
        invariant desiredSpeed == old(desiredSpeed) && lastSendTime == old(lastSendTime) && outbox == old(outbox)
        decreases |velHistory|
      {
        velHistory := velHistory[1..];
      }
    }

    /** The merge step of run: zipById of the shown entities with the interpolated ones. */
    method MergeInterpolated(interpolated: seq<Entity>)
      requires Valid()
      modifies this
      ensures Valid()
      ensures entities == Merged(old(entities), interpolated, playerEntityId)
      ensures history == old(history) && playerEntityId == old(playerEntityId) && velHistory == old(velHistory)
      ensures desiredSpeed == old(desiredSpeed) && lastSendTime == old(lastSendTime) && outbox == old(outbox)
    {
      var first := ToArray(entities);
      var second := ToArray(interpolated);
      var calls := ZipById(first, second, EntityId, EntityId);
      ApplyCalls(first, second[..], calls, MergeStep(playerEntityId));
      entities := first[..];
    }

    /** The send-on-change test of run. */
    method MaybeSendInput(serverConnected: bool, now: int, differs: (Vec2, Vec2) -> bool)
      modifies this
      ensures var due := InputDue(serverConnected, playerEntityId, now, old(lastSendTime), velHistory, differs);
              (due ==> lastSendTime == now && outbox == old(outbox) + [PlayerInput(desiredSpeed)]) &&
              (!due ==> lastSendTime == old(lastSendTime) && outbox == old(outbox))
      ensures entities == old(entities) && history == old(history) && playerEntityId == old(playerEntityId)
      ensures velHistory == old(velHistory) && desiredSpeed == old(desiredSpeed)
    {
      if serverConnected && playerEntityId != kInvalidId && now - lastSendTime > SendRateMs {
        var sz := |velHistory|;
        if sz < 2 || differs(velHistory[sz - 1].vel, velHistory[sz - 2].vel) {
          lastSendTime := now;
          outbox := outbox + [PlayerInput(desiredSpeed)];
        }
      }
    }
  }

  /** std::swap(*it, back()) then pop_back(). */
  function SwapPop(s: seq<Entity>, k: nat): (r: seq<Entity>)
    requires k < |s|
    ensures |r| == |s| - 1
  {
    s[k := s[|s| - 1]][..|s| - 1]
  }

  /** Swap-and-pop takes out exactly the element at k; with unique ids its id is gone. */
  lemma SwapPopRemoves(s: seq<Entity>, k: nat)
    requires k < |s|
    ensures multiset(SwapPop(s, k)) + multiset{s[k]} == multiset(s)
    ensures UniqueKeys(s, EntityId) ==> s[k].id !in Ids(SwapPop(s, k))
  {
    var r := SwapPop(s, k);
    if k < |s| - 1 {
      assert s == s[..k] + [s[k]] + s[k + 1..|s| - 1] + [s[|s| - 1]];
      assert r == s[..k] + [s[|s| - 1]] + s[k + 1..|s| - 1];
    } else {
      assert s == r + [s[k]];
    }
    if UniqueKeys(s, EntityId) {
      forall j | 0 <= j < |r|
        ensures r[j].id != s[k].id
      {
        if j == k {
          assert EntityId(s[|s| - 1]) != EntityId(s[k]);
        } else {
          assert r[j] == s[j];
          if j < k { assert EntityId(s[j]) != EntityId(s[k]); }
          else { assert EntityId(s[k]) != EntityId(s[j]); }
        }
      }
    }
  }

  /** The interpolate callback run over the calls, appending to the result. */
  method BlendCalls(o: seq<Entity>, r: seq<Entity>, calls: seq<(nat, nat)>,
                    lerp: (Entity, Entity) -> (Vec2, F32)) returns (result: seq<Entity>)
    requires forall c :: c in calls ==> c.0 < |o| && c.1 < |r|
    ensures result == Interpolated(o, r, calls, lerp)
  {
    result := [];
    for k := 0 to |calls|
      invariant result == Interpolated(o, r, calls[..k], lerp)
    {
      assert calls[..k + 1][..k] == calls[..k];
      assert calls[k] in calls;
      result := result + [Blend(o[calls[k].0], r[calls[k].1], lerp)];
    }
    assert calls[..|calls|] == calls;
  }
}
