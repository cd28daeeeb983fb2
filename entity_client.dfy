// The task4 client of tasks/task4/client.cpp: the shown entities, a per-id history
// of received positions (capped at ten), the handlers that spawn, change,
// teleport and destroy entities, the per-entity interpolation of the run loop and
// the reconciliation bookkeeping for the controlled player. Times are integers
// (milliseconds); the position blend and the player's float step are inputs.
module EntityClient {
  import opened Types
  import SC = SnapshotClient

  /** One received position of an entity and when it arrived. */
  datatype PosSnapshot = PosSnapshot(pos: Vec2, time: int)

  datatype Outgoing = PlayerInput(desiredSpeed: Vec2)

  /** Positions kept per entity at most. */
  const MaxPositions: nat := 10

  /** kSendRate, in milliseconds. */
  const SendRateMs: int := 60

  /** Append a received position and drop the oldest once more than ten are kept. */
  function CapPositions(h: seq<PosSnapshot>): (r: seq<PosSnapshot>)
    ensures |h| <= MaxPositions + 1 ==> |r| <= MaxPositions
    ensures h != [] ==> r != [] && r[|r| - 1] == h[|h| - 1]
  {
    if |h| > MaxPositions then h[1..] else h
  }

  /** The trimming loop of interpolate: drop the oldest position while more than two are kept
      and the second oldest is older than the render time. */
  function TrimPositions(h: seq<PosSnapshot>, time: int): seq<PosSnapshot>
  {
    if |h| > 2 && h[1].time < time then TrimPositions(h[1..], time) else h
  }

  /** Trimming keeps a suffix of at least two positions (or all, if fewer); when it stops with
      more than two left, the second oldest is not older than the render time. */
  lemma {:induction false} TrimPositionsKeeps(h: seq<PosSnapshot>, time: int)
    ensures var r := TrimPositions(h, time);
            |r| <= |h| && r == h[|h| - |r|..] && |r| >= Min(|h|, 2) &&
            (|r| > 2 ==> r[1].time >= time)
  {
    if |h| > 2 && h[1].time < time {
      TrimPositionsKeeps(h[1..], time);
      var r := TrimPositions(h[1..], time);
      assert h[1..][|h| - 1 - |r|..] == h[|h| - |r|..];
    }
  }

  /** interpolate(entity, snapshots, time): the trimmed history and the entity's new position:
      the only position with one entry, the blend of the two oldest with two or more, and the
      old position with none. */
  function Interpolate(e: Entity, h: seq<PosSnapshot>, time: int,
                       lerp: (PosSnapshot, PosSnapshot, int) -> Vec2): (r: (Entity, seq<PosSnapshot>))
    ensures r.1 == TrimPositions(h, time)
    ensures r.0 == e.(pos := r.0.pos)
    ensures |r.1| == 0 ==> r.0 == e
    ensures |r.1| == 1 ==> r.0.pos == r.1[0].pos
    ensures |r.1| >= 2 ==> r.0.pos == lerp(r.1[0], r.1[1], time)
  {
    var t := TrimPositions(h, time);
    if |t| == 1 then (e.(pos := t[0].pos), t)
    else if |t| >= 2 then (e.(pos := lerp(t[0], t[1], time)), t)
    else (e, t)
  }

  /** The shown entities, the position histories and the player's velocity history: what one
      pass of the run loop reads and writes. */
  datatype Frame = Frame(entities: seq<Entity>, histories: map<u32, seq<PosSnapshot>>,
                         velHistory: seq<SC.InputSnapshot>)

  /** The inputs of one pass of the run loop: the current time, the lagged render time, the
      round-trip time, the controlled entity, the desired speed, the position blend and the
      player's float step (simulation and compensation), which gives its new position. */
  datatype Tick = Tick(now: int, time: int, roundTripTime: nat, player: u32, desired: Vec2,
                       lerp: (PosSnapshot, PosSnapshot, int) -> Vec2, stepped: Entity -> Vec2)

  /** The body of the run loop for the entity at index k. Entities without a history are
      skipped. Others are interpolated. The player's entity records the desired speed, takes
      its velocity and stepped position, and, when positions have arrived, consumes the
      newest one: its history is cleared and velocity entries older than its time less half
      the round trip are dropped. */
  function StepEntity(f: Frame, k: nat, t: Tick): (r: Frame)
    requires k < |f.entities|
    ensures |r.entities| == |f.entities| && r.entities[k].id == f.entities[k].id
    ensures forall j :: 0 <= j < |f.entities| && j != k ==> r.entities[j] == f.entities[j]
    ensures r.histories.Keys == f.histories.Keys
  {
    var e := f.entities[k];
    if e.id !in f.histories then f
    else if e.id != t.player then
      var (e', trimmed) := Interpolate(e, f.histories[e.id], t.time, t.lerp);
      Frame(f.entities[k := e'], f.histories[e.id := trimmed], f.velHistory)
    else
      var vh := f.velHistory + [SC.InputSnapshot(t.desired, t.now)];
      var moving := e.(vel := t.desired);
      var e' := moving.(pos := t.stepped(moving));
      var h := f.histories[e.id];
      if h == [] then Frame(f.entities[k := e'], f.histories, vh)
      else Frame(f.entities[k := e'], f.histories[e.id := []], SC.DropOlder(vh, h[|h| - 1].time - t.roundTripTime / 2))
  }

  /** The run loop over the first n entities. */
  function RunFold(f: Frame, n: nat, t: Tick): (r: Frame)
    requires n <= |f.entities|
    ensures |r.entities| == |f.entities|
    ensures forall j :: 0 <= j < |f.entities| ==> r.entities[j].id == f.entities[j].id
    ensures forall j :: n <= j < |f.entities| ==> r.entities[j] == f.entities[j]
    ensures r.histories.Keys == f.histories.Keys
  {
    if n == 0 then f else StepEntity(RunFold(f, n - 1, t), n - 1, t)
  }

  /** Reconciliation: when the player's entity has positions, it consumes them all, and every
      velocity entry left is no older than the newest position's time less half the round
      trip (given velocity entries in time order). */
  lemma PlayerStepConsumes(f: Frame, k: nat, t: Tick)
    requires k < |f.entities| && f.entities[k].id == t.player
    requires t.player in f.histories && f.histories[t.player] != []
    requires SC.TimesAscending(f.velHistory) && (f.velHistory != [] ==> f.velHistory[|f.velHistory| - 1].time <= t.now)
    ensures var r := StepEntity(f, k, t);
            var h := f.histories[t.player];
            r.histories[t.player] == [] &&
            r.entities[k].vel == t.desired &&
            forall e :: e in r.velHistory ==> e.time >= h[|h| - 1].time - t.roundTripTime / 2
  {
    var vh := f.velHistory + [SC.InputSnapshot(t.desired, t.now)];
    assert SC.TimesAscending(vh);
    var h := f.histories[t.player];
    SC.DropOlderKeeps(vh, h[|h| - 1].time - t.roundTripTime / 2);
  }

  /** Other entities with a history keep at least two positions (or all, if fewer), and with
      exactly one left take that position. */
  lemma OtherStepInterpolates(f: Frame, k: nat, t: Tick)
    requires k < |f.entities| && f.entities[k].id != t.player && f.entities[k].id in f.histories
    ensures var r := StepEntity(f, k, t);
            var id := f.entities[k].id;
            var h := r.histories[id];
            |h| >= Min(|f.histories[id]|, 2) && |h| <= |f.histories[id]| && h == f.histories[id][|f.histories[id]| - |h|..] &&
            (|h| == 1 ==> r.entities[k].pos == h[0].pos) &&
            r.velHistory == f.velHistory
  {
    TrimPositionsKeeps(f.histories[f.entities[k].id], t.time);
  }

  /** Entities removed by erase_if: every one with the id goes, the rest stay in order. */
  function WithoutId(s: seq<Entity>, id: u32): (r: seq<Entity>)
    ensures id !in Ids(r)
    ensures forall e :: multiset(r)[e] == if e.id == id then 0 else multiset(s)[e]
  {
    if s == [] then []
    else
      var rest := WithoutId(s[..|s| - 1], id);
      assert s == s[..|s| - 1] + [s[|s| - 1]];
      if s[|s| - 1].id == id then rest
      else
        IdsSnoc(rest, s[|s| - 1]);
        rest + [s[|s| - 1]]
  }

  class ClientService {
    var entities: seq<Entity>
    /** snapshotHistories_: received positions per entity id, oldest first. */
    var histories: map<u32, seq<PosSnapshot>>
    var playerEntityId: u32
    /** playerVelHistory_, oldest first. */
    var velHistory: seq<SC.InputSnapshot>
    var desiredSpeed: Vec2
    var lastSendTime: int
    var outbox: seq<Outgoing>

    /** playerEntityId_ has no initializer in the source; its indeterminate value is a parameter. */
    constructor(initialPlayerId: u32, startTime: int)
      ensures entities == [] && histories == map[] && velHistory == [] && outbox == []
      ensures playerEntityId == initialPlayerId && desiredSpeed == ZeroVec && lastSendTime == startTime
    {
      entities := [];
      histories := map[];
      playerEntityId := initialPlayerId;
      velHistory := [];
      desiredSpeed := ZeroVec;
      lastSendTime := startTime;
      outbox := [];
    }

    /** handlePacket(PPossesEntity). */
    method HandlePossesEntity(id: u32)
      modifies this
      ensures playerEntityId == id
      ensures entities == old(entities) && histories == old(histories) && velHistory == old(velHistory)
      ensures desiredSpeed == old(desiredSpeed) && lastSendTime == old(lastSendTime) && outbox == old(outbox)
    {
      playerEntityId := id;
    }

    /** handlePacket(PEntitySnapshot): append to the id's history, capped at ten; an id without
        a history is ignored. */
    method HandleEntitySnapshot(id: u32, pos: Vec2, now: int)
      modifies this
      ensures id !in old(histories) ==> histories == old(histories)
      ensures id in old(histories) ==>
                histories == old(histories)[id := CapPositions(old(histories)[id] + [PosSnapshot(pos, now)])]
      ensures entities == old(entities) && playerEntityId == old(playerEntityId) && velHistory == old(velHistory)
      ensures desiredSpeed == old(desiredSpeed) && lastSendTime == old(lastSendTime) && outbox == old(outbox)
    {
      if id !in histories {
        return;
      }
      var snapshots := histories[id] + [PosSnapshot(pos, now)];
      if |snapshots| > MaxPositions {
        snapshots := snapshots[1..];
      }
      histories := histories[id := snapshots];
    }

    /** handlePacket(PSpawnEntity): append the entity and give its id an empty history unless
        it has one (emplace). */
    method HandleSpawnEntity(e: Entity)
      modifies this
      ensures entities == old(entities) + [e]
      ensures histories == if e.id in old(histories) then old(histories) else old(histories)[e.id := []]
      ensures playerEntityId == old(playerEntityId) && velHistory == old(velHistory)
      ensures desiredSpeed == old(desiredSpeed) && lastSendTime == old(lastSendTime) && outbox == old(outbox)
    {
      entities := entities + [e];
      if e.id !in histories {
        histories := histories[e.id := []];
      }
    }

    /** handlePacket(PEntityPropsChanged): size and color of the first entity with the id. */
    method HandlePropsChanged(id: u32, size: F32, color: u32)
      modifies this
      ensures var k := FindId(old(entities), id);
              entities == if k < 0 then old(entities)
                          else old(entities)[k := old(entities)[k].(size := size, color := color)]
      ensures histories == old(histories) && playerEntityId == old(playerEntityId) && velHistory == old(velHistory)
      ensures desiredSpeed == old(desiredSpeed) && lastSendTime == old(lastSendTime) && outbox == old(outbox)
    {
      var k := FindId(entities, id);
      if k >= 0 {
        entities := entities[k := entities[k].(size := size, color := color)];
      }
    }

    /** handlePacket(PEntityTeleport): move the first entity with the id, and clear the id's
        history whether or not the entity is shown. */
    method HandleTeleport(id: u32, pos: Vec2)
      modifies this
      ensures var k := FindId(old(entities), id);
              entities == if k < 0 then old(entities) else old(entities)[k := old(entities)[k].(pos := pos)]
      ensures histories == if id in old(histories) then old(histories)[id := []] else old(histories)
      ensures playerEntityId == old(playerEntityId) && velHistory == old(velHistory)
      ensures desiredSpeed == old(desiredSpeed) && lastSendTime == old(lastSendTime) && outbox == old(outbox)
    {
      var k := FindId(entities, id);
      if k >= 0 {
        entities := entities[k := entities[k].(pos := pos)];
      }
      if id in histories {
        histories := histories[id := []];
      }
    }

    /** handlePacket(PDestroyEntity): erase every entity with the id, keeping the others in
        order, and erase the id's history. */
    method HandleDestroyEntity(id: u32)
      modifies this
      ensures entities == WithoutId(old(entities), id)
      ensures histories == old(histories) - {id}
      ensures playerEntityId == old(playerEntityId) && velHistory == old(velHistory)
      ensures desiredSpeed == old(desiredSpeed) && lastSendTime == old(lastSendTime) && outbox == old(outbox)
    {
      var kept: seq<Entity> := [];
      for k := 0 to |entities|
        invariant kept == WithoutId(entities[..k], id)
      {
        assert entities[..k + 1][..k] == entities[..k];
        if entities[k].id != id {
          kept := kept + [entities[k]];
        }
      }
      assert entities[..|entities|] == entities;
      entities := kept;
      histories := histories - {id};
    }

    /** The entity loop of run, while connected to a server. */
    method RunEntities(t: Tick)
      requires t.player == playerEntityId && t.desired == desiredSpeed
      modifies this
      ensures Frame(entities, histories, velHistory) == RunFold(old(Frame(entities, histories, velHistory)), |old(entities)|, t)
      ensures playerEntityId == old(playerEntityId) && desiredSpeed == old(desiredSpeed)
      ensures lastSendTime == old(lastSendTime) && outbox == old(outbox)
    {
      ghost var f0 := Frame(entities, histories, velHistory);
      for k := 0 to |entities|
        invariant |entities| == |f0.entities|
        invariant Frame(entities, histories, velHistory) == RunFold(f0, k, t)
        invariant playerEntityId == old(playerEntityId) && desiredSpeed == old(desiredSpeed)
        invariant lastSendTime == old(lastSendTime) && outbox == old(outbox)
      {
        StepAt(k, t);
      }
    }

    /** One pass of the entity loop, for the entity at index k. */
    method StepAt(k: nat, t: Tick)
      requires k < |entities| && t.player == playerEntityId && t.desired == desiredSpeed
      modifies this
      ensures Frame(entities, histories, velHistory) == StepEntity(old(Frame(entities, histories, velHistory)), k, t)
      ensures playerEntityId == old(playerEntityId) && desiredSpeed == old(desiredSpeed)
      ensures lastSendTime == old(lastSendTime) && outbox == old(outbox)
    {
      var e := entities[k];
      if e.id !in histories {
        return;
      }
      if e.id != playerEntityId {
        InterpolateAt(k, t);
      } else {
        ReconcileAt(k, t);
      }
    }

    /** Another entity: trim its history and move it to the interpolated position. */
    method InterpolateAt(k: nat, t: Tick)
      requires k < |entities| && entities[k].id in histories && entities[k].id != t.player
      modifies this
      ensures Frame(entities, histories, velHistory) == StepEntity(old(Frame(entities, histories, velHistory)), k, t)
      ensures playerEntityId == old(playerEntityId) && desiredSpeed == old(desiredSpeed)
      ensures lastSendTime == old(lastSendTime) && outbox == old(outbox)
    {
      var e := entities[k];
      var snapshots := histories[e.id];
      while |snapshots| > 2 && snapshots[1].time < t.time
        invariant TrimPositions(snapshots, t.time) == TrimPositions(histories[e.id], t.time)
        decreases |snapshots|
      {
        snapshots := snapshots[1..];
      }
      if |snapshots| == 1 {
        e := e.(pos := snapshots[0].pos);
      } else if |snapshots| >= 2 {
        e := e.(pos := t.lerp(snapshots[0], snapshots[1], t.time));
      }
      entities := entities[k := e];
      histories := histories[e.id := snapshots];
    }

    /** The player's entity: record the desired speed, step it, and when positions have arrived
        consume them and drop the velocity entries they account for. */
    method ReconcileAt(k: nat, t: Tick)
      requires k < |entities| && entities[k].id in histories && entities[k].id == t.player
      requires t.desired == desiredSpeed
      modifies this
      ensures Frame(entities, histories, velHistory) == StepEntity(old(Frame(entities, histories, velHistory)), k, t)
      ensures playerEntityId == old(playerEntityId) && desiredSpeed == old(desiredSpeed)
      ensures lastSendTime == old(lastSendTime) && outbox == old(outbox)
    {
      var e := entities[k];
      velHistory := velHistory + [SC.InputSnapshot(desiredSpeed, t.now)];
      e := e.(vel := desiredSpeed);
      e := e.(pos := t.stepped(e));
      entities := entities[k := e];
      var snapshots := histories[e.id];
      if snapshots == [] {
        return;
      }
      var snapshotTime := snapshots[|snapshots| - 1].time - t.roundTripTime / 2;
      histories := histories[e.id := []];
      ghost var vh := velHistory;
      while velHistory != [] && velHistory[0].time < snapshotTime
        invariant SC.DropOlder(velHistory, snapshotTime) == SC.DropOlder(vh, snapshotTime)
        invariant entities == old(entities)[k := e] && histories == old(histories)[e.id := []]
        invariant playerEntityId == old(playerEntityId) && desiredSpeed == old(desiredSpeed)
        invariant lastSendTime == old(lastSendTime) && outbox == old(outbox)
        decreases |velHistory|
      {
        velHistory := velHistory[1..];
      }
    }

    /** The input send of run: connected, a player entity assigned and more than kSendRate since
        the last send. */
    method MaybeSendInput(serverConnected: bool, now: int)
      modifies this
      ensures var due := serverConnected && playerEntityId != kInvalidId && now - old(lastSendTime) > SendRateMs;
              (due ==> lastSendTime == now && outbox == old(outbox) + [PlayerInput(desiredSpeed)]) &&
              (!due ==> lastSendTime == old(lastSendTime) && outbox == old(outbox))
      ensures entities == old(entities) && histories == old(histories) && playerEntityId == old(playerEntityId)
      ensures velHistory == old(velHistory) && desiredSpeed == old(desiredSpeed)
    {
      if serverConnected && playerEntityId != kInvalidId && now - lastSendTime > SendRateMs {
        lastSendTime := now;
        outbox := outbox + [PlayerInput(desiredSpeed)];
      }
    }
  }
}
