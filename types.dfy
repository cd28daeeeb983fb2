// Shared value types of the game protocol: fixed-width integers, bytes, the
// game entity and its per-field delta record (tasks/task5/game/Entity.hpp and
// tasks/task5/game/gameProto.hpp; task4 and task6 use the same shapes).
module Types {

  datatype Option<T> = None | Some(value: T)

  function Min(a: int, b: int): int { if a <= b then a else b }

  /** The u32 increment x++: the largest value wraps around to 0. */
  function WrapInc(x: u32): u32
  {
    if x == U32_LIMIT - 1 then 0 else x + 1
  }

  /** Unsigned fixed-width integers, as subset types of int. */
  const U32_LIMIT: int := 0x1_0000_0000
  const U64_LIMIT: int := 0x1_0000_0000_0000_0000
  type u32 = x: int | 0 <= x < 0x1_0000_0000
  type u64 = x: int | 0 <= x < 0x1_0000_0000_0000_0000

  /** One byte (std::byte / uint8_t / char on the wire). */
  type Byte = bv8

  /** A transport peer handle (ENetPeer*); only its identity matters. */
  type Peer = nat

  /** A transport channel number (enet_uint8). */
  type Channel = x: int | 0 <= x < 256

  /** A 32-bit float, kept as its IEEE-754 bit pattern so that bit_cast is exact.
      Float arithmetic and comparisons are not modelled. */
  type F32 = u32

  /** glm::vec2: two floats, x first in memory. */
  datatype Vec2 = Vec2(x: F32, y: F32)

  /** Bit pattern of 0.0f. */
  const ZeroVec: Vec2 := Vec2(0, 0)

  /** Bit pattern of 0.1f, the default entity size. */
  const DefaultSize: F32 := 0x3DCC_CCCD

  /** The reserved "no entity" id: the maximum uint32. */
  const kInvalidId: u32 := 0xFFFF_FFFF

  datatype Entity = Entity(pos: Vec2, vel: Vec2, size: F32, color: u32, id: u32)

  /** A default-constructed Entity: size 0.1f, opaque white, invalid id. */
  function DefaultEntity(): (e: Entity)
    ensures e.id == kInvalidId && e.id == U32_LIMIT - 1
    ensures e.color == U32_LIMIT - 1 && e.size == DefaultSize
  {
    Entity(ZeroVec, ZeroVec, DefaultSize, 0xFFFF_FFFF, kInvalidId)
  }

  /** The task3 entity: position as two floats, no velocity. */
  datatype FlatEntity = FlatEntity(x: F32, y: F32, size: F32, color: u32, id: u32)

  /** A world state: a sequence number and an unordered collection of entities. */
  datatype GameState = GameState(sequence: nat, entities: seq<Entity>)

  /** Which 64-bit field an EntityDelta carries. */
  datatype EntityField = Pos | SizeColor

  datatype EntityDelta = EntityDelta(id: u32, field: EntityField, value: u64)

  /** std::bit_cast<uint64_t>(pos): x is the low half, y the high half (little-endian). */
  function PosBits(p: Vec2): u64
  {
    p.y * U32_LIMIT + p.x
  }

  /** std::bit_cast<glm::vec2>(value): the inverse of PosBits. */
  function PosFromBits(v: u64): Vec2
  {
    Vec2(v % U32_LIMIT, v / U32_LIMIT)
  }

  /** (uint64_t(bit_cast<uint32_t>(size)) << 32) | uint64_t(color). */
  function PackSizeColor(size: F32, color: u32): u64
  {
    size * U32_LIMIT + color
  }

  /** The size half (bits 32..63) of a SizeColor value. */
  function UnpackSize(v: u64): F32 { v / U32_LIMIT }

  /** The color half (bits 0..31) of a SizeColor value. */
  function UnpackColor(v: u64): u32 { v % U32_LIMIT }

  lemma PosBitsRoundTrip(p: Vec2)
    ensures PosFromBits(PosBits(p)) == p
  {
    HalvesRoundTrip(p.y, p.x);
  }

  /** Unpacking a SizeColor value gives back the size from the high half and the color from the low half. */
  lemma SizeColorRoundTrip(size: F32, color: u32)
    ensures UnpackSize(PackSizeColor(size, color)) == size
    ensures UnpackColor(PackSizeColor(size, color)) == color
  {
    HalvesRoundTrip(size, color);
  }

  lemma HalvesRoundTrip(hi: u32, lo: u32)
    ensures (hi * U32_LIMIT + lo) / U32_LIMIT == hi
    ensures (hi * U32_LIMIT + lo) % U32_LIMIT == lo
  {
  }

  function EntityId(e: Entity): int { e.id }
  function DeltaId(d: EntityDelta): int { d.id }

  /** The ids that occur in a list of entities. */
  function Ids(s: seq<Entity>): set<int>
  {
    set k | 0 <= k < |s| :: s[k].id
  }

  /** Appending an entity adds exactly its id. */
  lemma IdsSnoc(s: seq<Entity>, e: Entity)
    ensures Ids(s + [e]) == Ids(s) + {e.id}
  {
    assert forall k :: 0 <= k < |s| ==> (s + [e])[k] == s[k];
    assert (s + [e])[|s|] == e;
  }

  /** Index of the first entity with the given id, if any (std::find_if). */
  function FindId(s: seq<Entity>, id: int): (r: int)
    ensures -1 <= r < |s|
    ensures r == -1 <==> id !in Ids(s)
    ensures r >= 0 ==> s[r].id == id && forall k :: 0 <= k < r ==> s[k].id != id
  {
    if s == [] then -1
    else if s[0].id == id then 0
    else
      var r := FindId(s[1..], id);
      assert Ids(s) == {s[0].id} + Ids(s[1..]) by {
        forall x | x in Ids(s) ensures x in {s[0].id} + Ids(s[1..]) {
          var k :| 0 <= k < |s| && s[k].id == x;
          if k > 0 { assert s[1..][k - 1].id == x; }
        }
        forall x | x in Ids(s[1..]) ensures x in Ids(s) {
          var k :| 0 <= k < |s[1..]| && s[1..][k].id == x;
          assert s[k + 1].id == x;
        }
      }
      if r == -1 then -1 else r + 1
  }
}
