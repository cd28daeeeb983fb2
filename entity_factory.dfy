// Entity::create of tasks/task4/game/Entity.cpp and tasks/task3/game/Entity.cpp:
// a static counter hands out ids, post-incremented in 32 bits and bumped once
// more when it lands on the reserved kInvalidId; colors always have the top
// (alpha) bit set. The random position, size and color samples are inputs.
module EntityFactory {
  import opened Types

  /** The 32-bit post-increment of the counter, bumped again past kInvalidId. */
  function NextId(id: u32): (r: u32)
    ensures r != kInvalidId
  {
    var n := (id + 1) % U32_LIMIT;
    if n == kInvalidId then (n + 1) % U32_LIMIT else n
  }

  /** colorDistr(engine) | (128 << 24): setting bit 31 keeps the low 31 bits and makes the
      top one 1. */
  function CreatedColor(sample: u32): (c: u32)
    ensures c >= 0x8000_0000
    ensures sample >= 0x8000_0000 ==> c == sample
  {
    sample % 0x8000_0000 + 0x8000_0000
  }

  /** The counter after k calls of create, starting from start. */
  function CounterFrom(start: u32, k: nat): u32
  {
    if k == 0 then start else NextId(CounterFrom(start, k - 1))
  }

  /** The counter after k calls of create, starting from its initial value 0. */
  function CounterAfter(k: nat): u32
  {
    CounterFrom(0, k)
  }

  /** The first 0xFFFF_FFFF creations hand out 0, 1, 2, ... in turn; the next one wraps to 0. */
  lemma {:induction false} CounterAfterCounts(k: nat)
    requires k < kInvalidId
    ensures CounterAfter(k) == k
  {
    if k > 0 {
      CounterAfterCounts(k - 1);
    }
  }

  lemma CounterWraps()
    ensures CounterAfter(kInvalidId) == 0
  {
    CounterAfterCounts(kInvalidId - 1);
  }

  /** Ids of the first 0xFFFF_FFFF creations are pairwise distinct. */
  lemma CreatedIdsDistinct(k1: nat, k2: nat)
    requires k1 < k2 < kInvalidId
    ensures CounterAfter(k1) != CounterAfter(k2)
  {
    CounterAfterCounts(k1);
    CounterAfterCounts(k2);
  }

  /** The static Entity::firstFreeId and the create() that advances it. */
  class EntityAllocator {
    var firstFreeId: u32

    ghost predicate Valid()
      reads this
    {
      firstFreeId != kInvalidId
    }

    /** id_t Entity::firstFreeId = 0. */
    constructor()
      ensures Valid() && firstFreeId == 0
    {
      firstFreeId := 0;
    }

    /** The task4 Entity::create: random position, size and color sample are inputs. */
    method Create(pos: Vec2, size: F32, colorSample: u32) returns (e: Entity)
      requires Valid()
      modifies this
      ensures Valid()
      ensures e == Entity(pos, ZeroVec, size, CreatedColor(colorSample), old(firstFreeId))
      ensures e.id != kInvalidId
      ensures firstFreeId == NextId(old(firstFreeId))
    {
      e := Entity(pos, ZeroVec, size, CreatedColor(colorSample), firstFreeId);
      firstFreeId := (firstFreeId + 1) % U32_LIMIT;
      if firstFreeId == kInvalidId {
        firstFreeId := (firstFreeId + 1) % U32_LIMIT;
      }
    }

    /** The task3 Entity::create: the same counter, the flat entity shape. */
    method CreateFlat(x: F32, y: F32, size: F32, colorSample: u32) returns (e: FlatEntity)
      requires Valid()
      modifies this
      ensures Valid()
      ensures e == FlatEntity(x, y, size, CreatedColor(colorSample), old(firstFreeId))
      ensures e.id != kInvalidId
      ensures firstFreeId == NextId(old(firstFreeId))
    {
      e := FlatEntity(x, y, size, CreatedColor(colorSample), firstFreeId);
      firstFreeId := (firstFreeId + 1) % U32_LIMIT;
      if firstFreeId == kInvalidId {
        firstFreeId := (firstFreeId + 1) % U32_LIMIT;
      }
    }
  }
}
