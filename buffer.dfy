// Buffer<N> of tasks/task1/buffer.hpp: a fixed array of N bytes with a start and an
// end cursor. Producers write at the end cursor; consumers advance the start
// cursor, and both cursors return to 0 once everything written has been consumed.
// The callbacks a producer or consumer passes are function parameters: a producer
// is told how much room there is and yields the bytes it writes, a consumer is
// shown a region of the array and yields how many bytes it took.
module CursorBuffer {
  import opened Types

  class Buffer {
    /** N. */
    const size: nat
    /** data_. */
    const data: array<Byte>
    var start: nat
    var end: nat

    ghost predicate Valid()
      reads this
    {
      data.Length == size && start <= end <= size
    }

    /** The bytes written and not yet consumed. */
    ghost function Pending(): seq<Byte>
      requires Valid()
      reads this, data
    {
      data[start..end]
    }

    constructor(size: nat)
      ensures Valid() && this.size == size && fresh(data)
      ensures start == 0 && end == 0 && Pending() == []
    {
      this.size := size;
      data := new Byte[size](_ => 0);
      start := 0;
      end := 0;
    }

    /** can_produce: there is room behind the end cursor. */
    predicate CanProduce()
      requires Valid()
      reads this
      ensures CanProduce() <==> size - end > 0
    {
      end < data.Length
    }

    /** can_consume: something has been written and not consumed. */
    predicate CanConsume()
      requires Valid()
      reads this, data
      ensures CanConsume() <==> Pending() != []
    {
      start < end
    }

    /** produce(f): f is given the N - end bytes from the end cursor on and writes the bytes it
        yields at their front; the end cursor advances by their number. f must not write past the
        array (the source does not check). */
    method Produce(f: nat -> seq<Byte>)
      requires Valid() && |f(size - end)| <= size - end
      modifies this, data
      ensures Valid() && start == old(start)
      ensures var w := f(size - old(end));
              end == old(end) + |w| &&
              data[..] == old(data[..end]) + w + old(data[end + |w|..])
      ensures Pending() == old(Pending()) + f(size - old(end))
    {
      var w := f(data.Length - end);
      var k := 0;
      while k < |w|
        invariant 0 <= k <= |w|
        invariant start == old(start) && end == old(end) && Valid()
        invariant data[..] == old(data[..end]) + w[..k] + old(data[end + k..])
      {
        data[end + k] := w[k];
        assert w[..k + 1] == w[..k] + [w[k]];
        k := k + 1;
      }
      end := end + |w|;
    }

    /** consume(f): f is shown the region from the END cursor to N (not the pending bytes) and
        yields how many bytes it took; the start cursor advances by that much, and once it meets
        the end cursor both go back to 0. f must not take more than is pending. */
    method Consume(f: seq<Byte> -> nat)
      requires Valid() && f(data[end..]) <= end - start
      modifies this
      ensures Valid()
      ensures var taken := f(old(data[end..]));
              if old(start) + taken == old(end) then start == 0 && end == 0
              else start == old(start) + taken && end == old(end)
      ensures Pending() == old(Pending())[f(old(data[end..]))..]
    {
      start := start + f(data[end..]);
      if start == end {
        start := 0;
        end := 0;
      }
    }
  }
}
