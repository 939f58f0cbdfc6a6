/** One thread's allocation counters. All updates wrap. */
module AllocationCounters {
  import opened MachineIntegers

  /** A block size; memory layouts never exceed it. */
  type Size = x: int | 0 <= x <= I64_MAX

  datatype Counters = Counters(bytes: U64, count: U64, outstanding: I64, watermark: I64)

  const ZERO: Counters := Counters(0, 0, 0, 0)

  /** What the allocator reports about one successful request. */
  datatype Request = Allocate(size: Size) | Deallocate(size: Size) | Reallocate(oldSize: Size, newSize: Size)

  function Max(x: int, y: int): (m: int)
    ensures m >= x && m >= y && (m == x || m == y)
  {
    if x > y then x else y
  }

  function AddedToTotals(c: Counters, size: Size): Counters {
    c.(bytes := WrapU64(c.bytes + size), count := WrapU64(c.count + 1))
  }

  function ShiftedOutstanding(c: Counters, delta: int): Counters {
    c.(outstanding := WrapI64(c.outstanding + delta))
  }

  function RaisedOutstanding(c: Counters, delta: int): Counters {
    var shifted := ShiftedOutstanding(c, delta);
    shifted.(watermark := Max(shifted.outstanding, shifted.watermark))
  }

  /** An allocation counts its size; a reallocation counts the whole new size in the totals
      and the difference in what is outstanding; a deallocation lowers what is outstanding
      and leaves the watermark alone. */
  function After(c: Counters, request: Request): Counters {
    match request
    case Allocate(size) => RaisedOutstanding(AddedToTotals(c, size), size)
    case Deallocate(size) => ShiftedOutstanding(c, 0 - size)
    case Reallocate(oldSize, newSize) => RaisedOutstanding(AddedToTotals(c, newSize), newSize - oldSize)
  }

  /** The counters of one thread, written only by that thread. */
  class PerThreadCounters {
    var bytes: U64
    var count: U64
    var outstanding: I64
    var watermark: I64

    function View(): Counters
      reads this
    {
      Counters(bytes, count, outstanding, watermark)
    }

    constructor ()
      ensures View() == ZERO
    {
      bytes, count, outstanding, watermark := 0, 0, 0, 0;
    }

    method RegisterAllocation(size: Size)
      modifies this
      ensures View() == After(old(View()), Allocate(size))
      ensures bytes == WrapU64(old(bytes) + size) && count == WrapU64(old(count) + 1)
      ensures outstanding == WrapI64(old(outstanding) + size)
      ensures watermark == Max(old(watermark), outstanding)
    {
      AddToTotals(size);
      RaiseOutstanding(size);
    }

    method RegisterDeallocation(size: Size)
      modifies this
      ensures View() == After(old(View()), Deallocate(size))
      ensures bytes == old(bytes) && count == old(count) && watermark == old(watermark)
      ensures outstanding == WrapI64(old(outstanding) - size)
    {
      var _ := ShiftOutstanding(0 - size);
    }

    method RegisterReallocation(oldSize: Size, newSize: Size)
      modifies this
      ensures View() == After(old(View()), Reallocate(oldSize, newSize))
      ensures bytes == WrapU64(old(bytes) + newSize) && count == WrapU64(old(count) + 1)
      ensures outstanding == WrapI64(old(outstanding) + newSize - oldSize)
      ensures watermark == Max(old(watermark), outstanding)
    {
      AddToTotals(newSize);
      RaiseOutstanding(newSize - oldSize);
    }

    method AddToTotals(size: Size)
      modifies this`bytes, this`count
      ensures View() == AddedToTotals(old(View()), size)
    {
      bytes := WrapU64(bytes + size);
      count := WrapU64(count + 1);
    }

    method RaiseOutstanding(delta: int)
      modifies this`outstanding, this`watermark
      ensures View() == RaisedOutstanding(old(View()), delta)
    {
      var level := ShiftOutstanding(delta);
      watermark := Max(level, watermark);
    }

    method ShiftOutstanding(delta: int) returns (level: I64)
      modifies this`outstanding
      ensures View() == ShiftedOutstanding(old(View()), delta) && level == outstanding
    {
      outstanding := WrapI64(outstanding + delta);
      level := outstanding;
    }

    method SetWatermark(value: I64)
      modifies this`watermark
      ensures View() == old(View()).(watermark := value)
    {
      watermark := value;
    }
  }
}
