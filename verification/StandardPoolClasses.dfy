/** The mutex pool as the program has it: guarded fields updated in place, and handles that give
    their buffer back. Each method body is one critical section. */
module StandardPoolClasses {
  import opened Wrappers
  import opened Bytes
  import opened Buffers
  import opened PoolConfigs
  import StandardPool

  class BufferPool {
    var buffers: seq<Buf>
    const config: Config
    var totalAllocated: nat
    var totalAcquired: nat
    var totalReturned: nat

    ghost function View(): StandardPool.Inner
      reads this
    {
      StandardPool.Inner(buffers, config, totalAllocated, totalAcquired, totalReturned)
    }

    /** Every idle buffer is zeroed. */
    ghost predicate Valid()
      reads this
    {
      StandardPool.IdleClean(View())
    }

    constructor (config: Config)
      requires ConfigOk(config)
      ensures Valid() && View() == StandardPool.NewInner(config)
    {
      this.config := config;
      totalAllocated, totalAcquired, totalReturned := 0, 0, 0;
      buffers := [];
      new;
      for k := 0 to config.minPool
        invariant buffers == seq(k, _ => New(config.bufferSize))
        invariant totalAllocated == totalAcquired == totalReturned == 0 && this.config == config
      {
        buffers := buffers + [New(config.bufferSize)];
      }
    }

    method Acquire() returns (h: PooledBuffer)
      requires Valid()
      modifies this
      ensures Valid() && fresh(h) && h.pool == this && h.buffer.Some?
      ensures (View(), h.buffer.value) == StandardPool.AcquireFrom(old(View()))
      ensures h.buffer.value.Clean()
    {
      totalAcquired := totalAcquired + 1;
      var b;
      if buffers == [] {
        totalAllocated := totalAllocated + 1;
        b := New(config.bufferSize);
      } else {
        b := buffers[|buffers| - 1];
        buffers := buffers[..|buffers| - 1];
      }
      h := new PooledBuffer(b, this);
    }

    method Shrink()
      requires Valid()
      modifies this`buffers
      ensures Valid() && View() == StandardPool.Shrunk(old(View()))
    {
      if config.minPool < |buffers| {
        buffers := buffers[..config.minPool];
      }
    }

    method Clear()
      modifies this`buffers
      ensures Valid() && View() == StandardPool.Cleared(old(View()))
    {
      buffers := [];
    }

    method Grow(targetSize: nat)
      requires Valid()
      modifies this`buffers
      ensures Valid() && View() == StandardPool.Grown(old(View()), targetSize)
    {
      var target := Min(targetSize, config.maxPool);
      ghost var start := buffers;
      ghost var k := 0;
      while |buffers| < target
        invariant buffers == start + seq(k, _ => New(config.bufferSize))
        invariant |start| + k <= Max(|start|, target)
        invariant Valid()
        decreases target - |buffers|
      {
        buffers := buffers + [New(config.bufferSize)];
        k := k + 1;
      }
    }
  }

  class PooledBuffer {
    var buffer: Option<Buf>
    const pool: BufferPool

    constructor (b: Buf, pool: BufferPool)
      ensures buffer == Some(b) && this.pool == pool
    {
      buffer, this.pool := Some(b), pool;
    }

    /** Hands the buffer to the caller; the pool never hears of it again. */
    method Leak() returns (b: Buf)
      requires buffer.Some?
      modifies this`buffer
      ensures buffer == None && b == old(buffer).value
    {
      b := buffer.value;
      buffer := None;
    }

    method DropNow() returns (destroyed: Option<Buf>)
      modifies this`buffer
      ensures buffer == None
      ensures destroyed == if old(buffer).Some? then Some(old(buffer).value.Burn()) else None
    {
      destroyed := None;
      if buffer.Some? {
        destroyed := Some(buffer.value.Burn());
        buffer := None;
      }
    }

    /** Burns, counts and returns the buffer; a handle that was leaked or dropped before does nothing. */
    method Drop()
      requires pool.Valid()
      modifies this`buffer, pool
      ensures pool.Valid() && buffer == None
      ensures pool.View() ==
        if old(buffer).Some? then StandardPool.ReturnTo(old(pool.View()), old(buffer).value) else old(pool.View())
    {
      if buffer.Some? {
        var burned := buffer.value.Burn();
        buffer := None;
        pool.totalReturned := pool.totalReturned + 1;
        if |pool.buffers| < pool.config.maxPool {
          pool.buffers := pool.buffers + [burned];
        }
      }
    }
  }
}
