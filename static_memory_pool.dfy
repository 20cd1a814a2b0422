/** StaticMemoryPoolBase and its nested StringBuilder as classes: the pool owns a
    buffer and updates its cursor in place, the builder writes into the pool's
    buffer. Every method is proved to act as the matching function of PoolModel. */
module StaticMemoryPool {
  import opened Wrappers
  import opened Alignment
  import PoolModel

  class StaticMemoryPoolBase {
    const buffer: array<char>
    const capacity: nat
    /** The alignment round_size_up rounds to (sizeof(void*) on the target). */
    const align: Align
    var size: nat

    /** The pool invariant of PoolModel.Pool.Valid. */
    ghost predicate Valid()
      reads this
    {
      capacity <= buffer.Length && size <= RoundUp(capacity, align)
    }

    /** The value this object stands for. */
    ghost function Model(): (m: PoolModel.Pool)
      reads this, buffer
      ensures m.Valid() == Valid()
    {
      PoolModel.Pool(buffer[..], capacity, align, size)
    }

    /** The protected constructor: adopt a caller's buffer of at least `capa` bytes. */
    constructor (memoryPool: array<char>, capa: nat, align: Align)
      requires capa <= memoryPool.Length
      ensures Valid()
      ensures Model() == PoolModel.New(memoryPool[..], capa, align)
      ensures buffer == memoryPool
    {
      buffer := memoryPool;
      capacity := capa;
      this.align := align;
      size := 0;
    }

    /** StaticMemoryPool<CAPACITY>: a pool over its own buffer of Max<1, CAPACITY>
        bytes. */
    constructor WithCapacity(CAPACITY: nat, align: Align)
      ensures Valid() && fresh(buffer)
      ensures capacity == PoolModel.ActualCapacity(CAPACITY) == buffer.Length
      ensures Model() == PoolModel.New(buffer[..], capacity, align)
    {
      var actual := PoolModel.ActualCapacity(CAPACITY);
      buffer := new char[actual];
      capacity := actual;
      this.align := align;
      size := 0;
    }

    /** capacity(): the fixed capacity; a const field, so no operation changes it. */
    function Capacity(): (r: nat)
      reads this
      ensures r == capacity
      ensures Valid() ==> r <= buffer.Length
    {
      capacity
    }

    /** size(): the bytes consumed so far, alignment padding included. */
    function Size(): (r: nat)
      reads this
      ensures r == size
      ensures Valid() ==> r <= RoundUp(capacity, align)
    {
      size
    }

    method Alloc(bytes: nat) returns (p: Option<nat>)
      requires Valid()
      modifies this
      ensures Valid()
      ensures PoolModel.Alloc(old(Model()), bytes) == PoolModel.Outcome(Model(), p)
    {
      AlignNextAlloc();
      if !CanAlloc(bytes) {
        return None;
      }
      var q := DoAlloc(bytes);
      p := Some(q);
    }

    method Realloc(oldPtr: Option<nat>, oldSize: nat, newSize: nat) returns (p: Option<nat>)
      requires Valid() && oldSize <= newSize
      modifies this
      ensures Valid()
      ensures PoolModel.Realloc(old(Model()), oldPtr, oldSize, newSize) == PoolModel.Outcome(Model(), p)
    {
      var n := newSize - oldSize;
      if !CanAlloc(n) {
        return None;
      }
      var _ := DoAlloc(n);
      p := oldPtr;
    }

    /** Resets the pool. Every block handed out before becomes invalid. */
    method Clear()
      requires Valid()
      modifies this
      ensures Valid()
      ensures Model() == PoolModel.Clear(old(Model()))
    {
      size := 0;
    }

    method StartString() returns (b: StringBuilder)
      requires Valid()
      modifies this
      ensures Valid() && fresh(b) && b.parent == this
      ensures PoolModel.StartString(old(Model())) == PoolModel.Building(Model(), b.State())
      ensures PoolModel.Attached(Model(), b.State())
    {
      b := new StringBuilder(this);
    }

    method AlignNextAlloc()
      requires Valid()
      modifies this
      ensures Valid()
      ensures Model() == PoolModel.AlignNextAlloc(old(Model()))
    {
      size := RoundUp(size, align);
      assert Model() == PoolModel.AlignNextAlloc(old(Model()));
    }

    predicate CanAlloc(bytes: nat): (r: bool)
      reads this, buffer
      ensures r == PoolModel.CanAlloc(Model(), bytes)
    {
      size + bytes <= capacity
    }

    method DoAlloc(bytes: nat) returns (p: nat)
      requires Valid() && CanAlloc(bytes)
      modifies this
      ensures Valid()
      ensures PoolModel.DoAlloc(old(Model()), bytes) == PoolModel.Outcome(Model(), Some(p))
    {
      p := size;
      size := size + bytes;
    }
  }

  class StringBuilder {
    const parent: StaticMemoryPoolBase
    var start: Option<nat>
    var size: nat

    /** The value this builder stands for. */
    ghost function State(): PoolModel.Builder
      reads this
    {
      PoolModel.Builder(start, size)
    }

    /** Reserve one byte of the parent pool for the string's terminator. */
    constructor (parent: StaticMemoryPoolBase)
      requires parent.Valid()
      modifies parent
      ensures parent.Valid() && this.parent == parent
      ensures PoolModel.StartString(old(parent.Model())) == PoolModel.Building(parent.Model(), State())
    {
      this.parent := parent;
      start := None;
      size := 0;
      new;
      start := parent.Alloc(1);
    }

    /** Grow the block by one byte and write `c` into it. Requires that nothing else
        allocated from the parent since the builder last grew. */
    method Append(c: char)
      requires parent.Valid() && PoolModel.Live(parent.Model(), State())
      modifies this, parent, parent.buffer
      ensures parent.Valid()
      ensures PoolModel.Append(old(parent.Model()), old(State()), c)
           == PoolModel.Building(parent.Model(), State())
    {
      start := parent.Realloc(start, size + 1, size + 2);
      if start.Some? {
        parent.buffer[start.value + size] := c;
        size := size + 1;
      }
    }

    /** Terminate the string and return its start, or None when the builder failed. */
    method Complete() returns (r: Option<nat>)
      requires parent.Valid() && PoolModel.Terminable(parent.Model(), State())
      modifies parent.buffer
      ensures parent.Valid()
      ensures PoolModel.Complete(old(parent.Model()), State()) == PoolModel.Outcome(parent.Model(), r)
    {
      if start.Some? {
        parent.buffer[start.value + size] := 0 as char;
      }
      r := start;
    }
  }
}
