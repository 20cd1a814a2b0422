/** A value model of StaticMemoryPoolBase and its StringBuilder: each operation is a
    function from the old state to the new state and the returned pointer. Pointers
    are offsets into the pool's buffer; NULL is None. The classes in module
    StaticMemoryPool are proved against these functions. */
module PoolModel {
  import opened Wrappers
  import opened Alignment

  /** The pool's state: its storage, the fixed capacity, the platform alignment and
      the cursor `size` (bytes consumed, alignment padding included). */
  datatype Pool = Pool(buffer: seq<char>, capacity: nat, align: Align, size: nat) {

    /** The pool invariant. The cursor may pass `capacity`: a failed allocation keeps
        the padding it added, so only the rounded-up capacity bounds it. */
    predicate Valid() {
      capacity <= |buffer| && size <= RoundUp(capacity, align)
    }
  }

  /** A pool state together with the pointer an operation returned. */
  datatype Outcome = Outcome(pool: Pool, ptr: Option<nat>)

  /** The capacity StaticMemoryPool<CAPACITY> actually reserves: Max<1, CAPACITY>. */
  function ActualCapacity(capacity: nat): (r: nat)
    ensures r >= 1 && r >= capacity
    ensures r == capacity || (capacity == 0 && r == 1)
  {
    if capacity < 1 then 1 else capacity
  }

  /** A freshly constructed pool: nothing consumed yet. */
  function New(buffer: seq<char>, capacity: nat, align: Align): (r: Pool)
    requires capacity <= |buffer|
    ensures r.Valid() && r.size == 0
    ensures r.buffer == buffer && r.capacity == capacity && r.align == align
  {
    Pool(buffer, capacity, align, 0)
  }

  /** alignNextAlloc: move the cursor up to the next aligned offset. */
  function AlignNextAlloc(p: Pool): (r: Pool)
    ensures r == p.(size := r.size)
    ensures p.size <= r.size < p.size + p.align && r.size % p.align == 0
    ensures p.Valid() ==> r.Valid()
  {
    var r := p.(size := RoundUp(p.size, p.align));
    assert p.Valid() ==> r.Valid() by {
      if p.Valid() {
        RoundUpMonotone(p.size, RoundUp(p.capacity, p.align), p.align);
        RoundUpIdempotent(p.capacity, p.align);
      }
    }
    r
  }

  /** canAlloc: the bytes fit between the cursor and the capacity. */
  predicate CanAlloc(p: Pool, bytes: nat): (r: bool)
    ensures r ==> p.size <= p.capacity && bytes <= p.capacity - p.size
    ensures !r ==> p.capacity < p.size + bytes
  {
    p.size + bytes <= p.capacity
  }

  /** doAlloc: hand out the bytes at the cursor and bump it. The block lies within the
      capacity and ends at the new cursor. */
  function DoAlloc(p: Pool, bytes: nat): (r: Outcome)
    requires CanAlloc(p, bytes)
    ensures r.pool == p.(size := r.pool.size)
    ensures p.Valid() ==> r.pool.Valid()
    ensures r.ptr == Some(p.size) && p.size + bytes == r.pool.size <= r.pool.capacity
  {
    Outcome(p.(size := p.size + bytes), Some(p.size))
  }

  /** alloc: align, then check the capacity, then bump. On success the block is
      aligned, lies within the capacity and ends at the new cursor; on failure the
      cursor stays at the aligned offset, the padding being kept. */
  function Alloc(p: Pool, bytes: nat): (r: Outcome)
    ensures r.pool == p.(size := r.pool.size)
    ensures p.Valid() ==> r.pool.Valid()
    ensures r.ptr.Some? ==>
      var q := r.ptr.value;
      q % p.align == 0 && p.size <= q < p.size + p.align &&
      r.pool.size == q + bytes <= p.capacity
    ensures r.ptr.None? ==>
      r.pool.size % p.align == 0 && p.size <= r.pool.size < p.size + p.align &&
      p.capacity < r.pool.size + bytes
  {
    var aligned := AlignNextAlloc(p);
    if !CanAlloc(aligned, bytes) then Outcome(aligned, None) else DoAlloc(aligned, bytes)
  }

  /** realloc: grow the pool's tail block by `newSize - oldSize` bytes, with no
      alignment. On success the pointer comes back unchanged (NULL included) and the
      cursor moves by exactly the difference; on failure NULL comes back and nothing
      moves. The subtraction is unsigned in the source, hence the precondition. */
  function Realloc(p: Pool, oldPtr: Option<nat>, oldSize: nat, newSize: nat): (r: Outcome)
    requires oldSize <= newSize
    ensures r.pool == p.(size := r.pool.size)
    ensures p.Valid() ==> r.pool.Valid()
    ensures p.size + (newSize - oldSize) <= p.capacity ==>
      r.ptr == oldPtr && r.pool.size == p.size + (newSize - oldSize)
    ensures p.capacity < p.size + (newSize - oldSize) ==>
      r.ptr == None && r.pool == p
    ensures oldPtr.Some? && oldPtr.value + oldSize == p.size && r.ptr.Some? ==>
      r.ptr.value + newSize == r.pool.size
  {
    var n := newSize - oldSize;
    if !CanAlloc(p, n) then Outcome(p, None) else Outcome(DoAlloc(p, n).pool, oldPtr)
  }

  /** clear: the cursor goes back to 0; the storage is not scrubbed. */
  function Clear(p: Pool): (r: Pool)
    ensures r.size == 0
    ensures r.buffer == p.buffer && r.capacity == p.capacity && r.align == p.align
    ensures p.capacity <= |p.buffer| ==> r.Valid()
  {
    p.(size := 0)
  }

  /** The state of a StringBuilder: the start of its block (None once any allocation
      for it failed) and the number of characters appended. Its block always has one
      byte more than `size`, kept for the terminator. */
  datatype Builder = Builder(start: Option<nat>, size: nat)

  /** A pool state together with the builder working in it. */
  datatype Building = Building(pool: Pool, builder: Builder)

  /** The builder's block [start, start + size + 1) is the pool's tail and within the
      capacity: nothing else has allocated since the builder last grew. */
  predicate Reserved(p: Pool, b: Builder)
    requires b.start.Some?
  {
    b.start.value + b.size + 1 == p.size <= p.capacity
  }

  /** The precondition of every builder operation: a live builder owns the tail. */
  predicate Live(p: Pool, b: Builder) {
    b.start.Some? ==> Reserved(p, b)
  }

  /** What the calling discipline guarantees of a builder: a live one owns the tail,
      and after a failure the pool has no room left for one more byte. */
  predicate Attached(p: Pool, b: Builder) {
    if b.start.Some? then Reserved(p, b) else p.capacity < p.size + 1
  }

  /** startString / the StringBuilder constructor: reserve one byte with alloc(1). */
  function StartString(p: Pool): (r: Building)
    requires p.Valid()
    ensures r.pool.Valid() && Attached(r.pool, r.builder) && r.builder.size == 0
    ensures r.pool == p.(size := r.pool.size)
    ensures r.builder.start == Alloc(p, 1).ptr
    ensures r.pool == Alloc(p, 1).pool
  {
    var a := Alloc(p, 1);
    Building(a.pool, Builder(a.ptr, 0))
  }

  /** StringBuilder::append: grow the block by one byte with realloc and, if that
      succeeded, write the character where the terminator slot was. */
  function Append(p: Pool, b: Builder, c: char): (r: Building)
    requires p.Valid() && Live(p, b)
    ensures r.pool.Valid() && Live(r.pool, r.builder)
    ensures r.pool.capacity == p.capacity && r.pool.align == p.align
    ensures |r.pool.buffer| == |p.buffer|
    ensures Attached(p, b) ==> Attached(r.pool, r.builder)
    // a live builder that grows writes exactly the character, at the end of its text
    ensures b.start.Some? && p.size + 1 <= p.capacity ==>
      r.builder == Builder(b.start, b.size + 1) &&
      r.pool == p.(size := p.size + 1, buffer := p.buffer[b.start.value + b.size := c])
    // a live builder that cannot grow fails and changes nothing in the pool
    ensures b.start.Some? && p.capacity < p.size + 1 ==>
      r.builder == Builder(None, b.size) && r.pool == p
    // failure is sticky, and under the discipline the pool is untouched too
    ensures b.start.None? ==> r.builder == b && r.pool.buffer == p.buffer
    ensures b.start.None? && Attached(p, b) ==> r.pool == p
  {
    var g := Realloc(p, b.start, b.size + 1, b.size + 2);
    if g.ptr.Some? then
      Building(g.pool.(buffer := g.pool.buffer[g.ptr.value + b.size := c]), Builder(g.ptr, b.size + 1))
    else
      Building(g.pool, Builder(None, b.size))
  }

  /** What complete needs of a live builder: the slot after its text lies before the
      cursor and within the capacity. A builder that owns the tail has it, and so does
      one after which something else was allocated. */
  predicate Terminable(p: Pool, b: Builder) {
    b.start.Some? ==>
      b.start.value + b.size < p.size && b.start.value + b.size < p.capacity
  }

  /** StringBuilder::complete: write the terminator into the byte reserved after the
      text and return the start, or NULL for a failed builder. */
  function Complete(p: Pool, b: Builder): (r: Outcome)
    requires p.Valid() && Terminable(p, b)
    ensures r.ptr == b.start
    ensures r.pool == p.(buffer := r.pool.buffer)
    ensures b.start.None? ==> r.pool == p
    ensures b.start.Some? ==>
      var at := b.start.value + b.size;
      b.start.value <= at < p.size && r.pool.buffer == p.buffer[at := 0 as char]
  {
    if b.start.Some? then
      Outcome(p.(buffer := p.buffer[b.start.value + b.size := 0 as char]), b.start)
    else
      Outcome(p, b.start)
  }
}
