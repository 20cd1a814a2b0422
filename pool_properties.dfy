/** Properties of the pool that relate several operations: runs of allocations,
    clear followed by alloc, and whole strings built with a StringBuilder. */
module PoolProperties {
  import opened Wrappers
  import opened Alignment
  import opened PoolModel

  /** alloc in terms of round_size_up: the block starts at the rounded-up cursor. */
  lemma AllocAtRoundedCursor(p: Pool, bytes: nat)
    ensures var q := RoundUp(p.size, p.align); var r := Alloc(p, bytes);
      if q + bytes <= p.capacity
      then r == Outcome(p.(size := q + bytes), Some(q))
      else r == Outcome(p.(size := q), None)
  {
    var r := Alloc(p, bytes);
    if r.ptr.Some? {
      RoundUpUnique(p.size, p.align, r.ptr.value);
    } else {
      RoundUpUnique(p.size, p.align, r.pool.size);
    }
  }

  /** The pool after a run of alloc calls, and the pointers they returned. */
  datatype Run = Run(pool: Pool, ptrs: seq<Option<nat>>)

  /** Successive alloc calls. Every block handed out is aligned, lies within the
      capacity, and ends before every later block starts, failures in between
      notwithstanding. */
  function AllocRun(p: Pool, sizes: seq<nat>): (r: Run)
    ensures |r.ptrs| == |sizes|
    ensures r.pool == p.(size := r.pool.size) && p.size <= r.pool.size
    ensures p.Valid() ==> r.pool.Valid()
    ensures forall i :: 0 <= i < |sizes| && r.ptrs[i].Some? ==>
      r.ptrs[i].value % p.align == 0 && p.size <= r.ptrs[i].value &&
      r.ptrs[i].value + sizes[i] <= r.pool.size && r.ptrs[i].value + sizes[i] <= p.capacity
    ensures forall i, j :: 0 <= i < j < |sizes| && r.ptrs[i].Some? && r.ptrs[j].Some? ==>
      r.ptrs[i].value + sizes[i] <= r.ptrs[j].value
    decreases |sizes|
  {
    if sizes == [] then Run(p, [])
    else
      var a := Alloc(p, sizes[0]);
      var rest := AllocRun(a.pool, sizes[1..]);
      assert forall j :: 1 <= j < |sizes| ==> sizes[j] == sizes[1..][j - 1];
      Run(rest.pool, [a.ptr] + rest.ptrs)
  }

  /** The cursor reached when every block of the run is placed at the next aligned
      offset: the aligned sum of the sizes. */
  function Packed(cursor: nat, a: Align, sizes: seq<nat>): nat
    decreases |sizes|
  {
    if sizes == [] then cursor else Packed(RoundUp(cursor, a) + sizes[0], a, sizes[1..])
  }

  lemma {:induction false} PackedGrows(cursor: nat, a: Align, sizes: seq<nat>)
    ensures cursor <= Packed(cursor, a, sizes)
    decreases |sizes|
  {
    if sizes != [] {
      PackedGrows(RoundUp(cursor, a) + sizes[0], a, sizes[1..]);
    }
  }

  /** A run whose aligned sum stays within the capacity succeeds at every call and
      leaves the cursor at that sum. */
  lemma {:induction false} AllocRunFits(p: Pool, sizes: seq<nat>)
    requires Packed(p.size, p.align, sizes) <= p.capacity
    ensures var r := AllocRun(p, sizes);
      r.pool.size == Packed(p.size, p.align, sizes) &&
      forall i :: 0 <= i < |sizes| ==> r.ptrs[i].Some?
    decreases |sizes|
  {
    if sizes != [] {
      var a := Alloc(p, sizes[0]);
      var next := RoundUp(p.size, p.align) + sizes[0];
      PackedGrows(next, p.align, sizes[1..]);
      AllocAtRoundedCursor(p, sizes[0]);
      assert a.pool.size == next && a.ptr.Some?;
      AllocRunFits(a.pool, sizes[1..]);
      var r := AllocRun(p, sizes);
      assert r.ptrs == [a.ptr] + AllocRun(a.pool, sizes[1..]).ptrs;
    }
  }

  /** After clear, alloc starts again at offset 0, exactly as the first alloc of a
      freshly constructed pool does. */
  lemma ClearThenAlloc(p: Pool, bytes: nat)
    requires p.capacity <= |p.buffer|
    ensures Clear(p) == New(p.buffer, p.capacity, p.align)
    ensures Alloc(Clear(p), bytes).ptr == if bytes <= p.capacity then Some(0) else None
  {
    RoundUpZero(p.align);
    AllocAtRoundedCursor(Clear(p), bytes);
  }

  /** Alignment runs before the capacity check and survives its failure: with 8-byte
      alignment and capacity 4, one 1-byte alloc succeeds and the next fails with the
      cursor at 8, beyond the capacity. */
  lemma FailedAllocKeepsPadding(buffer: seq<char>)
    requires |buffer| == 4
    ensures var p := New(buffer, 4, 8);
      var first := Alloc(p, 1);
      var second := Alloc(first.pool, 1);
      first.ptr == Some(0) && first.pool.size == 1 &&
      second.ptr == None && second.pool.size == 8 && second.pool.size > second.pool.capacity
  {
    RoundUpZero(8);
    RoundUpUnique(1, 8, 8);
    AllocAtRoundedCursor(New(buffer, 4, 8), 1);
    AllocAtRoundedCursor(Alloc(New(buffer, 4, 8), 1).pool, 1);
  }

  /** append on a failed builder still calls realloc(NULL, ...): when the pool has room
      the cursor moves on although the builder stays failed. Only the calling
      discipline (nothing allocates after the failure) makes it a no-op. */
  lemma FailedAppendStillReallocs(p: Pool, size: nat, c: char)
    requires p.Valid() && CanAlloc(p, 1)
    ensures var r := Append(p, Builder(None, size), c);
      r.builder == Builder(None, size) && r.pool == p.(size := p.size + 1)
  {
  }

  /** The buffer with `s` written from offset `at` on. */
  function Splice(buffer: seq<char>, at: nat, s: seq<char>): (r: seq<char>)
    requires at + |s| <= |buffer|
    ensures |r| == |buffer| && r[at..at + |s|] == s
    ensures forall i :: 0 <= i < |buffer| && !(at <= i < at + |s|) ==> r[i] == buffer[i]
  {
    buffer[..at] + s + buffer[at + |s|..]
  }

  lemma SpliceCons(buffer: seq<char>, at: nat, c: char, s: seq<char>)
    requires at + 1 + |s| <= |buffer|
    ensures Splice(buffer[at := c], at + 1, s) == Splice(buffer, at, [c] + s)
  {
    var l, r := Splice(buffer[at := c], at + 1, s), Splice(buffer, at, [c] + s);
    assert |l| == |r|;
    forall i | 0 <= i < |l| ensures l[i] == r[i] {
      if at + 1 <= i < at + 1 + |s| {
        assert l[i] == l[at + 1..at + 1 + |s|][i - at - 1];
        assert r[i] == r[at..at + 1 + |s|][i - at];
      } else if i == at {
        assert r[i] == r[at..at + 1 + |s|][0];
      }
    }
  }

  lemma SpliceSnoc(buffer: seq<char>, at: nat, s: seq<char>, c: char)
    requires at + |s| + 1 <= |buffer|
    ensures Splice(buffer, at, s)[at + |s| := c] == Splice(buffer, at, s + [c])
  {
    var l, r := Splice(buffer, at, s)[at + |s| := c], Splice(buffer, at, s + [c]);
    forall i | 0 <= i < |l| ensures l[i] == r[i] {
      if at <= i < at + |s| {
        assert l[i] == Splice(buffer, at, s)[at..at + |s|][i - at];
        assert r[i] == r[at..at + |s| + 1][i - at];
      } else if i == at + |s| {
        assert r[i] == r[at..at + |s| + 1][|s|];
      }
    }
  }

  /** Successive append calls, one per character of `s`. A live builder stays at its
      start; a failed one stays failed. */
  function AppendAll(p: Pool, b: Builder, s: seq<char>): (r: Building)
    requires p.Valid() && Live(p, b)
    ensures r.pool.Valid() && Live(r.pool, r.builder)
    ensures r.pool.capacity == p.capacity && r.pool.align == p.align
    ensures |r.pool.buffer| == |p.buffer|
    ensures Attached(p, b) ==> Attached(r.pool, r.builder)
    ensures r.builder.start.Some? ==> r.builder.start == b.start
    ensures b.start.None? ==> r.builder == b
    decreases |s|
  {
    if s == [] then Building(p, b)
    else
      var n := Append(p, b, s[0]);
      AppendAll(n.pool, n.builder, s[1..])
  }

  /** A builder whose appends all fit takes one more byte per character and holds the
      characters, in order, right after its start. */
  lemma {:induction false} AppendAllGrows(p: Pool, b: Builder, s: seq<char>)
    requires p.Valid() && b.start.Some? && Reserved(p, b) && p.size + |s| <= p.capacity
    ensures var r := AppendAll(p, b, s);
      r.builder == Builder(b.start, b.size + |s|) &&
      r.pool == p.(size := p.size + |s|, buffer := Splice(p.buffer, b.start.value + b.size, s))
    decreases |s|
  {
    var at := b.start.value + b.size;
    if s == [] {
      assert p.buffer[..at] + [] + p.buffer[at..] == p.buffer;
    } else {
      var n := Append(p, b, s[0]);
      AppendAllGrows(n.pool, n.builder, s[1..]);
      SpliceCons(p.buffer, at, s[0], s[1..]);
      assert [s[0]] + s[1..] == s;
    }
  }

  /** Once a failed builder has no room behind it, appending changes nothing at all. */
  lemma {:induction false} AppendAllSticky(p: Pool, b: Builder, s: seq<char>)
    requires p.Valid() && b.start.None? && Attached(p, b)
    ensures AppendAll(p, b, s) == Building(p, b)
    decreases |s|
  {
    if s != [] {
      AppendAllSticky(p, b, s[1..]);
    }
  }

  /** A builder that runs out of room fails for good: the characters that fitted stay
      in the buffer, the cursor stops at the capacity and the builder is NULL. */
  lemma {:induction false} AppendAllFails(p: Pool, b: Builder, s: seq<char>)
    requires p.Valid() && b.start.Some? && Reserved(p, b) && p.capacity < p.size + |s|
    ensures var room := p.capacity - p.size; var r := AppendAll(p, b, s);
      r.builder == Builder(None, b.size + room) && Attached(r.pool, r.builder) &&
      r.pool == p.(size := p.capacity,
                   buffer := Splice(p.buffer, b.start.value + b.size, s[..room]))
    decreases |s|
  {
    var at := b.start.value + b.size;
    var n := Append(p, b, s[0]);
    if p.size == p.capacity {
      AppendAllSticky(n.pool, n.builder, s[1..]);
      assert p.buffer[..at] + [] + p.buffer[at..] == p.buffer;
    } else {
      AppendAllFails(n.pool, n.builder, s[1..]);
      var room := p.capacity - p.size;
      SpliceCons(p.buffer, at, s[0], s[1..][..room - 1]);
      assert [s[0]] + s[1..][..room - 1] == s[..room];
    }
  }

  /** The whole life of one builder: startString, one append per character, complete. */
  function BuildString(p: Pool, s: seq<char>): (r: Outcome)
    requires p.Valid()
    ensures r.pool.Valid()
    ensures r.pool.capacity == p.capacity && r.pool.align == p.align
    ensures |r.pool.buffer| == |p.buffer|
  {
    var started := StartString(p);
    var built := AppendAll(started.pool, started.builder, s);
    Complete(built.pool, built.builder)
  }

  /** A string is built exactly when it fits, terminator included, after the aligned
      cursor; it then starts there and the buffer holds its characters followed by the
      terminator, the cursor just past it. Otherwise complete returns NULL. */
  lemma BuildStringCorrect(p: Pool, s: seq<char>)
    requires p.Valid()
    ensures var q := RoundUp(p.size, p.align); var r := BuildString(p, s);
      (r.ptr.Some? <==> q + |s| + 1 <= p.capacity) &&
      (r.ptr.Some? ==>
        r.ptr == Some(q) &&
        r.pool == p.(size := q + |s| + 1, buffer := Splice(p.buffer, q, s + [0 as char])))
  {
    var q := RoundUp(p.size, p.align);
    var started := StartString(p);
    AllocAtRoundedCursor(p, 1);
    var built := AppendAll(started.pool, started.builder, s);
    if q + 1 <= p.capacity {
      if q + 1 + |s| <= p.capacity {
        AppendAllGrows(started.pool, started.builder, s);
        SpliceSnoc(p.buffer, q, s, 0 as char);
      } else {
        AppendAllFails(started.pool, started.builder, s);
      }
    } else {
      AppendAllSticky(started.pool, started.builder, s);
    }
  }

  /** complete still writes into the builder's own reserved byte when something else
      was allocated after startString. */
  lemma CompleteAfterInterleavedAlloc(p: Pool, bytes: nat)
    requires p.Valid()
    ensures var st := StartString(p); var a := Alloc(st.pool, bytes);
      st.builder.start.Some? ==>
        Terminable(a.pool, st.builder) &&
        Complete(a.pool, st.builder).ptr == st.builder.start &&
        Complete(a.pool, st.builder).pool.buffer
          == a.pool.buffer[st.builder.start.value := 0 as char]
  {
  }

  /** "hello" built in a fresh pool of capacity 8 starts at 0 and is stored with its
      terminator in the first six bytes. */
  lemma BuildHello(buffer: seq<char>, capacity: nat, a: Align)
    requires 8 <= capacity <= |buffer|
    ensures var r := BuildString(New(buffer, capacity, a), "hello");
      r.ptr == Some(0) && r.pool.size == 6 && r.pool.buffer[..6] == "hello" + [0 as char]
  {
    RoundUpZero(a);
    BuildStringCorrect(New(buffer, capacity, a), "hello");
  }

  /** Two strings built one after the other occupy disjoint blocks, and building the
      second leaves the first intact. */
  lemma SuccessiveStrings(p: Pool, s1: seq<char>, s2: seq<char>)
    requires p.Valid()
    ensures var r1 := BuildString(p, s1); var r2 := BuildString(r1.pool, s2);
      r1.ptr.Some? && r2.ptr.Some? ==>
        r1.ptr.value + |s1| + 1 <= r2.ptr.value &&
        r2.pool.buffer[r1.ptr.value..r1.ptr.value + |s1| + 1] == s1 + [0 as char]
  {
    var r1 := BuildString(p, s1);
    BuildStringCorrect(p, s1);
    BuildStringCorrect(r1.pool, s2);
    if r1.ptr.Some? {
      var q1 := r1.ptr.value;
      assert r1.pool.buffer[q1..q1 + |s1| + 1] == s1 + [0 as char];
      var r2 := BuildString(r1.pool, s2);
      if r2.ptr.Some? {
        var q2 := r2.ptr.value;
        assert r2.pool.buffer[q1..q1 + |s1| + 1] == r1.pool.buffer[q1..q1 + |s1| + 1];
      }
    }
  }
}
