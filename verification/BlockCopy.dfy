/** Copying device memory to device memory through the host: chunk after chunk into a bounce buffer
    and back. */
module BlockCopy {
  import opened Bytes
  import opened Arithmetic

  // Device memory after the chunks from here on.
  function Chunked(m: Memory, src: nat, dst: nat, size: nat, chunk: nat): (m': Memory)
    requires chunk > 0
    requires src + size <= |m| && dst + size <= |m|
    ensures |m'| == |m|
    decreases size
  {
    if size == 0 then m
    else
      var n := if size > chunk then chunk else size;
      Chunked(Moved(m, dst, m, src, n), src + n, dst + n, size - n, chunk)
  }

  // One more chunk at the end: the chunks before it have been made on their own.
  lemma {:induction false} ChunkAtEnd(m: Memory, src: nat, dst: nat, k: nat, done: nat, n: nat, chunk: nat)
    requires 0 < n <= chunk && done == k * chunk
    requires src + done + n <= |m| && dst + done + n <= |m|
    ensures var before := Chunked(m, src, dst, done, chunk);
            Chunked(m, src, dst, done + n, chunk) == Moved(before, dst + done, before, src + done, n)
    decreases k
  {
    hide Moved;
    if k == 0 {
      NothingLeft(Moved(m, dst, m, src, n), src + n, dst + n, chunk);
    } else {
      Distribute(k, 1, chunk);
      MulAtLeast(k, chunk);
      ChunkAtEnd(Moved(m, dst, m, src, chunk), src + chunk, dst + chunk, k - 1, done - chunk, n, chunk);
    }
  }

  lemma NothingLeft(m: Memory, src: nat, dst: nat, chunk: nat)
    requires chunk > 0 && src <= |m| && dst <= |m|
    ensures Chunked(m, src, dst, 0, chunk) == m
  {
  }

  // The copy as memmove would make it.
  function Memmove(m: Memory, src: nat, dst: nat, size: nat): Memory
    requires src + size <= |m| && dst + size <= |m|
  {
    Moved(m, dst, m, src, size)
  }

  // The copy does not run into its own source behind a chunk boundary.
  predicate Safe(src: nat, dst: nat, size: nat, chunk: nat) {
    dst <= src || src + size <= dst || size <= chunk
  }

  // The chunks change nothing outside the destination.
  lemma {:induction false} Frame(m: Memory, src: nat, dst: nat, size: nat, chunk: nat, a: nat)
    requires chunk > 0
    requires src + size <= |m| && dst + size <= |m|
    requires a < |m| && !(dst <= a < dst + size)
    ensures Chunked(m, src, dst, size, chunk)[a] == m[a]
    decreases size
  {
    if size > 0 {
      var n := if size > chunk then chunk else size;
      MovedAt(m, dst, m, src, n, a);
      Frame(Moved(m, dst, m, src, n), src + n, dst + n, size - n, chunk, a);
    }
  }

  lemma ChunkBack(o: nat, chunk: nat)
    requires 0 < chunk <= o
    ensures (o / chunk) * chunk >= chunk
    ensures ((o - chunk) / chunk) * chunk == (o / chunk) * chunk - chunk
  {
    var q, r := Decompose(o, chunk);
    OrderKept(q, 1, chunk);
    OrderKept(1, q, chunk);
    Distribute(q, 1, chunk);
    DivModUnique(o - chunk, chunk, q - 1, r);
  }

  // A byte whose source no earlier chunk has overwritten arrives.
  lemma {:induction false} Arrives(m: Memory, src: nat, dst: nat, size: nat, chunk: nat, o: nat)
    requires chunk > 0
    requires src + size <= |m| && dst + size <= |m|
    requires o < size
    requires src + o < dst || src + o >= dst + (o / chunk) * chunk
    ensures Chunked(m, src, dst, size, chunk)[dst + o] == m[src + o]
    decreases size
  {
    hide Moved;
    var n := if size > chunk then chunk else size;
    var m' := Moved(m, dst, m, src, n);
    if o < n {
      MovedAt(m, dst, m, src, n, dst + o);
      Frame(m', src + n, dst + n, size - n, chunk, dst + o);
    } else {
      ChunkBack(o, chunk);
      MovedAt(m, dst, m, src, n, src + o);
      Arrives(m', src + n, dst + n, size - n, chunk, o - n);
    }
  }

  lemma SafeIsMemmove(m: Memory, src: nat, dst: nat, size: nat, chunk: nat)
    requires chunk > 0
    requires src + size <= |m| && dst + size <= |m|
    requires Safe(src, dst, size, chunk)
    ensures Chunked(m, src, dst, size, chunk) == Memmove(m, src, dst, size)
  {
    hide Moved, Chunked;
    var r := Chunked(m, src, dst, size, chunk);
    forall a | 0 <= a < |m| ensures r[a] == Memmove(m, src, dst, size)[a] {
      MovedAt(m, dst, m, src, size, a);
      if dst <= a < dst + size {
        var o := a - dst;
        BehindChunks(o, chunk);
        Arrives(m, src, dst, size, chunk, o);
      } else {
        Frame(m, src, dst, size, chunk, a);
      }
    }
  }

  lemma BehindChunks(o: nat, chunk: nat)
    requires chunk > 0
    ensures (o / chunk) * chunk <= o
    ensures o < chunk ==> (o / chunk) * chunk == 0
  {
    assert o == (o / chunk) * chunk + o % chunk;
  }

  // A memory that shows the damage: one byte differs from all others.
  function Marked(length: nat, at: nat): (m: Memory)
    ensures |m| == length
  {
    seq(length, i => if i == at then 1 else 0)
  }

  // Where the damage shows, and which byte of the source is lost.
  function LostOffset(src: nat, dst: nat, chunk: nat): nat
    requires src < dst
  {
    if dst - src >= chunk then dst - src else chunk
  }

  lemma UnsafeLoses(src: nat, dst: nat, size: nat, chunk: nat, length: nat)
    requires chunk > 0
    requires src + size <= length && dst + size <= length
    requires !Safe(src, dst, size, chunk)
    ensures var m := Marked(length, src + LostOffset(src, dst, chunk));
            Chunked(m, src, dst, size, chunk) != Memmove(m, src, dst, size)
  {
    hide Moved;
    var o := LostOffset(src, dst, chunk);
    var m := Marked(length, src + o);
    var m' := Moved(m, dst, m, src, chunk);
    assert Chunked(m, src, dst, size, chunk) == Chunked(m', src + chunk, dst + chunk, size - chunk, chunk);
    BehindChunks(0, chunk);
    Arrives(m', src + chunk, dst + chunk, size - chunk, chunk, o - chunk);
    MovedAt(m, dst, m, src, chunk, src + o);
    MovedAt(m, dst, m, src, size, dst + o);
  }

  /** The copy is a memmove, whatever the memory holds, exactly when the destination does not start inside the
      source, behind its first byte, while the size exceeds one chunk. */
  lemma MemmoveExactlyWhenSafe(src: nat, dst: nat, size: nat, chunk: nat, length: nat)
    requires chunk > 0
    requires src + size <= length && dst + size <= length
    ensures (forall m: Memory | |m| == length :: Chunked(m, src, dst, size, chunk) == Memmove(m, src, dst, size))
            <==> Safe(src, dst, size, chunk)
  {
    if Safe(src, dst, size, chunk) {
      forall m: Memory | |m| == length ensures Chunked(m, src, dst, size, chunk) == Memmove(m, src, dst, size) {
        SafeIsMemmove(m, src, dst, size, chunk);
      }
    } else {
      UnsafeLoses(src, dst, size, chunk, length);
    }
  }

  const COPY_BUFFER_SIZE: nat := 2 * 1024 * 1024

  datatype Interface = MemoryInterface | OtherInterface

  class Device {
    var memory: Memory
    var buffer: Memory      // mmd_copy_buffer
    var reported: seq<int>  // statuses given to the runtime's completion handler

    constructor (memory: Memory, buffer: Memory)
      requires |buffer| == COPY_BUFFER_SIZE
      ensures this.memory == memory && this.buffer == buffer && reported == []
    {
      this.memory, this.buffer, reported := memory, buffer, [];
    }

    // A blocking read of device memory into the bounce buffer; a failed one may leave anything in it.
    method ReadBlock(offset: nat, n: nat, ok: bool, junk: Memory) returns (status: int)
      requires offset + n <= |memory| && n <= |buffer| && |junk| == |buffer|
      modifies `buffer
      ensures |buffer| == |old(buffer)|
      ensures status == if ok then 0 else -1
      ensures ok ==> buffer[..n] == memory[offset..offset + n]
    {
      status := if ok then 0 else -1;
      buffer := if ok then memory[offset..offset + n] + buffer[n..] else junk;
    }

    // A blocking write; a failed one may leave anything in its destination.
    method WriteBlock(offset: nat, n: nat, ok: bool, junk: Memory) returns (status: int)
      requires offset + n <= |memory| && n <= |buffer| && |junk| == |buffer|
      modifies `memory
      ensures status == if ok then 0 else -1
      ensures memory == Put(old(memory), offset, if ok then buffer[..n] else junk[..n])
    {
      status := if ok then 0 else -1;
      memory := Put(memory, offset, if ok then buffer[..n] else junk[..n]);
    }

    /** The copy. With all block transfers successful it makes the chunked copy. A failed transfer ends it, but
        the status is 0 all the same; then, too, nothing outside the destination is touched. */
    method CopyBlock(hasOp: bool, kind: Interface, src: nat, dst: nat, size: nat, readOk: nat -> bool,
                     writeOk: nat -> bool, junk: Memory)
      returns (status: int, ghost whole: bool, ghost done: nat)
      requires src + size <= |memory| && dst + size <= |memory|
      requires |buffer| == COPY_BUFFER_SIZE == |junk|
      modifies this
      ensures |buffer| == COPY_BUFFER_SIZE && |memory| == |old(memory)|
      ensures status == if kind.MemoryInterface? then 0 else -1
      ensures kind.OtherInterface? ==> memory == old(memory)
      ensures whole <==> kind.MemoryInterface? && forall i: nat | i * COPY_BUFFER_SIZE < size :: readOk(i) && writeOk(i)
      ensures whole ==> memory == Chunked(old(memory), src, dst, size, COPY_BUFFER_SIZE)
      ensures kind.MemoryInterface? && !whole ==>
                && (forall i: nat | i < done :: readOk(i) && writeOk(i)) && !(readOk(done) && writeOk(done))
                && done * COPY_BUFFER_SIZE < size
                && memory == Broken(old(memory), src, dst, size, done, readOk(done), junk)
      ensures forall a | 0 <= a < |memory| && !(dst <= a < dst + size) :: memory[a] == old(memory)[a]
      ensures reported == if hasOp then old(reported) + [0] else old(reported)
    {
      hide Moved, Put, Chunked, Broken;
      status, whole, done := -1, false, 0;
      if kind.MemoryInterface? {
        whole, done := CopyChunks(src, dst, size, readOk, writeOk, junk);
        status := 0;
      }
      if hasOp {
        reported := reported + [0];
      }
    }

    // What a failure in chunk number done leaves: the chunks before it, and junk in its place if it was the write.
    ghost function Broken(was: Memory, src: nat, dst: nat, size: nat, done: nat, readOk: bool, junk: Memory): Memory
      requires src + size <= |was| && dst + size <= |was| && |junk| == COPY_BUFFER_SIZE
      requires done * COPY_BUFFER_SIZE < size
    {
      var start := done * COPY_BUFFER_SIZE;
      var before := Chunked(was, src, dst, start, COPY_BUFFER_SIZE);
      var n := if size - start > COPY_BUFFER_SIZE then COPY_BUFFER_SIZE else size - start;
      if readOk then Put(before, dst + start, junk[..n]) else before
    }

    // The loop over the chunks. done says how many were copied.
    method CopyChunks(src: nat, dst: nat, size: nat, readOk: nat -> bool, writeOk: nat -> bool, junk: Memory)
      returns (ghost whole: bool, ghost done: nat)
      requires src + size <= |memory| && dst + size <= |memory|
      requires |buffer| == COPY_BUFFER_SIZE == |junk|
      modifies `memory, `buffer
      ensures |buffer| == COPY_BUFFER_SIZE && |memory| == |old(memory)|
      ensures whole <==> forall i: nat | i * COPY_BUFFER_SIZE < size :: readOk(i) && writeOk(i)
      ensures whole ==> memory == Chunked(old(memory), src, dst, size, COPY_BUFFER_SIZE)
      ensures !whole ==>
                && (forall i: nat | i < done :: readOk(i) && writeOk(i)) && !(readOk(done) && writeOk(done))
                && done * COPY_BUFFER_SIZE < size
                && memory == Broken(old(memory), src, dst, size, done, readOk(done), junk)
      ensures forall a | 0 <= a < |memory| && !(dst <= a < dst + size) :: memory[a] == old(memory)[a]
    {
      hide Moved, Put, Chunked;
      ghost var was := memory;
      var left: nat, from: nat, to: nat := size, src, dst;
      var k: nat := 0;  // numbers the chunks, to look up what becomes of their transfers
      whole, done := true, 0;
      NothingLeft(memory, src, dst, COPY_BUFFER_SIZE);
      while left != 0
        invariant left <= size && from - src == to - dst == size - left
        invariant |buffer| == COPY_BUFFER_SIZE && |memory| == |was|
        invariant left > 0 ==> k * COPY_BUFFER_SIZE == size - left
        invariant left == 0 ==> k * COPY_BUFFER_SIZE >= size
        invariant forall i: nat | i < k :: readOk(i) && writeOk(i)
        invariant memory == Chunked(was, src, dst, size - left, COPY_BUFFER_SIZE)
        invariant forall a | 0 <= a < |memory| && !(dst <= a < dst + size) :: memory[a] == was[a]
        invariant whole
      {
        var chunk := if left > COPY_BUFFER_SIZE then COPY_BUFFER_SIZE else left;
        ghost var before := memory;
        done := k;
        var status := ReadBlock(from, chunk, readOk(k), junk);
        if status != 0 {
          whole := false;
          break;
        }
        status := WriteBlock(to, chunk, writeOk(k), junk);
        PutInside(before, to, if writeOk(k) then buffer[..chunk] else junk[..chunk]);
        if status != 0 {
          whole := false;
          break;
        }
        MovedIsPut(before, from, to, chunk);
        ChunkAtEnd(was, src, dst, k, size - left, chunk, COPY_BUFFER_SIZE);
        from, to, left := from + chunk, to + chunk, left - chunk;
        k := k + 1;
      }
      if whole {
        forall i: nat | i * COPY_BUFFER_SIZE < size ensures i < k {
          if i >= k {
            OrderKept(k, i, COPY_BUFFER_SIZE);
          }
        }
      }
    }

    lemma MovedIsPut(m: Memory, src: nat, dst: nat, n: nat)
      requires src + n <= |m| && dst + n <= |m|
      ensures Put(m, dst, m[src..src + n]) == Moved(m, dst, m, src, n)
    {
    }

    lemma PutInside(m: Memory, a: nat, bytes: seq<Byte>)
      requires a + |bytes| <= |m|
      ensures forall i | 0 <= i < |m| && !(a <= i < a + |bytes|) :: Put(m, a, bytes)[i] == m[i]
    {
    }
  }
}
