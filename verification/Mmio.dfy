/** Reading and writing a block of device registers that behave like memory: words of eight bytes, then of
    four, the last one padded. */
module Mmio {
  import opened Bytes

  // One register access: where and how many bytes.
  datatype Access = Access(addr: nat, width: nat)

  // The accesses that a transfer of size bytes at addr asks for.
  function Accesses(addr: nat, size: nat): seq<Access>
    decreases size
  {
    if size >= 8 then [Access(addr, 8)] + Accesses(addr + 8, size - 8)
    else if size > 4 then [Access(addr, 4), Access(addr + 4, 4)]
    else if size > 0 then [Access(addr, 4)]
    else []
  }

  function RoundUp4(n: nat): nat { (n + 3) / 4 * 4 }

  // The bytes, and zeros up to the next multiple of four.
  function Padded(bytes: seq<Byte>): (p: seq<Byte>)
    ensures |p| == RoundUp4(|bytes|)
  {
    bytes + seq(RoundUp4(|bytes|) - |bytes|, _ => 0)
  }

  // Memory m with the bytes at addr, as far as m reaches.
  function Landed(m: Memory, addr: nat, bytes: seq<Byte>): (m': Memory)
    ensures |m'| == |m|
  {
    seq(|m|, i requires 0 <= i < |m| => if addr <= i < addr + |bytes| then bytes[i - addr] else m[i])
  }

  // Access k succeeds: the registers exist and the link does not fail.
  predicate Succeeds(a: Access, length: nat, up: bool) {
    up && a.addr + a.width <= length
  }

  // How many accesses succeed before the first that does not; up(k) says whether the link works for access k.
  function Successes(accesses: seq<Access>, length: nat, up: nat -> bool): (k: nat)
    ensures k <= |accesses|
    ensures forall i | 0 <= i < k :: Succeeds(accesses[i], length, up(i))
    ensures k < |accesses| ==> !Succeeds(accesses[k], length, up(k))
  {
    SuccessesFrom(accesses, 0, length, up)
  }

  function SuccessesFrom(accesses: seq<Access>, from: nat, length: nat, up: nat -> bool): (k: nat)
    requires from <= |accesses|
    ensures from <= k <= |accesses|
    ensures forall i | from <= i < k :: Succeeds(accesses[i], length, up(i))
    ensures k < |accesses| ==> !Succeeds(accesses[k], length, up(k))
    decreases |accesses| - from
  {
    if from < |accesses| && Succeeds(accesses[from], length, up(from))
    then SuccessesFrom(accesses, from + 1, length, up) else from
  }

  // What a call makes of its destination, and its status: the bytes before the first failing access are there.
  datatype Outcome = Outcome(bytes: seq<Byte>, status: int, attempted: seq<Access>)

  // How many bytes the first k accesses move.
  function Covered(addr: nat, size: nat, k: nat): (n: nat)
    requires k <= |Accesses(addr, size)|
    ensures n <= RoundUp4(size)
  {
    AccessesTile(addr, size);
    if k < |Accesses(addr, size)| then Accesses(addr, size)[k].addr - addr else RoundUp4(size)
  }

  function Attempted(accesses: seq<Access>, k: nat): seq<Access>
    requires k <= |accesses|
  {
    if k < |accesses| then accesses[..k + 1] else accesses
  }

  function Write(m: Memory, addr: nat, bytes: seq<Byte>, up: nat -> bool): Outcome {
    var accesses := Accesses(addr, |bytes|);
    var k := Successes(accesses, |m|, up);
    Outcome(Landed(m, addr, Padded(bytes)[..Covered(addr, |bytes|, k)]),
            if k == |accesses| then 0 else -1,
            Attempted(accesses, k))
  }

  function Read(m: Memory, addr: nat, buffer: seq<Byte>, up: nat -> bool): Outcome {
    var accesses := Accesses(addr, |buffer|);
    var k := Successes(accesses, |m|, up);
    var covered := Covered(addr, |buffer|, k);
    CoveredInRange(m, addr, |buffer|, up);
    Outcome(Landed(buffer, 0, if covered == 0 then [] else m[addr..addr + covered]),
            if k == |accesses| then 0 else -1,
            Attempted(accesses, k))
  }

  // What succeeded lies within memory.
  lemma CoveredInRange(m: Memory, addr: nat, size: nat, up: nat -> bool)
    ensures var n := Covered(addr, size, Successes(Accesses(addr, size), |m|, up));
            n == 0 || addr + n <= |m|
  {
    AccessesTile(addr, size);
    var p := Accesses(addr, size);
    var k := Successes(p, |m|, up);
    if k > 0 {
      assert Succeeds(p[k - 1], |m|, up(k - 1));
    }
  }

  // The accesses lie within the block, rounded up to a multiple of four.
  lemma {:induction false} AccessesInside(addr: nat, size: nat)
    ensures var p := Accesses(addr, size);
            && (|p| == 0 <==> size == 0)
            && (|p| > 0 ==> p[0].addr == addr)
            && (forall k | 0 <= k < |p| ::
                  p[k].width in {4, 8} && addr <= p[k].addr && p[k].addr + p[k].width <= addr + RoundUp4(size))
    decreases size
  {
    if size >= 8 {
      AccessesInside(addr + 8, size - 8);
      RoundUpBy8(size);
      var rest := Accesses(addr + 8, size - 8);
      assert Accesses(addr, size) == [Access(addr, 8)] + rest;
      hide Accesses, RoundUp4;
    }
  }

  // Each access starts where the one before ends.
  predicate Follow(p: seq<Access>) {
    forall k | 0 < k < |p| :: p[k].addr == p[k - 1].addr + p[k - 1].width
  }

  lemma FollowOne(a: Access, rest: seq<Access>)
    requires Follow(rest) && (rest != [] ==> rest[0].addr == a.addr + a.width)
    ensures Follow([a] + rest)
    ensures rest != [] ==> ([a] + rest)[|rest|] == rest[|rest| - 1]
  {
  }

  // And the last ends at the multiple of four.
  lemma {:induction false} AccessesFollow(addr: nat, size: nat)
    ensures var p := Accesses(addr, size);
            Follow(p) && (|p| > 0 ==> p[|p| - 1].addr + p[|p| - 1].width == addr + RoundUp4(size))
    decreases size
  {
    if size >= 8 {
      AccessesFollow(addr + 8, size - 8);
      AccessesInside(addr + 8, size - 8);
      RoundUpBy8(size);
      FollowOne(Access(addr, 8), Accesses(addr + 8, size - 8));
      assert Accesses(addr, size) == [Access(addr, 8)] + Accesses(addr + 8, size - 8);
      hide Accesses, RoundUp4, Follow;
    } else {
      SmallTile(addr, size);
    }
  }

  lemma SmallTile(addr: nat, size: nat)
    requires size < 8
    ensures Accesses(addr, size) == if size > 4 then [Access(addr, 4), Access(addr + 4, 4)]
                                    else if size > 0 then [Access(addr, 4)] else []
    ensures RoundUp4(size) == if size > 4 then 8 else if size > 0 then 4 else 0
  {
  }

  lemma RoundUpBy8(size: nat)
    requires size >= 8
    ensures RoundUp4(size) == 8 + RoundUp4(size - 8)
    ensures RoundUp4(0) == 0
  {
  }

  /** The accesses tile the block, rounded up to a multiple of four, in words of eight and four bytes. */
  lemma AccessesTile(addr: nat, size: nat)
    ensures var p := Accesses(addr, size);
            && (|p| == 0 <==> size == 0)
            && (|p| > 0 ==> p[0].addr == addr && p[|p| - 1].addr + p[|p| - 1].width == addr + RoundUp4(size))
            && (forall k | 0 < k < |p| :: p[k].addr == p[k - 1].addr + p[k - 1].width)
            && (forall k | 0 <= k < |p| ::
                  p[k].width in {4, 8} && addr <= p[k].addr && p[k].addr + p[k].width <= addr + RoundUp4(size))
  {
    hide Accesses, RoundUp4;
    AccessesInside(addr, size);
    AccessesFollow(addr, size);
  }

  predicate Natural(a: Access) {
    a.width > 0 && a.addr % a.width == 0
  }

  predicate AllNatural(p: seq<Access>) {
    forall a | a in p :: Natural(a)
  }

  lemma NaturalOne(a: Access, rest: seq<Access>)
    ensures AllNatural([a] + rest) <==> Natural(a) && AllNatural(rest)
    ensures AllNatural([])
  {
    hide Natural;
    assert forall b | b in [a] + rest :: b == a || b in rest;
  }

  lemma NextNatural(addr: nat)
    ensures Natural(Access(addr, 8)) <==> addr % 8 == 0
    ensures Natural(Access(addr, 4)) <==> addr % 4 == 0
    ensures addr % 8 == 0 ==> (addr + 8) % 8 == 0 && (addr + 8) % 4 == 0
    ensures addr % 4 == 0 <==> (addr + 4) % 4 == 0
  {
  }

  /** All accesses are naturally aligned exactly when the address fits the first of them. */
  lemma {:induction false} AlignedExactlyWhen(addr: nat, size: nat)
    ensures AllNatural(Accesses(addr, size)) <==> size == 0 || (if size >= 8 then addr % 8 == 0 else addr % 4 == 0)
    decreases size
  {
    hide AllNatural, Natural;
    NextNatural(addr);
    if size >= 8 {
      AlignedExactlyWhen(addr + 8, size - 8);
      assert Accesses(addr, size) == [Access(addr, 8)] + Accesses(addr + 8, size - 8);
      NaturalOne(Access(addr, 8), Accesses(addr + 8, size - 8));
      hide Accesses;
    } else {
      SmallTile(addr, size);
      NextNatural(addr + 4);
      NaturalOne(Access(addr + 4, 4), []);
      NaturalOne(Access(addr, 4), if size > 4 then [Access(addr + 4, 4)] else []);
      assert [Access(addr + 4, 4)] + [] == [Access(addr + 4, 4)] && [Access(addr, 4)] + [] == [Access(addr, 4)];
      assert [Access(addr, 4)] + [Access(addr + 4, 4)] == [Access(addr, 4), Access(addr + 4, 4)];
      hide Accesses;
    }
  }

  /** A write that succeeds puts the bytes and the zero padding there, and nothing else changes. */
  lemma WriteFootprint(m: Memory, addr: nat, bytes: seq<Byte>, up: nat -> bool, i: nat)
    requires i < |m|
    requires Write(m, addr, bytes, up).status == 0
    ensures Write(m, addr, bytes, up).bytes[i] ==
            if addr <= i < addr + |bytes| then bytes[i - addr]
            else if addr + |bytes| <= i < addr + RoundUp4(|bytes|) then 0
            else m[i]
  {
    WriteDone(m, addr, bytes, up);
    hide Write, Accesses, RoundUp4;
  }

  /** Both calls succeed exactly when the registers exist, up to the padding, and the link works for all accesses. */
  lemma SucceedExactlyWhen(m: Memory, addr: nat, bytes: seq<Byte>, up: nat -> bool)
    ensures Write(m, addr, bytes, up).status == Read(m, addr, bytes, up).status
    ensures Write(m, addr, bytes, up).status == 0 <==>
            || bytes == []
            || (addr + RoundUp4(|bytes|) <= |m| && forall k | 0 <= k < |Accesses(addr, |bytes|)| :: up(k))
  {
    hide Landed, Covered, Accesses;
    var p := Accesses(addr, |bytes|);
    AccessesTile(addr, |bytes|);
    if bytes != [] && Successes(p, |m|, up) == |p| {
      assert Succeeds(p[|p| - 1], |m|, up(|p| - 1));
    }
  }

  // A write that succeeded has made all its accesses.
  lemma WriteDone(m: Memory, addr: nat, bytes: seq<Byte>, up: nat -> bool)
    requires Write(m, addr, bytes, up).status == 0
    ensures var w := Write(m, addr, bytes, up);
            && w.attempted == Accesses(addr, |bytes|)
            && w.bytes == Landed(m, addr, Padded(bytes))
            && (bytes != [] ==> addr + RoundUp4(|bytes|) <= |m|)
  {
    AccessesTile(addr, |bytes|);
    CoveredInRange(m, addr, |bytes|, up);
    hide Landed, Accesses, RoundUp4;
    assert Padded(bytes)[..|Padded(bytes)|] == Padded(bytes);
  }

  // What the bytes of a block are after a write of it that succeeded.
  lemma WrittenThere(m: Memory, addr: nat, bytes: seq<Byte>, up: nat -> bool)
    requires Write(m, addr, bytes, up).status == 0 && bytes != []
    ensures addr + RoundUp4(|bytes|) <= |m| == |Write(m, addr, bytes, up).bytes|
    ensures Write(m, addr, bytes, up).bytes[addr..addr + |bytes|] == bytes
    ensures Write(m, addr, bytes, up).attempted == Accesses(addr, |bytes|)
  {
    hide Write, Accesses, RoundUp4, Landed, Padded;
    WriteDone(m, addr, bytes, up);
    PaddedStarts(bytes);
    LandedThere(m, addr, Padded(bytes), |bytes|);
  }

  lemma PaddedStarts(bytes: seq<Byte>)
    ensures |bytes| <= |Padded(bytes)| && Padded(bytes)[..|bytes|] == bytes
  {
    hide RoundUp4;
  }

  lemma LandedThere(m: Memory, addr: nat, bytes: seq<Byte>, n: nat)
    requires n <= |bytes| && addr + |bytes| <= |m|
    ensures Landed(m, addr, bytes)[addr..addr + n] == bytes[..n]
  {
  }

  // A read of registers that exist.
  lemma ReadThere(m: Memory, addr: nat, buffer: seq<Byte>, up: nat -> bool)
    requires addr + RoundUp4(|buffer|) <= |m|
    ensures var r := Read(m, addr, buffer, up);
            && (r.status == 0 ==> r.bytes == m[addr..addr + |buffer|] && r.attempted == Accesses(addr, |buffer|))
            && (r.status == 0 <==> forall k | 0 <= k < |Accesses(addr, |buffer|)| :: up(k))
  {
    SucceedExactlyWhen(m, addr, buffer, up);
  }

  /** What has been written is read back, whatever was in the buffer; and if the link works, the read succeeds. */
  lemma RoundTrip(m: Memory, addr: nat, bytes: seq<Byte>, buffer: seq<Byte>, wrUp: nat -> bool, rdUp: nat -> bool)
    requires |buffer| == |bytes|
    requires Write(m, addr, bytes, wrUp).status == 0
    ensures var w := Write(m, addr, bytes, wrUp);
            var r := Read(w.bytes, addr, buffer, rdUp);
            && (r.status == 0 ==> r.bytes == bytes && r.attempted == w.attempted)
            && (r.status == 0 <==> forall k | 0 <= k < |Accesses(addr, |bytes|)| :: rdUp(k))
  {
    if bytes != [] {
      hide Write, Read;
      WrittenThere(m, addr, bytes, wrUp);
      ReadThere(Write(m, addr, bytes, wrUp).bytes, addr, buffer, rdUp);
    }
  }

  // One more access's bytes.
  lemma LandedNext(m: Memory, addr: nat, bytes: seq<Byte>, n: nat, k: nat)
    requires n + k <= |bytes|
    ensures Landed(Landed(m, addr, bytes[..n]), addr + n, bytes[n..n + k]) == Landed(m, addr, bytes[..n + k])
  {
  }

  // A transfer of n bytes at addr has made k accesses, all successful, and has size bytes left, the next at `at`.
  ghost predicate Walked(addr: nat, n: nat, length: nat, up: nat -> bool, k: nat, at: nat, size: nat) {
    var all := Accesses(addr, n);
    && k <= |all| && all == all[..k] + Accesses(at, size)
    && (forall i | 0 <= i < k :: Succeeds(all[i], length, up(i)))
    && size <= n
    && (size > 0 ==> at - addr == n - size)
  }

  function Width(size: nat): nat { if size >= 8 then 8 else 4 }

  // How many bytes have been moved when size of n are left; the last access may move more than are left.
  function BytesMoved(n: nat, size: nat): nat
    requires size <= n
  {
    if size == 0 then RoundUp4(n) else n - size
  }

  // The accesses that are left, one by one.
  lemma NextAccess(at: nat, size: nat, next: nat)
    requires size > 0
    requires size > Width(size) ==> next == at + Width(size)
    ensures var left := if size > Width(size) then size - Width(size) else 0;
            Accesses(at, size) == [Access(at, Width(size))] + Accesses(next, left)
  {
  }

  lemma WalkStops(addr: nat, n: nat, length: nat, up: nat -> bool, k: nat, at: nat, size: nat)
    requires Walked(addr, n, length, up, k, at, size) && size > 0
    requires !Succeeds(Access(at, Width(size)), length, up(k))
    ensures var all := Accesses(addr, n);
            && k < |all| && Successes(all, length, up) == k
            && Covered(addr, n, k) == n - size
            && Attempted(all, k) == all[..k] + [Access(at, Width(size))]
  {
    NextAccess(at, size, at + Width(size));
    hide Accesses, RoundUp4;
    var all := Accesses(addr, n);
    assert all[k] == Access(at, Width(size));
  }

  lemma WalkGoesOn(addr: nat, n: nat, length: nat, up: nat -> bool, k: nat, at: nat, size: nat, next: nat)
    requires Walked(addr, n, length, up, k, at, size) && size > 0
    requires Succeeds(Access(at, Width(size)), length, up(k))
    requires size > Width(size) ==> next == at + Width(size)
    ensures var left := if size > Width(size) then size - Width(size) else 0;
            && Walked(addr, n, length, up, k + 1, next, left)
            && k < |Accesses(addr, n)|
            && Accesses(addr, n)[..k + 1] == Accesses(addr, n)[..k] + [Access(at, Width(size))]
  {
    NextAccess(at, size, next);
    hide Accesses, Succeeds;
    var all := Accesses(addr, n);
    var left := if size > Width(size) then size - Width(size) else 0;
    assert all[k] == Access(at, Width(size));
    assert all[..k + 1] == all[..k] + [Access(at, Width(size))];
    assert all == all[..k + 1] + Accesses(next, left);
  }

  lemma WalkEnds(addr: nat, n: nat, length: nat, up: nat -> bool, k: nat, at: nat)
    requires Walked(addr, n, length, up, k, at, 0)
    ensures var all := Accesses(addr, n);
            && k == |all| == Successes(all, length, up)
            && Covered(addr, n, k) == RoundUp4(n)
            && Attempted(all, k) == all[..k]
  {
  }

  // The next word to write when size bytes are left.
  function NextWord(bytes: seq<Byte>, size: nat): (word: seq<Byte>)
    requires 0 < size <= |bytes|
    ensures |word| == Width(size)
  {
    var from := |bytes| - size;
    if size >= 8 then bytes[from..from + 8]
    else if size >= 4 then bytes[from..from + 4]
    else bytes[from..] + seq(4 - size, _ => 0)
  }

  lemma RoundUpRest(n: nat, size: nat)
    requires 0 < size <= n && (n - size) % 4 == 0
    ensures RoundUp4(n) == n - size + RoundUp4(size)
    ensures RoundUp4(size) >= Width(size) && (size < 4 ==> RoundUp4(size) == 4)
  {
    var q := (n - size) / 4;
    assert n == 4 * q + size;
  }

  lemma PaddedSlice(bytes: seq<Byte>, size: nat)
    requires 0 < size <= |bytes| && |bytes| - size + Width(size) <= |Padded(bytes)|
    ensures var from := |bytes| - size;
            NextWord(bytes, size) == Padded(bytes)[from..from + Width(size)]
  {
    hide RoundUp4;
    var from := |bytes| - size;
    var padded := Padded(bytes);
    assert padded[..|bytes|] == bytes;
    if size >= 8 {
      assert padded[from..from + 8] == bytes[from..from + 8];
    } else if size >= 4 {
      assert padded[from..from + 4] == bytes[from..from + 4];
    } else {
      assert forall i | |bytes| <= i < |padded| :: padded[i] == 0;
      assert padded[from..from + 4] == bytes[from..] + seq(4 - size, _ => 0);
    }
  }

  // It is the next word of the padded bytes.
  lemma PaddedWord(bytes: seq<Byte>, size: nat)
    requires 0 < size <= |bytes| && (|bytes| - size) % 4 == 0
    ensures var from := |bytes| - size;
            from + Width(size) <= |Padded(bytes)| && NextWord(bytes, size) == Padded(bytes)[from..from + Width(size)]
  {
    RoundUpRest(|bytes|, size);
    hide RoundUp4;
    PaddedSlice(bytes, size);
  }

  // A write of the bytes at addr, begun on m0 and log0, has come to m and log.
  ghost predicate Writing(m0: Memory, log0: seq<Access>, addr: nat, bytes: seq<Byte>, up: nat -> bool,
                          m: Memory, log: seq<Access>, k: nat, at: nat, size: nat) {
    && Walked(addr, |bytes|, |m0|, up, k, at, size)
    && (size > 0 ==> (|bytes| - size) % 4 == 0)
    && |m| == |m0|
    && log == log0 + Accesses(addr, |bytes|)[..k]
    && BytesMoved(|bytes|, size) <= |Padded(bytes)|
    && m == Landed(m0, addr, Padded(bytes)[..BytesMoved(|bytes|, size)])
  }

  lemma WritingStarts(m: Memory, log: seq<Access>, addr: nat, bytes: seq<Byte>, up: nat -> bool)
    ensures Writing(m, log, addr, bytes, up, m, log, 0, addr, |bytes|)
  {
    assert Padded(bytes)[..0] == [];
  }

  lemma WritingGoesOn(m0: Memory, log0: seq<Access>, addr: nat, bytes: seq<Byte>, up: nat -> bool,
                      m: Memory, log: seq<Access>, k: nat, at: nat, size: nat, next: nat)
    requires Writing(m0, log0, addr, bytes, up, m, log, k, at, size) && size > 0
    requires Succeeds(Access(at, Width(size)), |m0|, up(k))
    requires size > Width(size) ==> next == at + Width(size)
    ensures var left := if size > Width(size) then size - Width(size) else 0;
            Writing(m0, log0, addr, bytes, up, Landed(m, at, NextWord(bytes, size)), log + [Access(at, Width(size))],
                    k + 1, next, left)
  {
    hide Landed, Accesses, Padded, Succeeds;
    var from := |bytes| - size;
    WalkGoesOn(addr, |bytes|, |m0|, up, k, at, size, next);
    PaddedWord(bytes, size);
    LandedNext(m0, addr, Padded(bytes), from, Width(size));
  }

  lemma WritingStops(m0: Memory, log0: seq<Access>, addr: nat, bytes: seq<Byte>, up: nat -> bool,
                     m: Memory, log: seq<Access>, k: nat, at: nat, size: nat)
    requires Writing(m0, log0, addr, bytes, up, m, log, k, at, size) && size > 0
    requires !Succeeds(Access(at, Width(size)), |m0|, up(k))
    ensures Write(m0, addr, bytes, up).bytes == m && Write(m0, addr, bytes, up).status == -1
    ensures log + [Access(at, Width(size))] == log0 + Write(m0, addr, bytes, up).attempted
  {
    hide Landed, Accesses, Padded, Succeeds;
    WalkStops(addr, |bytes|, |m0|, up, k, at, size);
  }

  lemma WritingEnds(m0: Memory, log0: seq<Access>, addr: nat, bytes: seq<Byte>, up: nat -> bool,
                    m: Memory, log: seq<Access>, k: nat, at: nat)
    requires Writing(m0, log0, addr, bytes, up, m, log, k, at, 0)
    ensures Write(m0, addr, bytes, up).bytes == m && Write(m0, addr, bytes, up).status == 0
    ensures log == log0 + Write(m0, addr, bytes, up).attempted
  {
    hide Landed, Accesses, Padded, Succeeds;
    WalkEnds(addr, |bytes|, |m0|, up, k, at);
  }

  // A read into a buffer that held b0, begun with log0, has come to b and log.
  ghost predicate Reading(m: Memory, log0: seq<Access>, addr: nat, b0: seq<Byte>, up: nat -> bool,
                          b: seq<Byte>, log: seq<Access>, k: nat, at: nat, size: nat) {
    && Walked(addr, |b0|, |m|, up, k, at, size)
    && (|b0| == size || at <= |m|)
    && |b| == |b0|
    && log == log0 + Accesses(addr, |b0|)[..k]
    && (forall i | 0 <= i < |b0| :: b[i] == if i < |b0| - size && addr + i < |m| then m[addr + i] else b0[i])
  }

  lemma ReadingStarts(m: Memory, log: seq<Access>, addr: nat, b: seq<Byte>, up: nat -> bool)
    ensures Reading(m, log, addr, b, up, b, log, 0, addr, |b|)
  {
  }

  lemma SucceededInRange(at: nat, width: nat, length: nat, up: bool)
    requires Succeeds(Access(at, width), length, up)
    ensures at + width <= length
  {
  }

  lemma ReadingGoesOn(m: Memory, log0: seq<Access>, addr: nat, b0: seq<Byte>, up: nat -> bool,
                      b: seq<Byte>, log: seq<Access>, k: nat, at: nat, size: nat, bytes: seq<Byte>, next: nat)
    requires Reading(m, log0, addr, b0, up, b, log, k, at, size) && size > 0
    requires Succeeds(Access(at, Width(size)), |m|, up(k))
    requires size > Width(size) ==> next == at + Width(size)
    requires next <= |m|
    requires bytes == m[at..at + if size > Width(size) then Width(size) else size]
    ensures var left := if size > Width(size) then size - Width(size) else 0;
            && |b| == |b0|
            && Reading(m, log0, addr, b0, up, Put(b, |b| - size, bytes), log + [Access(at, Width(size))], k + 1, next,
                       left)
  {
    hide Accesses, Walked;
    WalkGoesOn(addr, |b0|, |m|, up, k, at, size, next);
    WalkedAt(addr, |b0|, |m|, up, k, at, size);
  }

  lemma WalkedAt(addr: nat, n: nat, length: nat, up: nat -> bool, k: nat, at: nat, size: nat)
    requires Walked(addr, n, length, up, k, at, size)
    ensures size <= n && k <= |Accesses(addr, n)| && (size > 0 ==> at == addr + n - size)
  {
  }

  lemma ReadingStops(m: Memory, log0: seq<Access>, addr: nat, b0: seq<Byte>, up: nat -> bool,
                     b: seq<Byte>, log: seq<Access>, k: nat, at: nat, size: nat)
    requires Reading(m, log0, addr, b0, up, b, log, k, at, size) && size > 0
    requires !Succeeds(Access(at, Width(size)), |m|, up(k))
    ensures Read(m, addr, b0, up).bytes == b && Read(m, addr, b0, up).status == -1
    ensures log + [Access(at, Width(size))] == log0 + Read(m, addr, b0, up).attempted
  {
    hide Accesses, Succeeds;
    WalkStops(addr, |b0|, |m|, up, k, at, size);
  }

  lemma ReadingEnds(m: Memory, log0: seq<Access>, addr: nat, b0: seq<Byte>, up: nat -> bool,
                    b: seq<Byte>, log: seq<Access>, k: nat, at: nat)
    requires Reading(m, log0, addr, b0, up, b, log, k, at, 0)
    ensures Read(m, addr, b0, up).bytes == b && Read(m, addr, b0, up).status == 0
    ensures log == log0 + Read(m, addr, b0, up).attempted
  {
    hide Accesses, Succeeds;
    WalkEnds(addr, |b0|, |m|, up, k, at);
    CoveredInRange(m, addr, |b0|, up);
  }

  lemma PartOfWord(m: Memory, at: nat, size: nat)
    requires size <= 4 && at + 4 <= |m|
    ensures m[at..at + 4][..size] == m[at..at + size]
  {
  }

  class Registers {
    var memory: Memory
    var log: seq<Access>  // every access made

    constructor (memory: Memory)
      ensures this.memory == memory && log == []
    {
      this.memory, log := memory, [];
    }

    // fpgaWriteMMIO64 and fpgaWriteMMIO32, by the length of word.
    method WriteWord(addr: nat, word: seq<Byte>, up: bool) returns (ok: bool)
      modifies this
      ensures log == old(log) + [Access(addr, |word|)]
      ensures ok == Succeeds(Access(addr, |word|), |old(memory)|, up)
      ensures memory == if ok then Landed(old(memory), addr, word) else old(memory)
    {
      log := log + [Access(addr, |word|)];
      ok := up && addr + |word| <= |memory|;
      if ok {
        memory := memory[..addr] + word + memory[addr + |word|..];
      }
    }

    // fpgaReadMMIO64 and fpgaReadMMIO32.
    method ReadWord(addr: nat, width: nat, up: bool) returns (ok: bool, word: seq<Byte>)
      modifies `log
      ensures log == old(log) + [Access(addr, width)]
      ensures ok == Succeeds(Access(addr, width), |memory|, up)
      ensures ok ==> word == memory[addr..addr + width]
    {
      log := log + [Access(addr, width)];
      ok := up && addr + width <= |memory|;
      word := if ok then memory[addr..addr + width] else [];
    }

    /** write_mmio: eight bytes at a time, then four, the last four filled up with zeros. */
    method WriteMmio(host: array<Byte>, addr: nat, up: nat -> bool) returns (status: int)
      modifies this
      ensures var w := Write(old(memory), addr, host[..], up);
              memory == w.bytes && status == w.status && log == old(log) + w.attempted
    {
      hide Landed, Writing, Write, Succeeds;
      ghost var bytes, m0, log0 := host[..], memory, log;
      var at: nat, size: nat, from: nat, k: nat := addr, host.Length, 0, 0;
      WritingStarts(m0, log0, addr, bytes, up);
      while size >= 8
        invariant size <= |bytes| && from == |bytes| - size && |memory| == |m0|
        invariant Writing(m0, log0, addr, bytes, up, memory, log, k, at, size)
      {
        ghost var m, l := memory, log;
        var ok := WriteWord(at, host[from..from + 8], up(k));
        if !ok {
          WritingStops(m0, log0, addr, bytes, up, m, l, k, at, size);
          return -1;
        }
        WritingGoesOn(m0, log0, addr, bytes, up, m, l, k, at, size, at + 8);
        from, at, size := from + 8, at + 8, size - 8;
        k := k + 1;
      }
      while size > 0
        invariant size < 8 && size <= |bytes| && (size > 0 ==> from == |bytes| - size) && |memory| == |m0|
        invariant Writing(m0, log0, addr, bytes, up, memory, log, k, at, size)
      {
        ghost var m, l := memory, log;
        var chunk := if size >= 4 then 4 else size;
        var word := host[from..from + chunk] + seq(4 - chunk, _ => 0);
        assert word == NextWord(bytes, size);
        var ok := WriteWord(at, word, up(k));
        if !ok {
          WritingStops(m0, log0, addr, bytes, up, m, l, k, at, size);
          return -1;
        }
        WritingGoesOn(m0, log0, addr, bytes, up, m, l, k, at, size, at + chunk);
        from, at, size := from + 4, at + chunk, size - chunk;
        k := k + 1;
      }
      WritingEnds(m0, log0, addr, bytes, up, memory, log, k, at);
      status := 0;
    }

    /** read_mmio: eight bytes at a time, then four, then what is wanted of the last four. */
    method ReadMmio(host: array<Byte>, addr: nat, up: nat -> bool) returns (status: int)
      modifies `log, host
      ensures var r := Read(memory, addr, old(host[..]), up);
              host[..] == r.bytes && status == r.status && log == old(log) + r.attempted
    {
      hide Reading, Read, Succeeds, Put;
      ghost var b0, log0 := host[..], log;
      var at: nat, size: nat, to: nat, k: nat := addr, host.Length, 0, 0;
      ReadingStarts(memory, log0, addr, b0, up);
      while size >= 8
        invariant size <= |b0| && to == |b0| - size
        invariant Reading(memory, log0, addr, b0, up, host[..], log, k, at, size)
      {
        ghost var b, l := host[..], log;
        var ok, word := ReadWord(at, 8, up(k));
        if !ok {
          ReadingStops(memory, log0, addr, b0, up, b, l, k, at, size);
          return -1;
        }
        SucceededInRange(at, 8, |memory|, up(k));
        Fill(host, to, word);
        ReadingGoesOn(memory, log0, addr, b0, up, b, l, k, at, size, word, at + 8);
        to, at, size := to + 8, at + 8, size - 8;
        k := k + 1;
      }
      while size >= 4
        invariant size < 8 && size <= |b0| && to == |b0| - size
        invariant Reading(memory, log0, addr, b0, up, host[..], log, k, at, size)
      {
        ghost var b, l := host[..], log;
        var ok, word := ReadWord(at, 4, up(k));
        if !ok {
          ReadingStops(memory, log0, addr, b0, up, b, l, k, at, size);
          return -1;
        }
        SucceededInRange(at, 4, |memory|, up(k));
        Fill(host, to, word);
        ReadingGoesOn(memory, log0, addr, b0, up, b, l, k, at, size, word, at + 4);
        to, at, size := to + 4, at + 4, size - 4;
        k := k + 1;
      }
      if size > 0 {
        ghost var b, l := host[..], log;
        var ok, word := ReadWord(at, 4, up(k));
        if !ok {
          ReadingStops(memory, log0, addr, b0, up, b, l, k, at, size);
          return -1;
        }
        SucceededInRange(at, 4, |memory|, up(k));
        PartOfWord(memory, at, size);
        Fill(host, to, word[..size]);
        ReadingGoesOn(memory, log0, addr, b0, up, b, l, k, at, size, word[..size], at);
        k := k + 1;
      }
      ReadingEnds(memory, log0, addr, b0, up, host[..], log, k, at);
      status := 0;
    }

    // Part of a word into the host's buffer.
    method Fill(host: array<Byte>, to: nat, bytes: seq<Byte>)
      requires to + |bytes| <= host.Length
      modifies host
      ensures host[..] == Put(old(host[..]), to, bytes)
    {
      forall i | 0 <= i < |bytes| {
        host[to + i] := bytes[i];
      }
    }
  }
}
