/** One DMA transfer of the host driver: pinning or bouncing the host memory, splitting the transfer
    into descriptors, and what is left behind when a descriptor fails. */
module DmaTransfer {
  import opened Bytes

  datatype Mode = F2H | H2F

  datatype WorkItem = WorkItem(hostAddr: nat, devAddr: nat, size: nat)

  datatype Descriptor = Descriptor(src: nat, dst: nat, len: nat)

  // A range of host memory the device may reach.
  datatype Range = Range(addr: nat, size: nat)

  // What became of a descriptor: done, or failed with anything at all in its destination.
  datatype Outcome = Done | Failed(debris: seq<Byte>)

  // Splitting

  // The descriptors of a transfer; maxLen == 0 stands for no limit.
  function Plan(src: nat, dst: nat, len: nat, maxLen: nat): seq<Descriptor>
    decreases len
  {
    if maxLen > 0 && len > maxLen
    then [Descriptor(src, dst, maxLen)] + Plan(src + maxLen, dst + maxLen, len - maxLen, maxLen)
    else if len > 0 then [Descriptor(src, dst, len)]
    else []
  }

  lemma Shifted(i: int, d: int)
    ensures (i - 1) * d + d == i * d
  {
  }

  /** The descriptors tile source and destination exactly: the i-th starts i limits in, on both sides;
      each but the last is as long as the limit, the last is what is left, and none is empty. */
  lemma {:induction false} PlanTiles(src: nat, dst: nat, len: nat, maxLen: nat)
    ensures var ds := Plan(src, dst, len, maxLen);
            && (ds == [] <==> len == 0)
            && (forall i {:trigger ds[i]} | 0 <= i < |ds| ::
                  && ds[i].src == src + i * maxLen && ds[i].dst == dst + i * maxLen
                  && ds[i].len == (if i < |ds| - 1 then maxLen else len - i * maxLen)
                  && 0 < ds[i].len && (maxLen > 0 ==> ds[i].len <= maxLen)
                  && i * maxLen + ds[i].len <= len)
            && (maxLen == 0 ==> |ds| <= 1)
    decreases len
  {
    if maxLen > 0 && len > maxLen {
      var rest := Plan(src + maxLen, dst + maxLen, len - maxLen, maxLen);
      var ds := Plan(src, dst, len, maxLen);
      PlanTiles(src + maxLen, dst + maxLen, len - maxLen, maxLen);
      forall i | 0 < i < |ds| ensures ds[i] == rest[i - 1] && (i - 1) * maxLen + maxLen == i * maxLen {
        Shifted(i, maxLen);
      }
    }
  }

  // Which descriptors of a transfer succeed is decided outside, by number.
  predicate AllSucceed(succeeds: nat -> bool, n: nat) {
    forall i: nat | i < n :: succeeds(i)
  }

  // How many of n planned descriptors are sent: up to and including the first that fails.
  function Sent(succeeds: nat -> bool, n: nat): (k: nat)
    ensures k <= n
    ensures AllSucceed(succeeds, n) ==> k == n
    ensures !AllSucceed(succeeds, n) ==> 0 < k && !succeeds(k - 1) && AllSucceed(succeeds, k - 1)
  {
    if n == 0 then 0 else if AllSucceed(succeeds, n - 1) then n else Sent(succeeds, n - 1)
  }

  // The first failure decides how many descriptors are sent.
  lemma SentIs(succeeds: nat -> bool, n: nat, k: nat)
    requires k < n && AllSucceed(succeeds, k) && !succeeds(k)
    ensures Sent(succeeds, n) == k + 1 && !AllSucceed(succeeds, n)
    ensures k < n - 1 <==> !AllSucceed(succeeds, n - 1)
  {
  }

  lemma SentAll(succeeds: nat -> bool, n: nat)
    requires AllSucceed(succeeds, n)
    ensures Sent(succeeds, n) == n
    ensures n > 0 ==> AllSucceed(succeeds, n - 1)
  {
  }

  lemma NextSucceeds(succeeds: nat -> bool, n: nat)
    requires AllSucceed(succeeds, n)
    ensures succeeds(n) ==> AllSucceed(succeeds, n + 1)
  {
  }

  lemma Nothing(to: Memory, dst: nat, from: Memory, src: nat, succeeds: nat -> bool)
    requires dst <= |to| && src <= |from|
    ensures Moved(to, dst, from, src, 0) == to
    ensures AllSucceed(succeeds, 0)
  {
  }

  // What is left of a plan after its first n descriptors.
  lemma PlanStep(plan: seq<Descriptor>, n: nat, s: nat, d: nat, len: nat, maxLen: nat)
    requires n <= |plan| && Plan(s, d, len, maxLen) == plan[n..]
    ensures maxLen > 0 && len > maxLen ==>
              && n < |plan| - 1 && plan[n] == Descriptor(s, d, maxLen)
              && plan[..n + 1] == plan[..n] + [Descriptor(s, d, maxLen)]
              && Plan(s + maxLen, d + maxLen, len - maxLen, maxLen) == plan[n + 1..]
    ensures !(maxLen > 0 && len > maxLen) && len > 0 ==>
              n == |plan| - 1 && plan[n] == Descriptor(s, d, len) && plan == plan[..n] + [Descriptor(s, d, len)]
    ensures len == 0 ==> n == |plan| && plan[..n] == plan
  {
    var rest := Plan(s, d, len, maxLen);
    if maxLen > 0 && len > maxLen {
      var tail := Plan(s + maxLen, d + maxLen, len - maxLen, maxLen);
      assert rest == [Descriptor(s, d, maxLen)] + tail;
      assert tail != [];
      assert plan[n] == rest[0];
      assert plan[n + 1..] == rest[1..] == tail;
    } else if len > 0 {
      assert plan[n] == rest[0];
    }
  }

  // A pinned range holds every byte of host memory that a descriptor names.
  predicate Reaches(mode: Mode, pins: multiset<Range>, d: Descriptor) {
    var a := if mode.H2F? then d.src else d.dst;
    exists r :: r in pins && r.addr <= a && a + d.len <= r.addr + r.size
  }

  // Two memories agree outside a range.
  predicate SameOutside(m: Memory, m': Memory, a: nat, n: nat) {
    |m'| == |m| && a + n <= |m| && m'[..a] == m[..a] && m'[a + n..] == m[a + n..]
  }

  lemma MovedIsPut(dst: Memory, d: nat, src: Memory, s: nat, n: nat)
    requires d + n <= |dst| && s + n <= |src|
    ensures Moved(dst, d, src, s, n) == Put(dst, d, src[s..s + n])
    ensures SameOutside(dst, Moved(dst, d, src, s, n), d, n)
  {
  }

  // After a failure the damage is inside the destination.
  lemma DebrisInside(to: Memory, dst: nat, from: Memory, src: nat, k: nat, debris: seq<Byte>, size: nat)
    requires k + |debris| <= size && src + size <= |from| && dst + size <= |to|
    ensures var m := Put(Moved(to, dst, from, src, k), dst + k, debris);
            SameOutside(to, m, dst, size)
  {
  }

  // What lands at the destination: the payload as far as it was moved, and what a failed descriptor leaves after it.
  function Arrived(payload: seq<Byte>, moved: nat, lost: nat, junk: nat -> Byte): (bytes: seq<Byte>)
    requires moved + lost <= |payload|
    ensures |bytes| == moved + lost
  {
    payload[..moved] + seq(lost, junk)
  }

  // A plan was carried out as far as it goes: moved bytes arrived, and a descriptor of lost bytes failed.
  ghost predicate CarriedOut(plan: seq<Descriptor>, succeeds: nat -> bool, src: nat, size: nat, moved: nat, lost: nat) {
    && moved + lost <= size
    && if AllSucceed(succeeds, |plan|) then moved == size && lost == 0
       else
         && plan[Sent(succeeds, |plan|) - 1].src == src + moved && plan[Sent(succeeds, |plan|) - 1].len == lost
         && (moved + lost < size <==> !AllSucceed(succeeds, |plan| - 1))
  }

  lemma CarriedOutMeans(plan: seq<Descriptor>, succeeds: nat -> bool, src: nat, size: nat, moved: nat, lost: nat)
    requires CarriedOut(plan, succeeds, src, size, moved, lost)
    ensures AllSucceed(succeeds, |plan|) ==> moved == size && lost == 0
    ensures !AllSucceed(succeeds, |plan|) && AllSucceed(succeeds, |plan| - 1) ==> moved + lost == size
  {
  }

  lemma CarriedOutAll(plan: seq<Descriptor>, succeeds: nat -> bool, src: nat, size: nat)
    requires AllSucceed(succeeds, |plan|)
    ensures CarriedOut(plan, succeeds, src, size, size, 0)
  {
  }

  lemma CarriedOutTo(plan: seq<Descriptor>, succeeds: nat -> bool, src: nat, size: nat, n: nat, moved: nat)
    requires n < |plan| && AllSucceed(succeeds, n) && !succeeds(n)
    requires plan[n].src == src + moved && moved + plan[n].len <= size
    requires moved + plan[n].len < size <==> n < |plan| - 1
    ensures CarriedOut(plan, succeeds, src, size, moved, plan[n].len)
  {
    SentIs(succeeds, |plan|, n);
  }

  lemma ArrivedAll(payload: seq<Byte>, junk: nat -> Byte)
    ensures Arrived(payload, |payload|, 0, junk) == payload
  {
  }

  lemma ArrivedIs(to: Memory, dst: nat, from: Memory, src: nat, size: nat, moved: nat, lost: nat, junk: nat -> Byte)
    requires moved + lost <= size && src + size <= |from| && dst + size <= |to|
    ensures Put(Moved(to, dst, from, src, moved), dst + moved, seq(lost, junk))
         == Put(to, dst, Arrived(from[src..src + size], moved, lost, junk))
  {
    assert from[src..src + size][..moved] == from[src..src + moved];
  }

  // Descriptor n has failed after moved bytes.
  lemma FailedAt(to: Memory, dst: nat, from: Memory, src: nat, size: nat, plan: seq<Descriptor>, succeeds: nat -> bool,
                 n: nat, moved: nat, lost: nat, junk: nat -> Byte)
    requires moved + lost <= size && src + size <= |from| && dst + size <= |to|
    requires n < |plan| && AllSucceed(succeeds, n) && !succeeds(n)
    requires plan[n].src == src + moved && plan[n].len == lost
    requires moved + lost < size <==> n < |plan| - 1
    ensures var to' := Put(Moved(to, dst, from, src, moved), dst + moved, seq(lost, junk));
            && to' == Put(to, dst, Arrived(from[src..src + size], moved, lost, junk))
            && SameOutside(to, to', dst, size)
    ensures CarriedOut(plan, succeeds, src, size, moved, lost)
    ensures Sent(succeeds, |plan|) == n + 1 && !AllSucceed(succeeds, |plan|)
    ensures n < |plan| - 1 <==> !AllSucceed(succeeds, |plan| - 1)
  {
    hide Moved, Put, SameOutside, AllSucceed, Sent, Arrived;
    DebrisInside(to, dst, from, src, moved, seq(lost, junk), size);
    ArrivedIs(to, dst, from, src, size, moved, lost, junk);
    SentIs(succeeds, |plan|, n);
    CarriedOutTo(plan, succeeds, src, size, n, moved);
  }

  // All descriptors have succeeded.
  lemma DoneAll(to: Memory, dst: nat, from: Memory, src: nat, size: nat, plan: seq<Descriptor>, succeeds: nat -> bool,
                junk: nat -> Byte)
    requires src + size <= |from| && dst + size <= |to| && AllSucceed(succeeds, |plan|)
    ensures Moved(to, dst, from, src, size) == Put(to, dst, from[src..src + size])
    ensures SameOutside(to, Moved(to, dst, from, src, size), dst, size)
    ensures Arrived(from[src..src + size], size, 0, junk) == from[src..src + size]
    ensures CarriedOut(plan, succeeds, src, size, size, 0)
  {
    hide Moved, Put, SameOutside, Arrived, CarriedOut;
    MovedIsPut(to, dst, from, src, size);
    CarriedOutAll(plan, succeeds, src, size);
    ArrivedAll(from[src..src + size], junk);
  }

  // What a transfer is for

  // What a channel is made with, and the memories on both sides of it.
  datatype Setup = Setup(mode: Mode, threshold: nat, buffer: Range)

  datatype Memories = Memories(host: Memory, dev: Memory)

  // The memory of the caller, which is not the driver's own buffer, and the memory of the device.
  predicate Fits(setup: Setup, m: Memories, item: WorkItem) {
    && item.hostAddr + item.size <= |m.host|
    && item.devAddr + item.size <= |m.dev|
    && (item.hostAddr + item.size <= setup.buffer.addr || setup.buffer.addr + setup.buffer.size <= item.hostAddr)
    && (item.size <= setup.threshold ==> setup.buffer.addr + item.size <= |m.host|)
  }

  // The memories after a transfer that succeeded: one copy, and one more if the transfer went through the buffer.
  function Copied(setup: Setup, m: Memories, item: WorkItem): Memories {
    if !Fits(setup, m, item) then m
    else
      var payload := if setup.mode.H2F? then m.host[item.hostAddr..item.hostAddr + item.size]
                     else m.dev[item.devAddr..item.devAddr + item.size];
      var host := if item.size > setup.threshold then m.host else Put(m.host, setup.buffer.addr, payload);
      if setup.mode.H2F? then Memories(host, Put(m.dev, item.devAddr, payload))
      else Memories(Put(host, item.hostAddr, payload), m.dev)
  }

  // The engine

  class Engine {
    const mode: Mode
    const maxLen: nat
    const threshold: nat
    const buffer: Range        // dma_buffer, pinned when the engine is made

    var host: Memory
    var dev: Memory
    var pinned: multiset<Range>
    var issued: seq<Descriptor>

    constructor (mode: Mode, maxLen: nat, threshold: nat, buffer: Range, host: Memory, dev: Memory)
      requires buffer.addr + buffer.size <= |host| && threshold <= buffer.size
      ensures Valid()
      ensures this.mode == mode && this.maxLen == maxLen && this.threshold == threshold && this.buffer == buffer
      ensures this.host == host && this.dev == dev && issued == [] && pinned == multiset{buffer}
    {
      this.mode, this.maxLen, this.threshold, this.buffer := mode, maxLen, threshold, buffer;
      this.host, this.dev := host, dev;
      pinned, issued := multiset{buffer}, [];
    }

    predicate Valid()
      reads this
    {
      buffer.addr + buffer.size <= |host| && threshold <= buffer.size && buffer in pinned
    }

    // The memory of the caller, which is not the driver's own buffer, and the memory of the device.
    predicate Usable(item: WorkItem)
      reads `host, `dev
    {
      && item.hostAddr + item.size <= |host|
      && item.devAddr + item.size <= |dev|
      && (item.hostAddr + item.size <= buffer.addr || buffer.addr + buffer.size <= item.hostAddr)
    }

    // Every byte of host memory that a descriptor names must be reachable by the device.
    predicate HostReachable(d: Descriptor)
      reads this
    {
      Reaches(mode, pinned, d)
    }

    lemma RegionReaches(region: Range, d: Descriptor)
      requires region in pinned
      requires region.addr <= (if mode.H2F? then d.src else d.dst)
      requires (if mode.H2F? then d.src else d.dst) + d.len <= region.addr + region.size
      ensures HostReachable(d)
    {
    }

    // The hardware takes one descriptor; the outcome is decided outside.
    method SendDescriptor(d: Descriptor, outcome: Outcome) returns (ok: bool)
      requires Valid()
      requires HostReachable(d)
      requires d.src + d.len <= |From()| && d.dst + d.len <= |To()|
      requires outcome.Failed? ==> |outcome.debris| == d.len
      modifies `host, `dev, `issued
      ensures Valid()
      ensures ok <==> outcome.Done?
      ensures issued == old(issued) + [d]
      ensures From() == old(From())
      ensures To() == if ok then Moved(old(To()), d.dst, old(From()), d.src, d.len)
                      else Put(old(To()), d.dst, outcome.debris)
    {
      hide HostReachable, Moved, Put;
      MovedIsPut(To(), d.dst, From(), d.src, d.len);
      issued := issued + [d];
      ok := outcome.Done?;
      var bytes := match outcome
        case Done => if mode.H2F? then host[d.src..d.src + d.len] else dev[d.src..d.src + d.len]
        case Failed(debris) => debris;
      if mode.H2F? {
        dev := Put(dev, d.dst, bytes);
      } else {
        host := Put(host, d.dst, bytes);
      }
    }

    // Where the descriptors of an item start: in the caller's memory if it is pinned, in the bounce buffer if not.
    function Start(item: WorkItem): (nat, nat) {
      var a := if item.size > threshold then item.hostAddr else buffer.addr;
      if mode.H2F? then (a, item.devAddr) else (item.devAddr, a)
    }

    function PlanOf(item: WorkItem): seq<Descriptor> {
      Plan(Start(item).0, Start(item).1, item.size, maxLen)
    }

    // What the engine reads from, and what it writes to.
    function From(): Memory
      reads `host, `dev
    {
      if mode.H2F? then host else dev
    }

    function To(): Memory
      reads `host, `dev
    {
      if mode.H2F? then dev else host
    }

    // The splitting loop and the last descriptor. early: a descriptor before the last one failed.
    method SendAll(src: nat, dst: nat, size: nat, region: Range, succeeds: nat -> bool, junk: nat -> Byte)
      returns (ok: bool, early: bool, ghost moved: nat, ghost lost: nat)
      requires Valid()
      requires src + size <= |From()| && dst + size <= |To()|
      requires region in pinned && region.addr <= (if mode.H2F? then src else dst)
      requires (if mode.H2F? then src else dst) + size <= region.addr + region.size
      modifies `host, `dev, `issued
      ensures Valid()
      ensures From() == old(From())
      ensures var plan := Plan(src, dst, size, maxLen);
              && issued == old(issued) + plan[..Sent(succeeds, |plan|)]
              && (ok <==> AllSucceed(succeeds, |plan|))
              && (early <==> |plan| > 0 && !AllSucceed(succeeds, |plan| - 1))
      ensures SameOutside(old(To()), To(), dst, size)
      ensures CarriedOut(Plan(src, dst, size, maxLen), succeeds, src, size, moved, lost) && moved + lost <= size
      ensures To() == Put(old(To()), dst, Arrived(old(From())[src..src + size], moved, lost, junk))
      ensures ok ==> To() == Put(old(To()), dst, old(From())[src..src + size])
    {
      hide Moved, Put, Plan, AllSucceed, Sent, HostReachable, SameOutside, From, To, Valid, CarriedOut, Arrived;
      ghost var plan := Plan(src, dst, size, maxLen);
      ghost var was := To();
      var n: nat := 0;  // numbers the descriptors, to look up what becomes of them
      var s: nat, d: nat, len: nat := src, dst, size;
      ok, early, moved, lost := true, false, size, 0;
      Nothing(was, dst, From(), src, succeeds);
      while maxLen > 0 && len > maxLen
        invariant Valid()
        invariant n <= |plan| && Plan(s, d, len, maxLen) == plan[n..]
        invariant issued == old(issued) + plan[..n]
        invariant s - src == d - dst == size - len && len <= size
        invariant From() == old(From())
        invariant |To()| == |was| && To() == Moved(was, dst, From(), src, s - src)
        invariant AllSucceed(succeeds, n)
        invariant ok && !early
      {
        PlanStep(plan, n, s, d, len, maxLen);
        NextSucceeds(succeeds, n);
        RegionReaches(region, Descriptor(s, d, maxLen));
        ok := SendDescriptor(Descriptor(s, d, maxLen), if succeeds(n) then Done else Failed(seq(maxLen, junk)));
        if !ok {
          FailedAt(was, dst, From(), src, size, plan, succeeds, n, s - src, maxLen, junk);
          early, moved, lost := true, s - src, maxLen;
          return;
        }
        MovedTwice(was, dst, From(), src, s - src, maxLen);
        s, d, len := s + maxLen, d + maxLen, len - maxLen;
        n := n + 1;
      }
      PlanStep(plan, n, s, d, len, maxLen);
      SentAll(succeeds, n);
      if len > 0 {
        NextSucceeds(succeeds, n);
        RegionReaches(region, Descriptor(s, d, len));
        ok := SendDescriptor(Descriptor(s, d, len), if succeeds(n) then Done else Failed(seq(len, junk)));
        if ok {
          MovedTwice(was, dst, From(), src, s - src, len);
          SentAll(succeeds, n + 1);
        } else {
          FailedAt(was, dst, From(), src, size, plan, succeeds, n, s - src, len, junk);
          moved, lost := s - src, len;
          return;
        }
      }
      DoneAll(was, dst, From(), src, size, plan, succeeds, junk);
    }

    // The bytes the transfer is about.
    function Payload(item: WorkItem): seq<Byte>
      reads `host, `dev
      requires Usable(item)
    {
      if mode.H2F? then host[item.hostAddr..item.hostAddr + item.size] else dev[item.devAddr..item.devAddr + item.size]
    }

    // A descriptor before the last one fails: the transfer is left in the middle.
    predicate FailsEarly(item: WorkItem, succeeds: nat -> bool) {
      |PlanOf(item)| > 0 && !AllSucceed(succeeds, |PlanOf(item)| - 1)
    }

    // Host memory after a failed transfer to it: equal outside the destination, and outside the bounce buffer if
    // that was used.
    ghost predicate OnlyThere(item: WorkItem, was: Memory)
      reads `host
    {
      && |host| == |was|
      && forall i | 0 <= i < |host| && !(item.hostAddr <= i < item.hostAddr + item.size)
                    && (item.size > threshold || !(buffer.addr <= i < buffer.addr + buffer.size)) :: host[i] == was[i]
    }

    // With the caller's memory pinned.
    method Direct(item: WorkItem, succeeds: nat -> bool, junk: nat -> Byte)
      returns (ok: bool, early: bool, ghost moved: nat, ghost lost: nat)
      requires Valid() && Usable(item) && item.size > threshold
      requires Range(item.hostAddr, item.size) in pinned
      modifies `host, `dev, `issued
      ensures Valid()
      ensures var plan := PlanOf(item);
              && issued == old(issued) + plan[..Sent(succeeds, |plan|)]
              && (ok <==> AllSucceed(succeeds, |plan|)) && (early <==> FailsEarly(item, succeeds))
      ensures mode.H2F? ==> host == old(host) && (ok ==> dev == Put(old(dev), item.devAddr, old(Payload(item))))
      ensures mode.H2F? ==> SameOutside(old(dev), dev, item.devAddr, item.size)
      ensures mode.F2H? ==> dev == old(dev) && (ok ==> host == Put(old(host), item.hostAddr, old(Payload(item))))
      ensures mode.F2H? ==> OnlyThere(item, old(host))
      ensures moved + lost <= item.size && CarriedOut(PlanOf(item), succeeds, Start(item).0, item.size, moved, lost)
      ensures mode.H2F? ==> dev == Put(old(dev), item.devAddr, Arrived(old(Payload(item)), moved, lost, junk))
      ensures mode.F2H? ==> host == Put(old(host), item.hostAddr, Arrived(old(Payload(item)), moved, lost, junk))
    {
      hide Plan, AllSucceed, Sent, SameOutside, Put, OnlyThere, CarriedOut, Arrived;
      ghost var was := host;
      var (src, dst) := Start(item);
      ok, early, moved, lost := SendAll(src, dst, item.size, Range(item.hostAddr, item.size), succeeds, junk);
      if mode.F2H? {
        OutsideIsThere(item, was);
      }
    }

    lemma OutsideIsThere(item: WorkItem, was: Memory)
      requires SameOutside(was, host, item.hostAddr, item.size)
      ensures OnlyThere(item, was)
    {
      forall i | 0 <= i < |was| && !(item.hostAddr <= i < item.hostAddr + item.size) ensures host[i] == was[i] {
        var k := item.hostAddr + item.size;
        if i >= k {
          assert host[k..][i - k] == was[k..][i - k];
        } else {
          assert host[..item.hostAddr][i] == was[..item.hostAddr][i];
        }
      }
    }

    // Through the driver's own buffer, to the device.
    method BouncedOut(item: WorkItem, succeeds: nat -> bool, junk: nat -> Byte)
      returns (ok: bool, early: bool, ghost moved: nat, ghost lost: nat)
      requires Valid() && Usable(item) && item.size <= threshold && mode.H2F?
      modifies `host, `dev, `issued
      ensures Valid()
      ensures issued == old(issued) + PlanOf(item)[..Sent(succeeds, |PlanOf(item)|)]
      ensures (ok <==> AllSucceed(succeeds, |PlanOf(item)|)) && (early <==> FailsEarly(item, succeeds))
      ensures host == Put(old(host), buffer.addr, old(Payload(item)))
      ensures ok ==> dev == Put(old(dev), item.devAddr, old(Payload(item)))
      ensures SameOutside(old(dev), dev, item.devAddr, item.size)
      ensures moved + lost <= item.size && CarriedOut(PlanOf(item), succeeds, Start(item).0, item.size, moved, lost)
      ensures dev == Put(old(dev), item.devAddr, Arrived(old(Payload(item)), moved, lost, junk))
    {
      hide Plan, AllSucceed, Sent, CarriedOut, Arrived;
      ghost var payload := Payload(item);
      host := Put(host, buffer.addr, host[item.hostAddr..item.hostAddr + item.size]);
      assert host[buffer.addr..buffer.addr + item.size] == payload;
      ok, early, moved, lost := SendAll(buffer.addr, item.devAddr, item.size, buffer, succeeds, junk);
    }

    // Through the driver's own buffer, from the device. The copy to the caller is made even if the last descriptor
    // failed.
    method BouncedIn(item: WorkItem, succeeds: nat -> bool, junk: nat -> Byte)
      returns (ok: bool, early: bool, ghost moved: nat, ghost lost: nat)
      requires Valid() && Usable(item) && item.size <= threshold && mode.F2H?
      modifies `host, `dev, `issued
      ensures Valid()
      ensures issued == old(issued) + PlanOf(item)[..Sent(succeeds, |PlanOf(item)|)]
      ensures (ok <==> AllSucceed(succeeds, |PlanOf(item)|)) && (early <==> FailsEarly(item, succeeds))
      ensures dev == old(dev)
      ensures ok ==> host == Put(Put(old(host), buffer.addr, old(Payload(item))), item.hostAddr, old(Payload(item)))
      ensures OnlyThere(item, old(host))
      ensures moved + lost <= item.size && CarriedOut(PlanOf(item), succeeds, Start(item).0, item.size, moved, lost)
      ensures var arrived := Arrived(old(Payload(item)), moved, lost, junk);
              host == if early then Put(old(host), buffer.addr, arrived)
                      else Put(Put(old(host), buffer.addr, arrived), item.hostAddr, arrived)
    {
      hide Plan, AllSucceed, Sent, Put, Moved, CarriedOut, Arrived;
      ghost var was, payload := host, Payload(item);
      ok, early, moved, lost := SendAll(item.devAddr, buffer.addr, item.size, buffer, succeeds, junk);
      CarriedOutMeans(PlanOf(item), succeeds, item.devAddr, item.size, moved, lost);
      if !early {
        host := CopiedBack(was, item, Arrived(payload, moved, lost, junk));
        ArrivedAll(payload, junk);
      } else {
        EarlyFails(item, succeeds);
        BufferOnly(item, was);
      }
    }

    // A transfer that ended early has changed the buffer at most.
    lemma BufferOnly(item: WorkItem, was: Memory)
      requires SameOutside(was, host, buffer.addr, item.size) && item.size <= threshold <= buffer.size
      ensures OnlyThere(item, was)
    {
      var k := buffer.addr + item.size;
      forall i | 0 <= i < |was| && !(buffer.addr <= i < buffer.addr + buffer.size) ensures host[i] == was[i] {
        if i < buffer.addr {
          assert host[..buffer.addr][i] == was[..buffer.addr][i];
        } else {
          assert host[k..][i - k] == was[k..][i - k];
        }
      }
    }

    // The last memcpy of a bounced transfer from the device.
    method CopiedBack(ghost was: Memory, item: WorkItem, ghost arrived: seq<Byte>) returns (m: Memory)
      requires Valid() && Usable(item) && item.size <= threshold
      requires |was| == |host| && |arrived| == item.size
      requires host == Put(was, buffer.addr, arrived)
      ensures m == Put(Put(was, buffer.addr, arrived), item.hostAddr, arrived)
      ensures forall i | 0 <= i < |m| && !(item.hostAddr <= i < item.hostAddr + item.size)
                         && !(buffer.addr <= i < buffer.addr + buffer.size) :: m[i] == was[i]
    {
      assert host[buffer.addr..buffer.addr + item.size] == arrived;
      m := Put(host, item.hostAddr, host[buffer.addr..buffer.addr + item.size]);
    }

    // The same with the pin around it, which is left behind when a descriptor before the last one fails.
    method Pinned(item: WorkItem, succeeds: nat -> bool, junk: nat -> Byte)
      returns (ok: bool, early: bool, ghost moved: nat, ghost lost: nat)
      requires Valid() && Usable(item) && item.size > threshold
      modifies `host, `dev, `issued, `pinned
      ensures Valid()
      ensures pinned == old(pinned) + (if FailsEarly(item, succeeds) then multiset{Range(item.hostAddr, item.size)}
                                       else multiset{})
      ensures var plan := PlanOf(item);
              && issued == old(issued) + plan[..Sent(succeeds, |plan|)]
              && (ok <==> AllSucceed(succeeds, |plan|)) && (early <==> FailsEarly(item, succeeds))
      ensures mode.H2F? ==> host == old(host) && (ok ==> dev == Put(old(dev), item.devAddr, old(Payload(item))))
      ensures mode.H2F? ==> SameOutside(old(dev), dev, item.devAddr, item.size)
      ensures mode.F2H? ==> dev == old(dev) && (ok ==> host == Put(old(host), item.hostAddr, old(Payload(item))))
      ensures mode.F2H? ==> OnlyThere(item, old(host))
      ensures moved + lost <= item.size && CarriedOut(PlanOf(item), succeeds, Start(item).0, item.size, moved, lost)
      ensures mode.H2F? ==> dev == Put(old(dev), item.devAddr, Arrived(old(Payload(item)), moved, lost, junk))
      ensures mode.F2H? ==> host == Put(old(host), item.hostAddr, Arrived(old(Payload(item)), moved, lost, junk))
    {
      hide Plan, AllSucceed, Sent, PlanOf, Put, SameOutside, Payload, OnlyThere, FailsEarly, CarriedOut, Arrived;
      var region := Range(item.hostAddr, item.size);
      pinned := pinned + multiset{region};
      ok, early, moved, lost := Direct(item, succeeds, junk);
      if early {
        EarlyFails(item, succeeds);
        return;
      }
      pinned := pinned - multiset{region};
    }

    /** One transfer. If all descriptors succeed it is one copy of the payload; whatever fails, nothing but the
        destination and the bounce buffer is touched. The pin of the caller's memory is released, unless a
        descriptor before the last one failed: exactly then it is left behind. */
    method DoDma(item: WorkItem, pinOk: bool, succeeds: nat -> bool, junk: nat -> Byte)
      returns (res: int, ghost moved: nat, ghost lost: nat)
      requires Valid() && Usable(item)
      modifies `host, `dev, `issued, `pinned
      ensures Valid()
      ensures var pins, plan := item.size > threshold, PlanOf(item);
              && (pins && !pinOk ==> res == -1 && issued == old(issued) && host == old(host) && dev == old(dev))
              && (!pins || pinOk ==> && (res == 0 <==> AllSucceed(succeeds, |plan|))
                                     && issued == old(issued) + plan[..Sent(succeeds, |plan|)])
              && pinned == old(pinned) + (if pins && pinOk && FailsEarly(item, succeeds)
                                          then multiset{Range(item.hostAddr, item.size)} else multiset{})
      ensures res == 0 && mode.H2F? ==>
                && dev == Put(old(dev), item.devAddr, old(Payload(item)))
                && host == if item.size > threshold then old(host) else Put(old(host), buffer.addr, old(Payload(item)))
      ensures res == 0 && mode.F2H? ==>
                && dev == old(dev)
                && host == Put(if item.size > threshold then old(host)
                               else Put(old(host), buffer.addr, old(Payload(item))),
                               item.hostAddr, old(Payload(item)))
      ensures res == 0 ==>
                Memories(host, dev) == Copied(Setup(mode, threshold, buffer), Memories(old(host), old(dev)), item)
      ensures mode.H2F? ==> SameOutside(old(dev), dev, item.devAddr, item.size)
      ensures mode.F2H? ==> dev == old(dev) && OnlyThere(item, old(host))
      ensures moved + lost <= item.size
      ensures item.size > threshold && !pinOk ==> moved == lost == 0
      ensures item.size <= threshold || pinOk ==>
                CarriedOut(PlanOf(item), succeeds, Start(item).0, item.size, moved, lost)
      ensures var arrived := Arrived(old(Payload(item)), moved, lost, junk);
              var buffered := if item.size > threshold then old(host)
                              else Put(old(host), buffer.addr, if mode.H2F? then old(Payload(item)) else arrived);
              if mode.H2F? then dev == Put(old(dev), item.devAddr, arrived) && host == buffered
              else host == if item.size <= threshold && FailsEarly(item, succeeds) then buffered
                           else Put(buffered, item.hostAddr, arrived)
      ensures forall i | |old(issued)| <= i < |issued| :: Reaches(mode, old(pinned) + Needed(item), issued[i])
    {
      hide Plan, AllSucceed, Sent, PlanOf, Put, Moved, SameOutside, Needed, Reaches, Copied, Payload, OnlyThere,
          FailsEarly, CarriedOut, Arrived;
      var ok, early;
      moved, lost := 0, 0;
      PlanReaches(item, pinned);
      CopiedIs(item);
      if item.size > threshold {
        if !pinOk {
          NothingDone(item);
          NothingArrived(item, junk);
          return -1, 0, 0;
        }
        ok, early, moved, lost := Pinned(item, succeeds, junk);
      } else {
        if mode.H2F? {
          ok, early, moved, lost := BouncedOut(item, succeeds, junk);
        } else {
          ok, early, moved, lost := BouncedIn(item, succeeds, junk);
        }
      }
      res := if ok then 0 else -1;
    }

    lemma NothingArrived(item: WorkItem, junk: nat -> Byte)
      requires Usable(item)
      ensures Put(dev, item.devAddr, Arrived(Payload(item), 0, 0, junk)) == dev
      ensures Put(host, item.hostAddr, Arrived(Payload(item), 0, 0, junk)) == host
    {
      assert Arrived(Payload(item), 0, 0, junk) == [];
    }

    lemma CopiedIs(item: WorkItem)
      requires Valid() && Usable(item)
      ensures var through := if item.size > threshold then host else Put(host, buffer.addr, Payload(item));
              Copied(Setup(mode, threshold, buffer), Memories(host, dev), item) ==
              if mode.H2F? then Memories(through, Put(dev, item.devAddr, Payload(item)))
              else Memories(Put(through, item.hostAddr, Payload(item)), dev)
    {
      hide Put;
    }

    // What is pinned for the transfer.
    function Needed(item: WorkItem): multiset<Range> {
      if item.size > threshold then multiset{Range(item.hostAddr, item.size)} else multiset{}
    }

    lemma PlanReaches(item: WorkItem, pins: multiset<Range>)
      requires threshold <= buffer.size && buffer in pins
      ensures forall i | 0 <= i < |PlanOf(item)| :: Reaches(mode, pins + Needed(item), PlanOf(item)[i])
    {
      hide Plan;
      var (src, dst) := Start(item);
      var region := if item.size > threshold then Range(item.hostAddr, item.size) else buffer;
      PlanTiles(src, dst, item.size, maxLen);
      assert region in pins + Needed(item);
      hide Needed;
      forall i | 0 <= i < |PlanOf(item)| ensures Reaches(mode, pins + Needed(item), PlanOf(item)[i]) {
        var d := Plan(src, dst, item.size, maxLen)[i];
        assert d.src - src == d.dst - dst && 0 <= d.src - src && d.src - src + d.len <= item.size;
      }
    }

    lemma NothingDone(item: WorkItem)
      requires Usable(item)
      ensures SameOutside(dev, dev, item.devAddr, item.size) && OnlyThere(item, host)
    {
    }

    lemma EarlyFails(item: WorkItem, succeeds: nat -> bool)
      requires FailsEarly(item, succeeds)
      ensures !AllSucceed(succeeds, |PlanOf(item)|)
    {
    }
  }
}
