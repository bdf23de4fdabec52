/** The calls of the host driver that open and close devices, allocate and free host memory, and program a device,
    on the driver's maps. */
module PinDriver {
  import opened PinRegistry
  import Arithmetic

  const PAGE_4K: nat := 0x1000
  const PAGE_2M: nat := 0x20_0000
  const SIZE_LIMIT: nat := 0x1_0000_0000_0000_0000
  const INT_MAX: int := 0x7fff_ffff

  datatype Error = Success | InvalidHandle | OutOfMemory | UnsupportedAlignment | UnsupportedProperty

  // The first of the properties of an allocation, if there are any.
  datatype Property = NoProperty | GlobalMemory | MemoryBank | OtherProperty

  // What mmap answers.
  datatype Mapping = Mapped(addr: nat) | NoMemory | NotMapped

  datatype AspState = NotLoaded | InitFailed | Ready

  const MMD_AOCL_ERR: int := -1
  const MMD_INVALID_PARAM: int := -1

  // What becomes of programming: the device is not reached, or it is disconnected, programmed or not, and connected
  // again.
  datatype Outcome = NotReached | Reached(ok: bool)

  // One bit at most is set, and the value is 2M at most.
  predicate AlignmentOk(alignment: bv64) {
    alignment <= 0x20_0000 && alignment & (alignment - 1) == 0
  }

  /** The test accepts 0 and the powers of two up to 2M. */
  lemma AlignmentMeans(alignment: bv64)
    ensures AlignmentOk(alignment) <==>
            alignment in {0, 1, 2, 4, 8, 0x10, 0x20, 0x40, 0x80, 0x100, 0x200, 0x400, 0x800, 0x1000, 0x2000,
                          0x4000, 0x8000,
                          0x1_0000, 0x2_0000, 0x4_0000, 0x8_0000, 0x10_0000, 0x20_0000}
  {
  }

  function RoundUp(size: nat, page: nat, limit: nat): nat
    requires page > 0 && limit > 0
  {
    (if size % page > 0 then size + (page - size % page) else size) % limit
  }

  // The size that is mapped; the addition is done on 64 bits.
  function Rounded(size: nat): nat {
    RoundUp(size, if size > PAGE_4K then PAGE_2M else PAGE_4K, SIZE_LIMIT)
  }

  lemma RoundUpMeans(size: nat, page: nat, pages: nat)
    requires page > 0 && size < pages * page
    ensures var up := RoundUp(size, page, pages * page);
            && up % page == 0
            && (size <= pages * page - page ==> size <= up < size + page)
            && (size > pages * page - page ==> up == 0)
  {
    var n, rest := Arithmetic.Decompose(size, page);
    if rest > 0 {
      n := n + 1;
      Arithmetic.Distribute(n, n - 1, page);
    }
    Arithmetic.OrderKept(pages, n, page);
    Arithmetic.Distribute(pages, n, page);
    if n < pages {
      Arithmetic.MulAtLeast(pages - n, page);
      Arithmetic.DivModUnique(n * page, pages * page, 0, n * page);
      Arithmetic.DivModUnique(n * page, page, n, 0);
    } else {
      Arithmetic.DivModUnique(n * page, pages * page, 1, 0);
    }
  }

  /** It is the least multiple of the page size that has room, unless the addition wraps around; then it is 0. */
  lemma RoundedMeans(size: nat)
    requires size < SIZE_LIMIT
    ensures var page := if size > PAGE_4K then PAGE_2M else PAGE_4K;
            && Rounded(size) % page == 0
            && (size <= SIZE_LIMIT - PAGE_2M ==> size <= Rounded(size) < size + page)
            && (size > SIZE_LIMIT - PAGE_2M ==> Rounded(size) == 0)
  {
    hide RoundUp;
    if size > PAGE_4K {
      RoundUpMeans(size, PAGE_2M, 0x800_0000_0000);
    } else {
      RoundUpMeans(size, PAGE_4K, 0x10_0000_0000_0000);
    }
  }

  class Driver {
    var ids: map<nat, int>
    var devices: map<int, Device>
    var memory: map<nat, Allocation>
    var mapped: map<nat, nat>  // kept by the operating system
    var nextHandle: int

    constructor ()
      ensures State() == EMPTY && nextHandle == 1
    {
      ids, devices, memory, mapped, nextHandle := map[], map[], map[], map[], 1;
    }

    function State(): Registry
      reads this
    {
      Registry(ids, devices, memory, mapped)
    }

    // get_or_create_device: the handle of a device that is known, or of a new one, if it can be made.
    method GetOrCreate(id: nat, created: bool) returns (ok: bool, handle: int)
      requires id > 0 && (id in ids ==> ids[id] in devices)
      modifies this
      ensures ok <==> id in old(ids) || created
      ensures ok ==> id in ids && handle == ids[id]
      ensures if id in old(ids) then State() == old(State()) && nextHandle == old(nextHandle)
              else
                && nextHandle == (if old(nextHandle) == INT_MAX then 1 else old(nextHandle) + 1)
                && State() == if created then Opened(old(State()), id, old(nextHandle)) else old(State())
    {
      ok, handle := true, 0;
      if id !in ids {
        handle := nextHandle;
        nextHandle := if nextHandle == INT_MAX then 1 else nextHandle + 1;
        if !created {
          return false, handle;
        }
        ids := ids[id := handle];
        if handle !in devices {
          devices := devices[handle := Device(id, map[])];
        }
      } else {
        handle := ids[id];
      }
    }

    /** aocl_mmd_open: a device that is known keeps its handle, a new one gets the next. The device stays in the
        maps even if it turns out not to be ready. */
    method Open(id: nat, created: bool, asp: AspState) returns (rc: int)
      requires id in ids ==> ids[id] in devices
      modifies this
      ensures if id == 0 then rc == MMD_INVALID_PARAM && State() == old(State()) && nextHandle == old(nextHandle)
              else if id in old(ids) then State() == old(State()) && nextHandle == old(nextHandle)
              else
                && nextHandle == (if old(nextHandle) == INT_MAX then 1 else old(nextHandle) + 1)
                && State() == if created then Opened(old(State()), id, old(nextHandle)) else old(State())
      ensures id > 0 && (id in old(ids) || created) ==>
              && id in ids
              && rc == match asp case NotLoaded => -2 case InitFailed => -3 case Ready => ids[id]
      ensures id > 0 && id !in old(ids) && !created ==> rc == MMD_AOCL_ERR
      ensures id > 0 && id !in old(ids) && created ==>
              && Puts(old(ids), ids, id, old(nextHandle))
              && (if old(nextHandle) in old(devices) then devices == old(devices)
                  else Puts(old(devices), devices, old(nextHandle), Device(id, map[])))
              && memory == old(memory) && mapped == old(mapped)
      ensures old(Consistent(State())) ==>
              (id > 0 && id !in old(ids) && created ==> old(nextHandle) !in old(devices)) ==>
              Consistent(State())
    {
      hide Consistent, Puts, Opened;
      ghost var r, next := State(), nextHandle;
      if id == 0 {
        return MMD_INVALID_PARAM;
      }
      var ok, handle := GetOrCreate(id, created);
      if id !in r.ids && created {
        OpenedParts(r, id, next);
      }
      if !ok {
        return MMD_AOCL_ERR;
      }
      rc := match asp case NotLoaded => -2 case InitFailed => -3 case Ready => handle;
    }

    /** aocl_mmd_close. */
    method Close(handle: int) returns (rc: int)
      modifies this
      ensures rc == 0 && nextHandle == old(nextHandle)
      ensures State() == if handle in old(devices) then Closed(old(State()), handle) else old(State())
      ensures handle in old(devices) ==>
              && Drops(old(ids), ids, old(devices)[handle].id) && Drops(old(devices), devices, handle)
              && memory == old(memory) && mapped == old(mapped)
      ensures old(Consistent(State())) ==>
              (Consistent(State()) <==> handle !in old(devices) || Listed(memory, handle) == map[])
    {
      hide Consistent, Listed, Drops;
      if handle in devices {
        ClosedRemoves(State(), handle);
        if Consistent(State()) {
          CloseKeepsExactlyWhen(State(), handle);
        }
        var id := devices[handle].id;
        devices := devices - {handle};
        ids := ids - {id};
      }
      rc := 0;
    }

    // Device::pin_alloc and Device::free_prepinned_mem.
    method Pin(handle: int, addr: nat, size: nat, ok: bool) returns (done: bool)
      requires handle in devices
      modifies `devices
      ensures done == ok
      ensures devices == if ok then PinOn(old(devices), [handle], addr, size) else old(devices)
    {
      done := ok;
      if ok {
        devices := devices[handle := devices[handle].(pins := devices[handle].pins[addr := size])];
      }
    }

    method Unpin(handle: int, addr: nat)
      requires handle in devices
      modifies `devices
      ensures devices == UnpinOn(old(devices), [handle], addr)
    {
      devices := devices[handle := devices[handle].(pins := devices[handle].pins - {addr})];
    }

    /** aocl_mmd_host_alloc. `pinned` says how many devices pinned the memory. */
    method HostAlloc(handles: Option<seq<int>>, size: nat, alignment: bv64, property: Property, first: Mapping,
                     second: Mapping,
                     pinOk: nat -> bool)
      returns (addr: nat, error: Error, ghost pinned: nat)
      requires size < SIZE_LIMIT
      requires first.Mapped? ==> Free(mapped, first.addr, Rounded(size))
      requires second.Mapped? ==> Free(mapped, second.addr, Rounded(size))
      modifies this
      ensures error.Success? <==> addr != 0
      ensures nextHandle == old(nextHandle)
      ensures
        var got := if first.NoMemory? then second else first;
        if handles.None? || handles.value == [] then error.InvalidHandle? && State() == old(State())
        else if !AlignmentOk(alignment) then error.UnsupportedAlignment? && State() == old(State())
        else if property.OtherProperty? then error.UnsupportedProperty? && State() == old(State())
        else if size == 0 then error.OutOfMemory? && State() == old(State())
        else if exists i :: 0 <= i < |handles.value| && handles.value[i] !in old(devices)
        then error.InvalidHandle? && State() == old(State())
        else if !got.Mapped? then error.OutOfMemory? && State() == old(State())
        else
          && pinned <= |handles.value| && (forall i | 0 <= i < pinned :: pinOk(i))
          && ids == old(ids) && Puts(old(mapped), mapped, got.addr, Rounded(size))
          && PinsOnly(old(devices), devices, handles.value[..pinned], got.addr, Rounded(size))
          && if pinned < |handles.value|
             then
               && !pinOk(pinned) && error.OutOfMemory? && memory == old(memory)
               && State() == GivenUp(old(State()), got.addr, Rounded(size), handles.value, pinned)
             else
               && addr == got.addr && State() == Allocated(old(State()), addr, Rounded(size), handles.value)
               && Puts(old(memory), memory, addr, Allocation(Rounded(size), handles))
      ensures old(Consistent(State())) && (handles.Some? ==> Distinct(handles.value)) ==>
              (Consistent(State()) <==> error.Success? || State() == old(State()))
    {
      hide Consistent, Free, Rounded, Distinct, AlignmentOk, PinOn, Puts, PinsOnly;
      ghost var r := State();
      if handles.None? || |handles.value| == 0 {
        return 0, InvalidHandle, 0;
      }
      if !AlignmentOk(alignment) {
        return 0, UnsupportedAlignment, 0;
      }
      if property.OtherProperty? {
        return 0, UnsupportedProperty, 0;
      }
      if size == 0 {
        return 0, OutOfMemory, 0;
      }
      var hs := handles.value;
      var known: seq<int> := [];
      for i := 0 to |hs|
        invariant known == hs[..i]
        invariant forall j | 0 <= j < i :: hs[j] in devices
      {
        if hs[i] in devices {
          known := known + [hs[i]];
        } else {
          return 0, InvalidHandle, 0;
        }
      }
      assert known == hs;
      var rounded := Rounded(size);
      var got := if first.NoMemory? then second else first;
      if !got.Mapped? {
        return 0, OutOfMemory, 0;
      }
      mapped := mapped[got.addr := rounded];
      var k := PinAll(known, got.addr, rounded, pinOk);
      if k < |known| {
        GivenUpAdds(r, got.addr, rounded, hs, k);
        if Consistent(r) {
          GivingUpNeverKeeps(r, got.addr, rounded, hs, k);
        }
        return 0, OutOfMemory, k;
      }
      memory := memory[got.addr := Allocation(rounded, Some(known))];
      FreeIsPositive(r.mapped, got.addr, rounded);
      AllocatedAdds(r, got.addr, rounded, hs);
      assert hs[..k] == hs;
      if Consistent(r) && Distinct(hs) {
        AllocKeeps(r, got.addr, rounded, hs);
      }
      return got.addr, Success, k;
    }

    // The loop that pins a range for one device after the other.
    method PinAll(hs: seq<int>, addr: nat, size: nat, pinOk: nat -> bool) returns (k: nat)
      requires forall i | 0 <= i < |hs| :: hs[i] in devices
      modifies `devices
      ensures k <= |hs| && (forall i | 0 <= i < k :: pinOk(i)) && (k < |hs| ==> !pinOk(k))
      ensures devices == PinOn(old(devices), hs[..k], addr, size)
      ensures k == |hs| ==> devices == PinOn(old(devices), hs, addr, size)
    {
      hide PinOn;
      k := 0;
      PinOnFirst(devices, hs, addr, size);
      while k < |hs|
        invariant 0 <= k <= |hs|
        invariant devices.Keys == old(devices).Keys
        invariant devices == PinOn(old(devices), hs[..k], addr, size)
        invariant forall i | 0 <= i < k :: pinOk(i)
      {
        PinOnKeys(devices, [hs[k]], addr, size);
        var done := Pin(hs[k], addr, size, pinOk(k));
        if !done {
          return k;
        }
        PinOnNext(old(devices), hs, k, addr, size);
        k := k + 1;
      }
      assert hs[..k] == hs;
    }

    /** aocl_mmd_free. `released` says how many devices unpinned the memory; faulted, that the call dereferences the
        handles of an entry that has lost them. */
    method FreeMemory(mem: nat, unmapOk: bool) returns (rc: int, faulted: bool, ghost released: nat)
      modifies this
      ensures nextHandle == old(nextHandle)
      ensures faulted <==> mem != 0 && mem in old(memory) && old(memory)[mem].handles.None?
      ensures
        if mem == 0 then rc == 0 && State() == old(State())
        else if mem !in old(memory) then rc == -1 && State() == old(State())
        else if faulted then State() == old(State())
        else
          var hs := old(memory)[mem].handles.value;
          && released <= |hs| && (forall i | 0 <= i < released :: hs[i] in old(devices))
          && ids == old(ids) && UnpinsOnly(old(devices), devices, hs[..released], mem)
          && if released < |hs| || !unmapOk
             then
               && rc == -1 && (released < |hs| ==> hs[released] !in old(devices))
               && State() == HalfFreed(old(State()), mem, released) && mapped == old(mapped)
               && Puts(old(memory), memory, mem, Allocation(old(memory)[mem].size, None))
             else
               && rc == 0 && State() == Freed(old(State()), mem)
               && Drops(old(memory), memory, mem) && Drops(old(mapped), mapped, mem)
      ensures old(Consistent(State())) ==> !faulted && (Consistent(State()) <==> rc == 0 || mem !in old(memory))
    {
      hide Consistent, UnpinOn, UnpinsOnly, Puts, Drops;
      ghost var r := State();
      if Consistent(r) {
        ConsistentMeans(r);
      }
      if mem == 0 {
        return 0, false, 0;
      }
      if mem !in memory {
        return -1, false, 0;
      }
      if memory[mem].handles.None? {
        return 0, true, 0;
      }
      var hs := memory[mem].handles.value;
      memory := memory[mem := memory[mem].(handles := None)];
      var k := UnpinAll(hs, mem);
      if k < |hs| || !unmapOk {
        HalfFreedRemoves(r, mem, k);
        if Consistent(r) {
          GivingUpAFreeNeverKeeps(r, mem, k);
        }
        return -1, false, k;
      }
      mapped := mapped - {mem};
      memory := memory - {mem};
      FreedRemoves(r, mem);
      assert hs[..k] == hs;
      if Consistent(r) {
        FreeKeeps(r, mem);
      }
      return 0, false, k;
    }

    // The loop that unpins a range for one device after the other, up to one that is not open.
    method UnpinAll(hs: seq<int>, addr: nat) returns (k: nat)
      modifies `devices
      ensures k <= |hs| && (forall i | 0 <= i < k :: hs[i] in old(devices)) && (k < |hs| ==> hs[k] !in old(devices))
      ensures devices == UnpinOn(old(devices), hs[..k], addr)
      ensures k == |hs| ==> devices == UnpinOn(old(devices), hs, addr)
    {
      hide UnpinOn;
      k := 0;
      UnpinOnFirst(devices, hs, addr);
      while k < |hs|
        invariant 0 <= k <= |hs|
        invariant devices.Keys == old(devices).Keys
        invariant devices == UnpinOn(old(devices), hs[..k], addr)
        invariant forall i | 0 <= i < k :: hs[i] in devices
      {
        if hs[k] !in devices {
          return k;
        }
        UnpinOnKeys(devices, [hs[k]], addr);
        Unpin(hs[k], addr);
        UnpinOnNext(old(devices), hs, k, addr);
        k := k + 1;
      }
      assert hs[..k] == hs;
    }

    /** unpin_all_mem_for_handle, entry after entry in any order. Faults at an entry that has lost its handles. */
    method UnpinAllMem(handle: int) returns (faulted: bool)
      modifies `devices
      ensures faulted <==> handle in old(devices) && Hollow(memory)
      ensures !faulted ==> State() == if handle in old(devices) then Unpinned(old(State()), handle) else old(State())
    {
      hide SomeUnpinned, ListedOf, Lists, Listed;
      faulted := false;
      if handle !in devices {
        return;
      }
      ghost var seen: set<nat> := {};
      NoneUnpinned(devices, memory, handle);
      var todo := memory.Keys;
      while todo != {}
        invariant todo <= memory.Keys && seen == memory.Keys - todo
        invariant forall a | a in seen :: memory[a].handles.Some?
        invariant handle in devices
        invariant devices == SomeUnpinned(old(devices), memory, handle, seen)
        decreases |todo|
      {
        var a :| a in todo;
        if memory[a].handles.None? {
          return true;
        }
        NextUnpinned(old(devices), memory, handle, seen, a);
        if handle in memory[a].handles.value {
          devices := devices[handle := devices[handle].(pins := devices[handle].pins - {a})];
        }
        todo, seen := todo - {a}, seen + {a};
      }
      assert seen == memory.Keys;
      AllUnpinned(old(State()), handle);
    }

    /** repin_all_mem_for_handle: ends at the first range that cannot be pinned; `pinned` says which had been. Faults at
        an entry that has lost its handles, if it comes that far. */
    method RepinAllMem(handle: int, pinOk: nat -> bool) returns (rc: int, faulted: bool, ghost pinned: set<nat>)
      modifies `devices
      ensures faulted ==> handle in old(devices) && Hollow(memory)
      ensures !faulted && rc == 0 ==>
              && handle in old(devices) && !Hollow(memory) && (forall a | a in Listed(memory, handle) :: pinOk(a))
              && ListedOf(memory, handle, pinned) == Listed(memory, handle)
      ensures !faulted && rc != 0 ==>
              rc == MMD_AOCL_ERR && (handle !in old(devices) || exists a :: a in Listed(memory, handle) && !pinOk(a))
      ensures pinned <= memory.Keys && forall a | a in ListedOf(memory, handle, pinned) :: pinOk(a)
      ensures devices == if handle in old(devices) then SomePinned(old(devices), memory, handle, pinned)
                         else old(devices)
    {
      rc, faulted, pinned := 0, false, {};
      if handle !in devices {
        return MMD_AOCL_ERR, false, {};
      }
      hide SomePinned, ListedOf, Listed, Lists;
      NonePinned(devices, memory, handle);
      var todo := memory.Keys;
      while todo != {}
        invariant todo <= memory.Keys && pinned == memory.Keys - todo
        invariant forall a | a in pinned :: memory[a].handles.Some?
        invariant handle in devices
        invariant devices == SomePinned(old(devices), memory, handle, pinned)
        invariant forall a | a in ListedOf(memory, handle, pinned) :: pinOk(a)
        decreases |todo|
      {
        var a :| a in todo;
        if memory[a].handles.None? {
          return 0, true, pinned;
        }
        NextPinned(old(devices), memory, handle, pinned, a, pinOk);
        if handle in memory[a].handles.value {
          if !pinOk(a) {
            ListsIt(memory, handle, a);
            return MMD_AOCL_ERR, false, pinned;
          }
          devices := devices[handle := devices[handle].(pins := devices[handle].pins[a := memory[a].size])];
        }
        todo, pinned := todo - {a}, pinned + {a};
      }
      assert pinned == memory.Keys;
      ListedOfAll(memory, handle);
    }

    /** aocl_mmd_program. A call that succeeds leaves the registry right exactly if all the ranges listed for the device
        can be pinned again; its result does not show whether they could. One that fails leaves none of
        them pinned. */
    method Program(handle: int, preserve: bool, outcome: Outcome, pinOk: nat -> bool)
      returns (rc: int, faulted: bool, ghost pinned: set<nat>)
      modifies `devices
      ensures pinned <= memory.Keys
      ensures faulted <==> preserve && handle in old(devices) && Hollow(memory)
      ensures !faulted ==>
              if !preserve || handle !in old(devices) then rc == MMD_AOCL_ERR && State() == old(State())
              else if outcome.NotReached? then rc == MMD_AOCL_ERR && State() == Unpinned(old(State()), handle)
              else if !outcome.ok then rc == MMD_AOCL_ERR && State() == Reconnected(old(State()), handle)
              else
                && rc == handle
                && State() == WithPins(old(State()), handle, ListedOf(memory, handle, pinned))
                && (forall a | a in ListedOf(memory, handle, pinned) :: pinOk(a))
                && (State() == Reprogrammed(old(State()), handle) <==>
                    forall a | a in Listed(memory, handle) :: pinOk(a))
      ensures !faulted ==> if handle in old(devices) then OnlyPinsOf(old(State()), State(), handle)
                           else State() == old(State())
      ensures old(Consistent(State())) ==> !faulted
      ensures old(Consistent(State())) && preserve && handle in old(devices) ==>
              (Consistent(State()) <==>
                if outcome == Reached(true) then forall a | a in Listed(memory, handle) :: pinOk(a)
                else Listed(memory, handle) == map[])
    {
      hide Consistent, ListedOf, Listed, SomePinned, Hollow, OnlyPinsOf;
      if handle in devices {
        NothingIsOnlyPins(State(), handle);
        ProgrammingKeepsTheRest(State(), handle, devices[handle].pins - Listed(memory, handle).Keys);
        ProgrammingKeepsTheRest(State(), handle, map[]);
      }
      ghost var r := State();
      if Consistent(r) {
        ConsistentMeans(r);
      }
      pinned := {};
      if !preserve {
        return MMD_AOCL_ERR, false, {};
      }
      faulted := UnpinAllMem(handle);
      if faulted {
        return 0, true, {};
      }
      if handle !in devices {
        return MMD_AOCL_ERR, false, {};
      }
      if Consistent(r) {
        FailedProgramKeepsExactlyWhen(r, handle);
      }
      if outcome.NotReached? {
        return MMD_AOCL_ERR, false, {};
      }
      devices := devices[handle := devices[handle].(pins := map[])];
      assert State() == Reconnected(r, handle);
      if !outcome.ok {
        return MMD_AOCL_ERR, false, {};
      }
      var status;
      status, faulted, pinned := RepinAllMem(handle, pinOk);
      RepinnedAfterReconnect(r, handle, pinned);
      ProgrammingKeepsTheRest(r, handle, ListedOf(r.memory, handle, pinned));
      assert State() == WithPins(r, handle, ListedOf(r.memory, handle, pinned));
      RepinnedIs(r, handle, pinned);
      PinnedAllWhen(memory, handle, pinned, pinOk, status == 0);
      if Consistent(r) {
        PartialRepinKeepsExactlyWhen(r, handle, pinned);
      }
      rc := handle;
    }
  }

  // What a new device means for each map, and for the registry.
  lemma OpenedParts(r: Registry, id: nat, h: int)
    requires id > 0 && id !in r.ids
    ensures var r' := Opened(r, id, h);
            && Puts(r.ids, r'.ids, id, h)
            && (if h in r.devices then r'.devices == r.devices else Puts(r.devices, r'.devices, h, Device(id, map[])))
            && r'.memory == r.memory && r'.mapped == r.mapped
            && (Consistent(r) && h !in r.devices ==> Consistent(r'))
  {
    hide Consistent, Puts, Opened;
    if h in r.devices {
      OpenedTwice(r, id, h);
    } else {
      OpenedAdds(r, id, h);
      if Consistent(r) {
        OpenKeeps(r, id, h);
      }
    }
  }

  lemma NothingIsOnlyPins(r: Registry, h: int)
    ensures OnlyPinsOf(r, r, h)
  {
  }

  lemma ConsistentMeans(r: Registry)
    requires Consistent(r)
    ensures !Hollow(r.memory)
    ensures 0 !in r.memory
    ensures forall a | a in r.memory :: r.memory[a].handles.Some?
  {
    assert forall a | a in r.memory :: EntryOk(r, a);
  }

  lemma RepinnedIs(r: Registry, h: int, addrs: set<nat>)
    requires h in r.devices
    ensures WithPins(r, h, ListedOf(r.memory, h, addrs)) == Reprogrammed(r, h)
            <==> ListedOf(r.memory, h, addrs) == Listed(r.memory, h)
  {
    hide ListedOf, Listed;
    assert WithPins(r, h, ListedOf(r.memory, h, addrs)).devices[h].pins == ListedOf(r.memory, h, addrs);
    assert Reprogrammed(r, h).devices[h].pins == Listed(r.memory, h);
  }

  // Everything listed is pinned exactly if it all can be.
  lemma PinnedAllWhen(memory: map<nat, Allocation>, h: int, pinned: set<nat>, pinOk: nat -> bool, all: bool)
    requires forall a | a in ListedOf(memory, h, pinned) :: pinOk(a)
    requires all ==> ListedOf(memory, h, pinned) == Listed(memory, h)
    requires !all ==> exists a :: a in Listed(memory, h) && !pinOk(a)
    ensures ListedOf(memory, h, pinned) == Listed(memory, h) <==> forall a | a in Listed(memory, h) :: pinOk(a)
  {
    hide ListedOf, Listed;
    if !all {
      var a :| a in Listed(memory, h) && !pinOk(a);
      assert a !in ListedOf(memory, h, pinned);
    }
  }

  // The ranges that the registry lists for a handle, among those at some addresses.
  function ListedOf(memory: map<nat, Allocation>, h: int, addrs: set<nat>): map<nat, nat> {
    map a | a in memory && a in addrs && Lists(memory[a], h) :: memory[a].size
  }

  // Device h after some of the ranges that the registry lists for it have been unpinned, or pinned.
  function SomeUnpinned(devices: map<int, Device>, memory: map<nat, Allocation>, h: int, addrs: set<nat>)
    : map<int, Device>
    requires h in devices
  {
    devices[h := devices[h].(pins := devices[h].pins - ListedOf(memory, h, addrs).Keys)]
  }

  function SomePinned(devices: map<int, Device>, memory: map<nat, Allocation>, h: int, addrs: set<nat>)
    : map<int, Device>
    requires h in devices
  {
    devices[h := devices[h].(pins := devices[h].pins + ListedOf(memory, h, addrs))]
  }

  lemma NoneUnpinned(devices: map<int, Device>, memory: map<nat, Allocation>, h: int)
    requires h in devices
    ensures SomeUnpinned(devices, memory, h, {}) == devices
  {
    assert devices[h].pins - ListedOf(memory, h, {}).Keys == devices[h].pins;
  }

  lemma NonePinned(devices: map<int, Device>, memory: map<nat, Allocation>, h: int)
    requires h in devices
    ensures SomePinned(devices, memory, h, {}) == devices
    ensures ListedOf(memory, h, {}) == map[]
  {
    assert devices[h].pins + ListedOf(memory, h, {}) == devices[h].pins;
  }

  lemma ListedNext(memory: map<nat, Allocation>, h: int, addrs: set<nat>, a: nat)
    requires a in memory && a !in addrs
    ensures ListedOf(memory, h, addrs + {a}) ==
            if Lists(memory[a], h) then ListedOf(memory, h, addrs)[a := memory[a].size] else ListedOf(memory, h, addrs)
  {
  }

  lemma NextUnpinned(devices: map<int, Device>, memory: map<nat, Allocation>, h: int, addrs: set<nat>, a: nat)
    requires h in devices && a in memory && a !in addrs && memory[a].handles.Some?
    ensures var was := SomeUnpinned(devices, memory, h, addrs);
            && h in was
            && SomeUnpinned(devices, memory, h, addrs + {a}) ==
               if h in memory[a].handles.value then was[h := was[h].(pins := was[h].pins - {a})] else was
  {
    hide ListedOf;
    ListedNext(memory, h, addrs, a);
    var listed := ListedOf(memory, h, addrs);
    assert listed[a := memory[a].size].Keys == listed.Keys + {a};
    assert devices[h].pins - (listed.Keys + {a}) == devices[h].pins - listed.Keys - {a};
  }

  lemma NextPinned(devices: map<int, Device>, memory: map<nat, Allocation>, h: int, addrs: set<nat>, a: nat,
                   pinOk: nat -> bool)
    requires h in devices && a in memory && a !in addrs && memory[a].handles.Some?
    ensures var was := SomePinned(devices, memory, h, addrs);
            && h in was
            && SomePinned(devices, memory, h, addrs + {a}) ==
               if h in memory[a].handles.value then was[h := was[h].(pins := was[h].pins[a := memory[a].size])] else was
    ensures forall b | b in ListedOf(memory, h, addrs + {a}) ::
              b in ListedOf(memory, h, addrs) || (b == a && h in memory[a].handles.value)
  {
    hide ListedOf;
    ListedNext(memory, h, addrs, a);
    var listed := ListedOf(memory, h, addrs);
    assert devices[h].pins + listed[a := memory[a].size] == (devices[h].pins + listed)[a := memory[a].size];
  }

  lemma ListsIt(memory: map<nat, Allocation>, h: int, a: nat)
    requires a in memory && memory[a].handles.Some? && h in memory[a].handles.value
    ensures a in Listed(memory, h)
  {
  }

  lemma AllUnpinned(r: Registry, h: int)
    requires h in r.devices
    ensures SomeUnpinned(r.devices, r.memory, h, r.memory.Keys) == Unpinned(r, h).devices
  {
    ListedOfAll(r.memory, h);
  }

  lemma RepinnedAfterReconnect(r: Registry, h: int, addrs: set<nat>)
    requires h in r.devices
    ensures SomePinned(Reconnected(r, h).devices, r.memory, h, addrs)
        == WithPins(r, h, ListedOf(r.memory, h, addrs)).devices
  {
    hide ListedOf;
    assert map[] + ListedOf(r.memory, h, addrs) == ListedOf(r.memory, h, addrs);
  }

  lemma ListedOfAll(memory: map<nat, Allocation>, h: int)
    ensures ListedOf(memory, h, memory.Keys) == Listed(memory, h)
  {
  }

  lemma FreeIsPositive(mapped: map<nat, nat>, a: nat, size: nat)
    requires Free(mapped, a, size)
    ensures a > 0
  {
  }

  lemma PinOnFirst(devices: map<int, Device>, hs: seq<int>, a: nat, size: nat)
    ensures PinOn(devices, hs[..0], a, size) == devices
  {
  }

  lemma UnpinOnFirst(devices: map<int, Device>, hs: seq<int>, a: nat)
    ensures UnpinOn(devices, hs[..0], a) == devices
  {
  }

  lemma PinOnKeys(devices: map<int, Device>, hs: seq<int>, a: nat, size: nat)
    ensures PinOn(devices, hs, a, size).Keys == devices.Keys
  {
  }

  lemma UnpinOnKeys(devices: map<int, Device>, hs: seq<int>, a: nat)
    ensures UnpinOn(devices, hs, a).Keys == devices.Keys
  {
  }

  lemma PinOnNext(devices: map<int, Device>, hs: seq<int>, i: nat, a: nat, size: nat)
    requires i < |hs|
    ensures PinOn(PinOn(devices, hs[..i], a, size), [hs[i]], a, size) == PinOn(devices, hs[..i + 1], a, size)
  {
    assert hs[..i + 1] == hs[..i] + [hs[i]];
    forall h | h in devices ensures devices[h].pins[a := size][a := size] == devices[h].pins[a := size] {
    }
  }

  lemma UnpinOnNext(devices: map<int, Device>, hs: seq<int>, i: nat, a: nat)
    requires i < |hs|
    ensures UnpinOn(UnpinOn(devices, hs[..i], a), [hs[i]], a) == UnpinOn(devices, hs[..i + 1], a)
  {
    assert hs[..i + 1] == hs[..i] + [hs[i]];
    forall h | h in devices ensures devices[h].pins - {a} - {a} == devices[h].pins - {a} {
    }
  }

  /** After a program call that succeeded, with whatever of the ranges pinned again, the registry is right exactly
      if all of them are. */
  lemma PartialRepinKeepsExactlyWhen(r: Registry, h: int, addrs: set<nat>)
    requires Consistent(r) && h in r.devices
    ensures Consistent(WithPins(r, h, ListedOf(r.memory, h, addrs)))
            <==> ListedOf(r.memory, h, addrs) == Listed(r.memory, h)
  {
    var r' := WithPins(r, h, ListedOf(r.memory, h, addrs));
    assert r'.devices[h].pins == ListedOf(r.memory, h, addrs) && Listed(r'.memory, h) == Listed(r.memory, h);
    if ListedOf(r.memory, h, addrs) == Listed(r.memory, h) {
      assert r'.devices == r.devices;
    }
  }
}
