/** The host driver's maps: which device has which handle, which host memory was allocated for which handles, and
    what every device has pinned. The state and what the calls make of it; PinDriver has the calls themselves. */
module PinRegistry {

  datatype Option<T> = None | Some(value: T)

  // pins: start and size of every pinned range.
  datatype Device = Device(id: nat, pins: map<nat, nat>)

  // The handle list is moved out of an entry when its memory is being freed.
  datatype Allocation = Allocation(size: nat, handles: Option<seq<int>>)

  // mapped: the ranges that the operating system has given out.
  datatype Registry = Registry(ids: map<nat, int>, devices: map<int, Device>, memory: map<nat, Allocation>,
                               mapped: map<nat, nat>)

  const EMPTY := Registry(map[], map[], map[], map[])

  predicate Lists(alloc: Allocation, h: int) {
    alloc.handles.Some? && h in alloc.handles.value
  }

  // The ranges that the registry lists for a handle.
  function Listed(memory: map<nat, Allocation>, h: int): map<nat, nat> {
    map a | a in memory && Lists(memory[a], h) :: memory[a].size
  }

  predicate Distinct(hs: seq<int>) {
    forall i, j | 0 <= i < j < |hs| :: hs[i] != hs[j]
  }

  predicate Apart(a: nat, size: nat, b: nat, size': nat) {
    a + size <= b || b + size' <= a
  }

  // A range that the operating system may give out.
  predicate Free(mapped: map<nat, nat>, a: nat, size: nat) {
    a > 0 && size > 0 && forall b | b in mapped :: Apart(a, size, b, mapped[b])
  }

  ghost predicate IdsMatch(r: Registry) {
    && (forall id | id in r.ids :: id > 0 && r.ids[id] in r.devices && r.devices[r.ids[id]].id == id)
    && (forall h | h in r.devices :: r.devices[h].id in r.ids && r.ids[r.devices[h].id] == h)
  }

  ghost predicate EntryOk(r: Registry, a: nat)
    requires a in r.memory
  {
    && a in r.mapped && r.mapped[a] == r.memory[a].size
    && r.memory[a].handles.Some?
    && r.memory[a].handles.value != [] && Distinct(r.memory[a].handles.value)
    && forall i | 0 <= i < |r.memory[a].handles.value| :: r.memory[a].handles.value[i] in r.devices
  }

  ghost predicate MappedOk(mapped: map<nat, nat>) {
    && (forall a | a in mapped :: a > 0 && mapped[a] > 0)
    && (forall a, b | a in mapped && b in mapped && a != b :: Apart(a, mapped[a], b, mapped[b]))
  }

  // Every device has pinned what the registry lists for its handle, no more and no less.
  ghost predicate PinsListed(r: Registry) {
    forall h | h in r.devices :: r.devices[h].pins == Listed(r.memory, h)
  }

  /** The maps agree, every entry belongs to open devices, every mapped range has an entry, and the pins are those
      that the entries list. */
  ghost predicate Consistent(r: Registry) {
    && IdsMatch(r)
    && MappedOk(r.mapped)
    && (forall a | a in r.memory :: EntryOk(r, a))
    && (forall a | a in r.mapped :: a in r.memory)
    && PinsListed(r)
  }

  // Some entry has lost its handles.
  predicate Hollow(memory: map<nat, Allocation>) {
    exists a :: a in memory && memory[a].handles.None?
  }

  // The devices with new pins for one handle.
  function WithPins(r: Registry, h: int, pins: map<nat, nat>): Registry
    requires h in r.devices
  {
    r.(devices := r.devices[h := r.devices[h].(pins := pins)])
  }

  // A range pinned, or unpinned, on all devices of a list.
  function PinOn(devices: map<int, Device>, hs: seq<int>, a: nat, size: nat): map<int, Device> {
    map h | h in devices :: if h in hs then devices[h].(pins := devices[h].pins[a := size]) else devices[h]
  }

  function UnpinOn(devices: map<int, Device>, hs: seq<int>, a: nat): map<int, Device> {
    map h | h in devices :: if h in hs then devices[h].(pins := devices[h].pins - {a}) else devices[h]
  }

  function Opened(r: Registry, id: nat, h: int): Registry {
    r.(ids := r.ids[id := h], devices := if h in r.devices then r.devices else r.devices[h := Device(id, map[])])
  }

  function Closed(r: Registry, h: int): Registry
    requires h in r.devices
  {
    r.(devices := r.devices - {h}, ids := r.ids - {r.devices[h].id})
  }

  function Allocated(r: Registry, a: nat, size: nat, hs: seq<int>): Registry {
    r.(devices := PinOn(r.devices, hs, a, size), memory := r.memory[a := Allocation(size, Some(hs))],
       mapped := r.mapped[a := size])
  }

  // The allocation was given up after k devices had pinned the range.
  function GivenUp(r: Registry, a: nat, size: nat, hs: seq<int>, k: nat): Registry
    requires k <= |hs|
  {
    r.(devices := PinOn(r.devices, hs[..k], a, size), mapped := r.mapped[a := size])
  }

  function Freed(r: Registry, a: nat): Registry
    requires a in r.memory && r.memory[a].handles.Some?
  {
    r.(devices := UnpinOn(r.devices, r.memory[a].handles.value, a), memory := r.memory - {a}, mapped := r.mapped - {a})
  }

  // Freeing was given up after k devices had unpinned the range: the entry remains, without its handles.
  function HalfFreed(r: Registry, a: nat, k: nat): Registry
    requires a in r.memory && r.memory[a].handles.Some? && k <= |r.memory[a].handles.value|
  {
    r.(devices := UnpinOn(r.devices, r.memory[a].handles.value[..k], a),
       memory := r.memory[a := r.memory[a].(handles := None)])
  }

  function Unpinned(r: Registry, h: int): Registry
    requires h in r.devices
  {
    WithPins(r, h, r.devices[h].pins - Listed(r.memory, h).Keys)
  }

  // The device has been disconnected and connected again.
  function Reconnected(r: Registry, h: int): Registry
    requires h in r.devices
  {
    WithPins(r, h, map[])
  }

  function Reprogrammed(r: Registry, h: int): Registry
    requires h in r.devices
  {
    WithPins(r, h, Listed(r.memory, h))
  }

  /** Reprogramming gives a device the pins it had exactly if they were what the registry lists. */
  lemma ReprogramRestoresExactly(r: Registry, h: int)
    requires h in r.devices
    ensures Reprogrammed(r, h) == r <==> r.devices[h].pins == Listed(r.memory, h)
  {
    assert Reprogrammed(r, h).devices[h].pins == Listed(r.memory, h);
    if r.devices[h].pins == Listed(r.memory, h) {
      assert Reprogrammed(r, h).devices == r.devices;
    }
  }

  /** A program call that fails leaves the registry right exactly if nothing is allocated for the device. */
  lemma FailedProgramKeepsExactlyWhen(r: Registry, h: int)
    requires Consistent(r) && h in r.devices
    ensures Unpinned(r, h) == Reconnected(r, h)
    ensures Consistent(Reconnected(r, h)) <==> Listed(r.memory, h) == map[]
  {
    var r' := Reconnected(r, h);
    assert r.devices[h].pins - Listed(r.memory, h).Keys == map[];
    assert r'.devices[h].pins == map[];
    if Listed(r.memory, h) == map[] {
      assert r'.devices == r.devices;
    }
  }

  /** What a device has pinned never overlaps. */
  lemma PinsApart(r: Registry, h: int, a: nat, b: nat)
    requires Consistent(r) && h in r.devices && a in r.devices[h].pins && b in r.devices[h].pins && a != b
    ensures Apart(a, r.devices[h].pins[a], b, r.devices[h].pins[b])
  {
    assert EntryOk(r, a) && EntryOk(r, b);
  }

  lemma OpenKeeps(r: Registry, id: nat, h: int)
    requires Consistent(r) && id > 0 && id !in r.ids && h !in r.devices
    ensures Consistent(Opened(r, id, h))
  {
    var r' := Opened(r, id, h);
    forall a | a in r.memory ensures EntryOk(r', a) && !Lists(r.memory[a], h) {
      assert EntryOk(r, a);
    }
    assert r'.devices[h].pins == Listed(r'.memory, h);
  }

  /** Closing a device keeps the registry right exactly if nothing is allocated for it any more. */
  lemma CloseKeepsExactlyWhen(r: Registry, h: int)
    requires Consistent(r) && h in r.devices
    ensures Consistent(Closed(r, h)) <==> Listed(r.memory, h) == map[]
  {
    var r' := Closed(r, h);
    forall a | a in r.memory ensures EntryOk(r, a) && (Lists(r.memory[a], h) <==> a in Listed(r.memory, h)) {
    }
    if Listed(r.memory, h) == map[] {
      assert IdsMatch(r');
      assert forall a | a in r.memory :: a !in Listed(r.memory, h);
      forall a | a in r'.memory ensures EntryOk(r', a) {
        assert EntryOk(r, a);
      }
    } else {
      var a :| a in Listed(r.memory, h);
      var i :| 0 <= i < |r.memory[a].handles.value| && r.memory[a].handles.value[i] == h;
      assert !EntryOk(r', a);
    }
  }

  lemma ListedAfterAlloc(r: Registry, a: nat, size: nat, hs: seq<int>, h: int)
    ensures Listed(Allocated(r, a, size, hs).memory, h) ==
            if h in hs then Listed(r.memory, h)[a := size] else Listed(r.memory, h) - {a}
  {
  }

  lemma MappedGrows(mapped: map<nat, nat>, a: nat, size: nat)
    requires MappedOk(mapped) && Free(mapped, a, size)
    ensures a !in mapped && MappedOk(mapped[a := size])
  {
  }

  lemma AllocKeeps(r: Registry, a: nat, size: nat, hs: seq<int>)
    requires Consistent(r) && Free(r.mapped, a, size)
    requires hs != [] && Distinct(hs) && forall i | 0 <= i < |hs| :: hs[i] in r.devices
    ensures Consistent(Allocated(r, a, size, hs))
  {
    hide MappedOk, IdsMatch, Listed, Free;
    var r' := Allocated(r, a, size, hs);
    MappedGrows(r.mapped, a, size);
    FreshIsUnlisted(r, a);
    IdsStay(r, r');
    forall b | b in r'.memory ensures EntryOk(r', b) {
      if b != a {
        assert EntryOk(r, b);
      }
    }
    forall h | h in r'.devices ensures r'.devices[h].pins == Listed(r'.memory, h) {
      ListedAfterAlloc(r, a, size, hs, h);
      assert h !in hs ==> Listed(r.memory, h) - {a} == Listed(r.memory, h);
    }
  }

  lemma FreshIsUnlisted(r: Registry, a: nat)
    requires Consistent(r) && a !in r.mapped
    ensures a !in r.memory
    ensures forall h | h in r.devices :: a !in r.devices[h].pins && a !in Listed(r.memory, h)
  {
    assert forall b | b in r.memory :: EntryOk(r, b);
  }

  /** An allocation that is given up never keeps the registry right, as the range stays mapped; the pins still agree
      with it exactly if no device had pinned the range yet. */
  lemma GivingUpNeverKeeps(r: Registry, a: nat, size: nat, hs: seq<int>, k: nat)
    requires Consistent(r) && Free(r.mapped, a, size)
    requires k < |hs| && forall i | 0 <= i < |hs| :: hs[i] in r.devices
    ensures !Consistent(GivenUp(r, a, size, hs, k))
    ensures PinsListed(GivenUp(r, a, size, hs, k)) <==> k == 0
  {
    var r' := GivenUp(r, a, size, hs, k);
    MappedGrows(r.mapped, a, size);
    FreshIsUnlisted(r, a);
    assert a in r'.mapped && a !in r'.memory;
    if k == 0 {
      assert r'.devices == r.devices;
    } else {
      assert hs[0] in hs[..k];
      assert a in r'.devices[hs[0]].pins && a !in Listed(r'.memory, hs[0]);
    }
  }

  lemma MappedShrinks(mapped: map<nat, nat>, a: nat)
    requires MappedOk(mapped)
    ensures MappedOk(mapped - {a})
  {
  }

  // The handle maps do not depend on pins.
  lemma IdsStay(r: Registry, r': Registry)
    requires IdsMatch(r) && r'.ids == r.ids && r'.devices.Keys == r.devices.Keys
    requires forall h | h in r.devices :: r'.devices[h].id == r.devices[h].id
    ensures IdsMatch(r')
  {
    forall id | id in r'.ids ensures id > 0 && r'.ids[id] in r'.devices && r'.devices[r'.ids[id]].id == id {
      var h := r.ids[id];
      assert id in r.ids && h in r.devices && r.devices[h].id == id;
      assert h in r'.devices.Keys;
      assert r'.devices[h].id == r.devices[h].id;
    }
  }

  lemma PinsAfterFree(r: Registry, a: nat, h: int)
    requires a in r.memory && r.memory[a].handles.Some?
    requires h in r.devices && r.devices[h].pins == Listed(r.memory, h)
    ensures h in Freed(r, a).devices && Freed(r, a).devices[h].pins == Listed(Freed(r, a).memory, h)
  {
    assert Listed(Freed(r, a).memory, h) == Listed(r.memory, h) - {a};
    assert h !in r.memory[a].handles.value ==> a !in Listed(r.memory, h);
  }

  lemma FreeKeeps(r: Registry, a: nat)
    requires Consistent(r) && a in r.memory && r.memory[a].handles.Some?
    ensures Consistent(Freed(r, a))
  {
    hide MappedOk, IdsMatch, Listed;
    var r' := Freed(r, a);
    MappedShrinks(r.mapped, a);
    IdsStay(r, r');
    forall b | b in r'.memory ensures EntryOk(r', b) {
      assert EntryOk(r, b);
    }
    forall h | h in r'.devices ensures r'.devices[h].pins == Listed(r'.memory, h) {
      PinsAfterFree(r, a, h);
    }
  }

  /** A free that is given up always leaves the registry wrong: the entry has lost its handles. */
  lemma GivingUpAFreeNeverKeeps(r: Registry, a: nat, k: nat)
    requires Consistent(r) && a in r.memory && r.memory[a].handles.Some? && k <= |r.memory[a].handles.value|
    ensures !Consistent(HalfFreed(r, a, k)) && Hollow(HalfFreed(r, a, k).memory)
  {
    assert HalfFreed(r, a, k).memory[a].handles.None?;
    assert !EntryOk(HalfFreed(r, a, k), a);
  }

  lemma UnpinUndoesPin(devices: map<int, Device>, hs: seq<int>, a: nat, size: nat)
    requires forall h | h in devices :: a !in devices[h].pins
    ensures UnpinOn(PinOn(devices, hs, a, size), hs, a) == devices
  {
    forall h | h in devices ensures devices[h].pins[a := size] - {a} == devices[h].pins {
    }
  }

  lemma RemoveUndoesAdd<V>(m: map<nat, V>, a: nat, v: V)
    requires a !in m
    ensures m[a := v] - {a} == m
  {
  }

  /** Freeing undoes allocating. */
  lemma FreeUndoesAlloc(r: Registry, a: nat, size: nat, hs: seq<int>)
    requires Consistent(r) && Free(r.mapped, a, size)
    ensures Freed(Allocated(r, a, size, hs), a) == r
  {
    MappedGrows(r.mapped, a, size);
    FreshIsUnlisted(r, a);
    UnpinUndoesPin(r.devices, hs, a, size);
    hide Consistent, Free, PinOn, UnpinOn, Listed;
    RemoveUndoesAdd(r.memory, a, Allocation(size, Some(hs)));
    RemoveUndoesAdd(r.mapped, a, size);
  }

  // What the calls change and what they leave alone, entry by entry

  ghost predicate Puts<K(!new), V>(m: map<K, V>, m': map<K, V>, k: K, v: V) {
    && (forall x :: x in m' <==> x in m || x == k)
    && (forall x | x in m' :: m'[x] == if x == k then v else m[x])
  }

  ghost predicate Drops<K(!new), V>(m: map<K, V>, m': map<K, V>, k: K) {
    && (forall x :: x in m' <==> x in m && x != k)
    && (forall x | x in m' :: m'[x] == m[x])
  }

  // A range is pinned on some devices, whatever they had, and nothing else happens to any device.
  ghost predicate PinsOnly(devices: map<int, Device>, devices': map<int, Device>, hs: seq<int>, a: nat, size: nat) {
    && (forall h :: h in devices' <==> h in devices)
    && (forall h | h in devices :: devices'[h].id == devices[h].id
                                   && if h in hs then Puts(devices[h].pins, devices'[h].pins, a, size)
                                      else devices'[h].pins == devices[h].pins)
  }

  ghost predicate UnpinsOnly(devices: map<int, Device>, devices': map<int, Device>, hs: seq<int>, a: nat) {
    && (forall h :: h in devices' <==> h in devices)
    && (forall h | h in devices :: devices'[h].id == devices[h].id
                                   && if h in hs then Drops(devices[h].pins, devices'[h].pins, a)
                                      else devices'[h].pins == devices[h].pins)
  }

  // Only the pins of one device change.
  ghost predicate OnlyPinsOf(r: Registry, r': Registry, h: int) {
    && r'.ids == r.ids && r'.memory == r.memory && r'.mapped == r.mapped
    && (forall k :: k in r'.devices <==> k in r.devices)
    && (forall k | k in r.devices :: r'.devices[k].id == r.devices[k].id && (k != h ==> r'.devices[k] == r.devices[k]))
  }

  /** Opening adds one device without pins, under its two names, and changes nothing else. */
  lemma OpenedAdds(r: Registry, id: nat, h: int)
    requires h !in r.devices
    ensures var r' := Opened(r, id, h);
            && Puts(r.ids, r'.ids, id, h) && Puts(r.devices, r'.devices, h, Device(id, map[]))
            && r'.memory == r.memory && r'.mapped == r.mapped
  {
  }

  // With a handle that is in use, only the identifier is entered.
  lemma OpenedTwice(r: Registry, id: nat, h: int)
    requires h in r.devices
    ensures var r' := Opened(r, id, h);
            Puts(r.ids, r'.ids, id, h) && r'.devices == r.devices && r'.memory == r.memory && r'.mapped == r.mapped
  {
  }

  /** Closing removes one device, under its two names, and changes nothing else. */
  lemma ClosedRemoves(r: Registry, h: int)
    requires h in r.devices
    ensures var r' := Closed(r, h);
            && Drops(r.ids, r'.ids, r.devices[h].id) && Drops(r.devices, r'.devices, h)
            && r'.memory == r.memory && r'.mapped == r.mapped
  {
  }

  lemma PinOnPins(devices: map<int, Device>, hs: seq<int>, a: nat, size: nat)
    ensures PinsOnly(devices, PinOn(devices, hs, a, size), hs, a, size)
  {
  }

  lemma UnpinOnUnpins(devices: map<int, Device>, hs: seq<int>, a: nat)
    ensures UnpinsOnly(devices, UnpinOn(devices, hs, a), hs, a)
  {
  }

  /** An allocation adds its entry, its mapping and its pins, and changes nothing else. */
  lemma AllocatedAdds(r: Registry, a: nat, size: nat, hs: seq<int>)
    ensures var r' := Allocated(r, a, size, hs);
            && r'.ids == r.ids && PinsOnly(r.devices, r'.devices, hs, a, size)
            && Puts(r.memory, r'.memory, a, Allocation(size, Some(hs))) && Puts(r.mapped, r'.mapped, a, size)
  {
    hide PinOn, PinsOnly;
    PinOnPins(r.devices, hs, a, size);
  }

  /** One that is given up adds its mapping and the pins made so far. */
  lemma GivenUpAdds(r: Registry, a: nat, size: nat, hs: seq<int>, k: nat)
    requires k <= |hs|
    ensures var r' := GivenUp(r, a, size, hs, k);
            && r'.ids == r.ids && PinsOnly(r.devices, r'.devices, hs[..k], a, size)
            && r'.memory == r.memory && Puts(r.mapped, r'.mapped, a, size)
  {
    hide PinOn, PinsOnly;
    PinOnPins(r.devices, hs[..k], a, size);
  }

  /** A free removes entry, mapping and pins of a range, and changes nothing else. */
  lemma FreedRemoves(r: Registry, a: nat)
    requires a in r.memory && r.memory[a].handles.Some?
    ensures var r' := Freed(r, a);
            && r'.ids == r.ids && UnpinsOnly(r.devices, r'.devices, r.memory[a].handles.value, a)
            && Drops(r.memory, r'.memory, a) && Drops(r.mapped, r'.mapped, a)
  {
    hide UnpinOn, UnpinsOnly;
    UnpinOnUnpins(r.devices, r.memory[a].handles.value, a);
  }

  /** One that is given up removes the pins so far and the handles of the entry. */
  lemma HalfFreedRemoves(r: Registry, a: nat, k: nat)
    requires a in r.memory && r.memory[a].handles.Some? && k <= |r.memory[a].handles.value|
    ensures var r' := HalfFreed(r, a, k);
            && r'.ids == r.ids && UnpinsOnly(r.devices, r'.devices, r.memory[a].handles.value[..k], a)
            && Puts(r.memory, r'.memory, a, Allocation(r.memory[a].size, None)) && r'.mapped == r.mapped
  {
    hide UnpinOn, UnpinsOnly;
    UnpinOnUnpins(r.devices, r.memory[a].handles.value[..k], a);
  }

  /** Programming a device changes its pins only. */
  lemma ProgrammingKeepsTheRest(r: Registry, h: int, pins: map<nat, nat>)
    requires h in r.devices
    ensures OnlyPinsOf(r, WithPins(r, h, pins), h) && WithPins(r, h, pins).devices[h].pins == pins
  {
  }

  // The calls, as far as they succeed.
  datatype Call =
    | Open(id: nat, handle: int)
    | Alloc(addr: nat, size: nat, handles: seq<int>)
    | Release(addr: nat)
    | Program(handle: int)
    | Close(handle: int)

  // The operating system gives out free memory, new devices get new handles, callers name each device once and
  // close devices after freeing what was allocated for them.
  ghost predicate Allowed(r: Registry, c: Call) {
    match c
    case Open(id, h) => id > 0 && (id in r.ids || h !in r.devices)
    case Alloc(a, size, hs) =>
      Free(r.mapped, a, size) && hs != [] && Distinct(hs) && forall i | 0 <= i < |hs| :: hs[i] in r.devices
    case Release(a) => a in r.memory && r.memory[a].handles.Some?
    case Program(h) => h in r.devices
    case Close(h) => h in r.devices && Listed(r.memory, h) == map[]
  }

  function Apply(r: Registry, c: Call): Registry {
    match c
    case Open(id, h) => if id in r.ids then r else Opened(r, id, h)
    case Alloc(a, size, hs) => Allocated(r, a, size, hs)
    case Release(a) => if a in r.memory && r.memory[a].handles.Some? then Freed(r, a) else r
    case Program(h) => if h in r.devices then Reprogrammed(r, h) else r
    case Close(h) => if h in r.devices then Closed(r, h) else r
  }

  ghost predicate AllAllowed(r: Registry, calls: seq<Call>)
    decreases |calls|
  {
    calls == [] || (Allowed(r, calls[0]) && AllAllowed(Apply(r, calls[0]), calls[1..]))
  }

  function ApplyAll(r: Registry, calls: seq<Call>): Registry
    decreases |calls|
  {
    if calls == [] then r else ApplyAll(Apply(r, calls[0]), calls[1..])
  }

  lemma CallKeeps(r: Registry, c: Call)
    requires Consistent(r) && Allowed(r, c)
    ensures Consistent(Apply(r, c))
    ensures c.Program? ==> Apply(r, c) == r
  {
    hide Consistent, Opened, Closed, Allocated, Freed;
    match c
    case Open(id, h) =>
      if id !in r.ids {
        OpenKeeps(r, id, h);
      }
    case Alloc(a, size, hs) => AllocKeeps(r, a, size, hs);
    case Release(a) => FreeKeeps(r, a);
    case Program(h) =>
      PinsAreListed(r, h);
      ReprogramRestoresExactly(r, h);
    case Close(h) => CloseKeepsExactlyWhen(r, h);
  }

  lemma PinsAreListed(r: Registry, h: int)
    requires Consistent(r) && h in r.devices
    ensures r.devices[h].pins == Listed(r.memory, h)
  {
  }

  lemma {:induction false} CallsKeep(r: Registry, calls: seq<Call>)
    requires Consistent(r) && AllAllowed(r, calls)
    ensures Consistent(ApplyAll(r, calls))
    decreases |calls|
  {
    if calls != [] {
      hide Consistent, Allowed, Apply;
      CallKeeps(r, calls[0]);
      CallsKeep(Apply(r, calls[0]), calls[1..]);
    }
  }

  /** After every run of successful calls each device has pinned what the registry lists for its handle. */
  lemma PinsAgree(calls: seq<Call>)
    requires AllAllowed(EMPTY, calls)
    ensures Consistent(ApplyAll(EMPTY, calls))
  {
    CallsKeep(EMPTY, calls);
  }
}
