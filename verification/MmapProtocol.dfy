/**
 The lazily allocated VM object of a surface. mmap pins the selected surface by id, drops
 the session lock to allocate, re-finds the surface by id and installs its object or yields
 to the one already there. Creation, destruction, selection, teardown and any number of
 mmap calls interleave at lock boundaries; releasing an object is a step of its own.
 */
module MmapProtocol {
  import opened SurfaceTable

  /** Why the driver gives up its reference to an object. */
  datatype Cause = Destroyed | LostRace | Orphaned

  datatype Place = Flying(thread: nat) | Owned | Retiring(cause: Cause) | Released

  /** Every object ever allocated, with the surface it was allocated for. */
  datatype Object = Object(surface: nat, bytes: nat, place: Place)

  /** A thread inside mmap, between two lock holds. */
  datatype Thread = Pinned(id: nat, bytes: nat, size: nat) | Allocated(id: nat, bytes: nat, size: nat, obj: nat)

  /** A successful mmap: the surface it pinned, the object it was given, and the length it asked for. */
  datatype Mapping = Mapping(id: nat, obj: nat, size: nat)

  /** `installed` records the object each surface was ever given; `orphaned` counts mmaps whose surface went away. */
  datatype State = State(table: Table, objs: seq<Object>, threads: map<nat, Thread>, installed: map<nat, nat>,
                         mappings: seq<Mapping>, allocs: nat, deallocs: nat, installLost: nat, orphaned: nat)

  function Init(bound: bool): State {
    State(Empty(bound), [], map[], map[], [], 0, 0, 0, 0)
  }

  datatype Step =
    | CreateStep(width: nat, height: nat, format: nat)
    | DestroyStep(id: nat)
    | FreeFirst
    | SelectStep(id: nat)
    | BeginStep(thread: nat, size: nat)
    | AllocateStep(thread: nat, ok: bool)
    | FinishStep(thread: nat)
    | ReleaseStep(obj: nat)

  predicate Enabled(s: State, step: Step) {
    match step
    case CreateStep(_, _, _) => true
    case DestroyStep(_) => true
    case FreeFirst => s.table.surfaces != []
    case SelectStep(_) => true
    case BeginStep(thread, _) => thread !in s.threads
    case AllocateStep(thread, _) => thread in s.threads && s.threads[thread].Pinned?
    case FinishStep(thread) => thread in s.threads && s.threads[thread].Allocated?
    case ReleaseStep(obj) => obj < |s.objs| && s.objs[obj].place.Retiring?
  }

  function Move(objs: seq<Object>, obj: nat, place: Place): seq<Object> {
    if obj < |objs| then objs[obj := objs[obj].(place := place)] else objs
  }

  /** Unlink the surface at `i`; its object, if it has one, is released later. */
  function DetachAt(s: State, i: nat): State
    requires i < |s.table.surfaces|
  {
    match s.table.surfaces[i].vmobj
    case None => s.(table := Detach(s.table, i))
    case Some(obj) => s.(table := Detach(s.table, i), objs := Move(s.objs, obj, Retiring(Destroyed)))
  }

  function BeginAt(s: State, thread: nat, size: nat): State {
    match Begin(s.table, size)
    case Failed(_) => s
    case Fast(id, obj) => s.(mappings := s.mappings + [Mapping(id, obj, size)])
    case Pin(id, bytes) => s.(threads := s.threads[thread := Pinned(id, bytes, size)])
  }

  function AllocateAt(s: State, thread: nat, ok: bool): State
    requires thread in s.threads && s.threads[thread].Pinned?
  {
    var Pinned(id, bytes, size) := s.threads[thread];
    if !ok then s.(threads := s.threads - {thread})
    else s.(objs := s.objs + [Object(id, bytes, Flying(thread))],
            threads := s.threads[thread := Allocated(id, bytes, size, |s.objs|)])
  }

  function FinishAt(s: State, thread: nat): State
    requires thread in s.threads && s.threads[thread].Allocated?
  {
    var Allocated(id, bytes, size, obj) := s.threads[thread];
    var t := s.(threads := s.threads - {thread});
    var (table, finished) := Finish(s.table, id, obj);
    match finished
    case SurfaceGone => t.(objs := Move(s.objs, obj, Retiring(Orphaned)))
    case Lost(theirs) =>
      t.(objs := Move(s.objs, obj, Retiring(LostRace)), mappings := s.mappings + [Mapping(id, theirs, size)])
    case Won =>
      t.(table := table, objs := Move(s.objs, obj, Owned), mappings := s.mappings + [Mapping(id, obj, size)],
         installed := s.installed[id := obj], allocs := s.allocs + 1)
  }

  /** vm_object_deallocate with its counters, taken together. */
  function ReleaseAt(s: State, obj: nat): State
    requires obj < |s.objs| && s.objs[obj].place.Retiring?
  {
    var t := s.(objs := Move(s.objs, obj, Released), deallocs := s.deallocs + 1);
    match s.objs[obj].place.cause
    case Destroyed => t
    case LostRace => t.(installLost := s.installLost + 1)
    case Orphaned => t.(orphaned := s.orphaned + 1)
  }

  function Apply(s: State, step: Step): State
    requires Enabled(s, step)
  {
    match step
    case CreateStep(width, height, format) => s.(table := Create(s.table, width, height, format).0)
    case DestroyStep(id) =>
      var i := Find(s.table.surfaces, id, 0);
      if id == 0 || i == |s.table.surfaces| then s else DetachAt(s, i)
    case FreeFirst => DetachAt(s, 0)
    case SelectStep(id) => s.(table := Select(s.table, id).0)
    case BeginStep(thread, size) => BeginAt(s, thread, size)
    case AllocateStep(thread, ok) => AllocateAt(s, thread, ok)
    case FinishStep(thread) => FinishAt(s, thread)
    case ReleaseStep(obj) => ReleaseAt(s, obj)
  }

  // ------------------------------------------------------------------------------------
  // The invariant.
  // ------------------------------------------------------------------------------------

  predicate SurfaceObject(objs: seq<Object>, installed: map<nat, nat>, sf: Surface) {
    match sf.vmobj
    case None => sf.id !in installed
    case Some(obj) =>
      && obj < |objs| && objs[obj] == Object(sf.id, sf.bytes, Owned)
      && sf.id in installed && installed[sf.id] == obj
  }

  /** A live surface has exactly the object that was installed for it, of its own size. */
  predicate ObjectsOwned(s: State) {
    forall i | 0 <= i < |s.table.surfaces| :: SurfaceObject(s.objs, s.installed, s.table.surfaces[i])
  }

  predicate InstalledFor(objs: seq<Object>, id: nat, obj: nat) {
    obj < |objs| && objs[obj].surface == id
  }

  /** Objects are installed only where they were allocated for, under ids already given out. */
  predicate InstalledOrigins(s: State) {
    forall id | id in s.installed :: id < s.table.nextId && InstalledFor(s.objs, id, s.installed[id])
  }

  predicate ThreadPinned(list: seq<Surface>, nextId: nat, th: Thread) {
    && th.size <= th.bytes
    && th.id < nextId
    && forall i | 0 <= i < |list| && list[i].id == th.id :: list[i].bytes == th.bytes
  }

  /** A pinned size stays correct while the surface lives. */
  predicate ThreadsPinned(s: State) {
    forall t | t in s.threads :: ThreadPinned(s.table.surfaces, s.table.nextId, s.threads[t])
  }

  predicate ThreadHolds(objs: seq<Object>, t: nat, th: Thread) {
    th.Allocated? ==> th.obj < |objs| && objs[th.obj] == Object(th.id, th.bytes, Flying(t))
  }

  predicate ThreadsHold(s: State) {
    forall t | t in s.threads :: ThreadHolds(s.objs, t, s.threads[t])
  }

  predicate MappingGood(objs: seq<Object>, installed: map<nat, nat>, m: Mapping) {
    && m.id in installed && installed[m.id] == m.obj
    && m.obj < |objs| && objs[m.obj].surface == m.id && m.size <= objs[m.obj].bytes
  }

  /** Every mapping was given the object of the surface it pinned, at least as long as it asked. */
  predicate MappingsGood(s: State) {
    forall k | 0 <= k < |s.mappings| :: MappingGood(s.objs, s.installed, s.mappings[k])
  }

  /** How many objects are at a place. */
  function At(objs: seq<Object>, place: Place): nat {
    if objs == [] then 0
    else At(objs[..|objs| - 1], place) + if objs[|objs| - 1].place == place then 1 else 0
  }

  /** The counter law. An object detached and not yet released is neither installed nor deallocated. */
  predicate Conserved(s: State) {
    && s.allocs + s.installLost + s.orphaned == s.deallocs + Installed(s.table.surfaces) + At(s.objs, Retiring(Destroyed))
    && s.deallocs == At(s.objs, Released)
  }

  predicate Inv(s: State) {
    TableInv(s.table) && ObjectsOwned(s) && InstalledOrigins(s) && ThreadsPinned(s) && ThreadsHold(s)
    && MappingsGood(s) && Conserved(s)
  }

  // ------------------------------------------------------------------------------------
  // Moving one object.
  // ------------------------------------------------------------------------------------

  lemma AtSnoc(objs: seq<Object>, o: Object, place: Place)
    ensures At(objs + [o], place) == At(objs, place) + if o.place == place then 1 else 0
  {
    assert (objs + [o])[..|objs|] == objs;
  }

  lemma {:induction false} AtMove(objs: seq<Object>, obj: nat, to: Place, place: Place)
    requires obj < |objs|
    ensures At(Move(objs, obj, to), place) + (if objs[obj].place == place then 1 else 0)
         == At(objs, place) + (if to == place then 1 else 0)
    decreases |objs|
  {
    var front, last := objs[..|objs| - 1], objs[|objs| - 1];
    if obj == |front| {
      assert Move(objs, obj, to) == front + [last.(place := to)];
      AtSnoc(front, last.(place := to), place);
    } else {
      AtMove(front, obj, to, place);
      assert Move(objs, obj, to) == Move(front, obj, to) + [last];
      AtSnoc(Move(front, obj, to), last, place);
    }
  }

  /** An object that no surface owns and no other thread holds can be moved. */
  lemma MoveKeepsLinks(s: State, obj: nat, to: Place, t: State)
    requires t == s.(objs := Move(s.objs, obj, to), threads := t.threads, mappings := t.mappings, allocs := t.allocs,
                     deallocs := t.deallocs, installLost := t.installLost, orphaned := t.orphaned)
    requires obj < |s.objs| && s.objs[obj].place != Owned
    requires ObjectsOwned(s) && InstalledOrigins(s)
    ensures ObjectsOwned(t) && InstalledOrigins(t)
  {
  }

  lemma MoveKeepsHolders(s: State, obj: nat, to: Place, threads: map<nat, Thread>)
    requires ThreadsHold(s) && obj < |s.objs|
    requires forall t | t in threads :: t in s.threads && threads[t] == s.threads[t] && s.objs[obj].place != Flying(t)
    ensures ThreadsHold(s.(objs := Move(s.objs, obj, to), threads := threads))
  {
  }

  lemma MoveKeepsMappings(s: State, obj: nat, to: Place)
    requires MappingsGood(s)
    ensures MappingsGood(s.(objs := Move(s.objs, obj, to)))
  {
  }

  // ------------------------------------------------------------------------------------
  // The steps keep the invariant.
  // ------------------------------------------------------------------------------------

  lemma CreateStepKeepsInv(s: State, width: nat, height: nat, format: nat)
    requires Inv(s)
    ensures Inv(s.(table := Create(s.table, width, height, format).0))
  {
    CreateKeepsInv(s.table, width, height, format);
    var (table, status) := Create(s.table, width, height, format);
    if status.Ok? {
      var sf := table.surfaces[|s.table.surfaces|];
      InstalledSnoc(s.table.surfaces, sf);
      assert SurfaceObject(s.objs, s.installed, sf);
    }
  }

  lemma DetachKeepsLinks(s: State, i: nat)
    requires TableInv(s.table) && i < |s.table.surfaces|
    requires ObjectsOwned(s) && ThreadsPinned(s)
    ensures ObjectsOwned(DetachAt(s, i)) && ThreadsPinned(DetachAt(s, i))
  {
    var list, rest := s.table.surfaces, DetachAt(s, i).table.surfaces;
    assert forall k | 0 <= k < |rest| :: rest[k] == list[if k < i then k else k + 1];
  }

  lemma DetachKeepsHolders(s: State, i: nat)
    requires ObjectsOwned(s) && i < |s.table.surfaces|
    requires InstalledOrigins(s) && ThreadsHold(s) && MappingsGood(s)
    ensures InstalledOrigins(DetachAt(s, i)) && ThreadsHold(DetachAt(s, i)) && MappingsGood(DetachAt(s, i))
  {
    assert SurfaceObject(s.objs, s.installed, s.table.surfaces[i]);
    match s.table.surfaces[i].vmobj
    case None =>
    case Some(obj) =>
      MoveKeepsHolders(s, obj, Retiring(Destroyed), s.threads);
      MoveKeepsMappings(s, obj, Retiring(Destroyed));
  }

  lemma DetachConserves(s: State, i: nat)
    requires ObjectsOwned(s) && Conserved(s) && i < |s.table.surfaces|
    ensures Conserved(DetachAt(s, i))
  {
    InstalledWithout(s.table.surfaces, i);
    assert SurfaceObject(s.objs, s.installed, s.table.surfaces[i]);
    match s.table.surfaces[i].vmobj
    case None =>
    case Some(obj) =>
      AtMove(s.objs, obj, Retiring(Destroyed), Retiring(Destroyed));
      AtMove(s.objs, obj, Retiring(Destroyed), Released);
  }

  lemma DetachStepKeepsInv(s: State, i: nat)
    requires Inv(s) && i < |s.table.surfaces|
    ensures Inv(DetachAt(s, i))
  {
    DetachKeepsInv(s.table, i);
    DetachKeepsLinks(s, i);
    DetachKeepsHolders(s, i);
    DetachConserves(s, i);
  }

  lemma BeginStepKeepsInv(s: State, thread: nat, size: nat)
    requires Inv(s) && thread !in s.threads
    ensures Inv(BeginAt(s, thread, size))
  {
    var i := Find(s.table.surfaces, s.table.mapId, 0);
    if i < |s.table.surfaces| {
      assert SurfaceObject(s.objs, s.installed, s.table.surfaces[i]);
    }
    match Begin(s.table, size)
    case Failed(_) =>
    case Fast(id, obj) => AddMappingKeepsInv(s, Mapping(id, obj, size));
    case Pin(id, bytes) => PinKeepsInv(s, thread, Pinned(id, bytes, size), i);
  }

  lemma PinKeepsInv(s: State, thread: nat, th: Thread, i: nat)
    requires Inv(s) && thread !in s.threads && i < |s.table.surfaces|
    requires th.Pinned? && th.id == s.table.surfaces[i].id && th.bytes == s.table.surfaces[i].bytes && th.size <= th.bytes
    ensures Inv(s.(threads := s.threads[thread := th]))
  {
  }

  lemma AllocateKeepsLinks(s: State, thread: nat, ok: bool)
    requires thread in s.threads && s.threads[thread].Pinned?
    requires ObjectsOwned(s) && InstalledOrigins(s) && MappingsGood(s)
    ensures var t := AllocateAt(s, thread, ok); ObjectsOwned(t) && InstalledOrigins(t) && MappingsGood(t)
  {
    var t := AllocateAt(s, thread, ok);
    assert forall o | 0 <= o < |s.objs| :: t.objs[o] == s.objs[o];
  }

  lemma AllocateKeepsHolders(s: State, thread: nat, ok: bool)
    requires thread in s.threads && s.threads[thread].Pinned?
    requires ThreadsPinned(s) && ThreadsHold(s)
    ensures var t := AllocateAt(s, thread, ok); ThreadsPinned(t) && ThreadsHold(t)
  {
  }

  lemma AllocateStepKeepsInv(s: State, thread: nat, ok: bool)
    requires Inv(s) && thread in s.threads && s.threads[thread].Pinned?
    ensures Inv(AllocateAt(s, thread, ok))
  {
    AllocateKeepsLinks(s, thread, ok);
    AllocateKeepsHolders(s, thread, ok);
    var o := Object(s.threads[thread].id, s.threads[thread].bytes, Flying(thread));
    AtSnoc(s.objs, o, Retiring(Destroyed));
    AtSnoc(s.objs, o, Released);
  }

  /** The thread leaves and its object goes to be released. */
  function Yielded(s: State, thread: nat, obj: nat, cause: Cause): State {
    s.(threads := s.threads - {thread}, objs := Move(s.objs, obj, Retiring(cause)))
  }

  lemma YieldKeepsInv(s: State, thread: nat, cause: Cause)
    requires Inv(s) && thread in s.threads && s.threads[thread].Allocated? && cause != Destroyed
    ensures Inv(Yielded(s, thread, s.threads[thread].obj, cause))
  {
    var obj := s.threads[thread].obj;
    assert ThreadHolds(s.objs, thread, s.threads[thread]);
    MoveKeepsLinks(s, obj, Retiring(cause), Yielded(s, thread, obj, cause));
    MoveKeepsHolders(s, obj, Retiring(cause), s.threads - {thread});
    MoveKeepsMappings(s, obj, Retiring(cause));
    AtMove(s.objs, obj, Retiring(cause), Retiring(Destroyed));
    AtMove(s.objs, obj, Retiring(cause), Released);
  }

  /** The surface at `i` gets the thread's object. */
  function Installing(s: State, thread: nat, i: nat): State
    requires i < |s.table.surfaces| && thread in s.threads && s.threads[thread].Allocated?
  {
    var Allocated(id, bytes, size, obj) := s.threads[thread];
    s.(threads := s.threads - {thread}, table := Install(s.table, i, obj), objs := Move(s.objs, obj, Owned),
       mappings := s.mappings + [Mapping(id, obj, size)], installed := s.installed[id := obj], allocs := s.allocs + 1)
  }

  predicate CanInstall(s: State, thread: nat, i: nat) {
    && i < |s.table.surfaces| && thread in s.threads && s.threads[thread].Allocated?
    && s.table.surfaces[i].id == s.threads[thread].id && s.table.surfaces[i].vmobj.None?
    && ThreadHolds(s.objs, thread, s.threads[thread])
    && ThreadPinned(s.table.surfaces, s.table.nextId, s.threads[thread])
  }

  lemma InstallKeepsOwners(s: State, thread: nat, i: nat)
    requires CanInstall(s, thread, i) && IdsAscend(s.table.surfaces, s.table.nextId) && ObjectsOwned(s)
    ensures ObjectsOwned(Installing(s, thread, i))
  {
    var t := Installing(s, thread, i);
    forall k | 0 <= k < |s.table.surfaces|
      ensures SurfaceObject(t.objs, t.installed, t.table.surfaces[k])
    {
      assert SurfaceObject(s.objs, s.installed, s.table.surfaces[k]);
      assert k != i ==> s.table.surfaces[k].id != s.table.surfaces[i].id;
    }
  }

  lemma InstallKeepsOrigins(s: State, thread: nat, i: nat)
    requires CanInstall(s, thread, i) && InstalledOrigins(s)
    ensures InstalledOrigins(Installing(s, thread, i))
  {
  }

  lemma InstallKeepsThreads(s: State, thread: nat, i: nat)
    requires CanInstall(s, thread, i) && ThreadsHold(s) && ThreadsPinned(s)
    ensures ThreadsHold(Installing(s, thread, i)) && ThreadsPinned(Installing(s, thread, i))
  {
    var t := Installing(s, thread, i);
    MoveKeepsHolders(s, s.threads[thread].obj, Owned, s.threads - {thread});
    assert forall k | 0 <= k < |s.table.surfaces| ::
        t.table.surfaces[k].id == s.table.surfaces[k].id && t.table.surfaces[k].bytes == s.table.surfaces[k].bytes;
  }

  lemma InstallKeepsMappings(s: State, thread: nat, i: nat)
    requires CanInstall(s, thread, i) && ObjectsOwned(s) && MappingsGood(s)
    ensures MappingsGood(Installing(s, thread, i))
  {
    assert SurfaceObject(s.objs, s.installed, s.table.surfaces[i]);
  }

  lemma InstallConserves(s: State, thread: nat, i: nat)
    requires CanInstall(s, thread, i) && Conserved(s)
    ensures Conserved(Installing(s, thread, i))
  {
    var obj := s.threads[thread].obj;
    InstalledUpdate(s.table.surfaces, i, s.table.surfaces[i].(vmobj := Some(obj)));
    AtMove(s.objs, obj, Owned, Retiring(Destroyed));
    AtMove(s.objs, obj, Owned, Released);
  }

  lemma InstallStepKeepsInv(s: State, thread: nat, i: nat)
    requires Inv(s) && CanInstall(s, thread, i)
    ensures Inv(Installing(s, thread, i))
  {
    InstallKeepsInv(s.table, i, s.threads[thread].obj);
    InstallKeepsOwners(s, thread, i);
    InstallKeepsOrigins(s, thread, i);
    InstallKeepsThreads(s, thread, i);
    InstallKeepsMappings(s, thread, i);
    InstallConserves(s, thread, i);
  }

  lemma AddMappingKeepsInv(s: State, m: Mapping)
    requires Inv(s) && MappingGood(s.objs, s.installed, m)
    ensures Inv(s.(mappings := s.mappings + [m]))
  {
  }

  lemma FinishStepKeepsInv(s: State, thread: nat)
    requires Inv(s) && thread in s.threads && s.threads[thread].Allocated?
    ensures Inv(FinishAt(s, thread))
  {
    var Allocated(id, bytes, size, obj) := s.threads[thread];
    var i := Find(s.table.surfaces, id, 0);
    assert ThreadHolds(s.objs, thread, s.threads[thread]);
    assert ThreadPinned(s.table.surfaces, s.table.nextId, s.threads[thread]);
    if i == |s.table.surfaces| {
      YieldKeepsInv(s, thread, Orphaned);
    } else {
      assert SurfaceObject(s.objs, s.installed, s.table.surfaces[i]);
      match s.table.surfaces[i].vmobj
      case None => InstallStepKeepsInv(s, thread, i);
      case Some(theirs) =>
        YieldKeepsInv(s, thread, LostRace);
        AddMappingKeepsInv(Yielded(s, thread, obj, LostRace), Mapping(id, theirs, size));
    }
  }

  lemma ReleaseStepKeepsInv(s: State, obj: nat)
    requires Inv(s) && obj < |s.objs| && s.objs[obj].place.Retiring?
    ensures Inv(ReleaseAt(s, obj))
  {
    MoveKeepsLinks(s, obj, Released, ReleaseAt(s, obj));
    MoveKeepsHolders(s, obj, Released, s.threads);
    MoveKeepsMappings(s, obj, Released);
    AtMove(s.objs, obj, Released, Retiring(Destroyed));
    AtMove(s.objs, obj, Released, Released);
  }

  lemma SelectStepKeepsInv(s: State, id: nat)
    requires Inv(s)
    ensures Inv(s.(table := Select(s.table, id).0))
  {
    SelectKeepsInv(s.table, id);
  }

  lemma StepKeepsInv(s: State, step: Step)
    requires Inv(s) && Enabled(s, step)
    ensures Inv(Apply(s, step))
  {
    match step
    case CreateStep(width, height, format) => CreateStepKeepsInv(s, width, height, format);
    case DestroyStep(id) =>
      if id != 0 && Find(s.table.surfaces, id, 0) < |s.table.surfaces| {
        DetachStepKeepsInv(s, Find(s.table.surfaces, id, 0));
      }
    case FreeFirst => DetachStepKeepsInv(s, 0);
    case SelectStep(id) => SelectStepKeepsInv(s, id);
    case BeginStep(thread, size) => BeginStepKeepsInv(s, thread, size);
    case AllocateStep(thread, ok) => AllocateStepKeepsInv(s, thread, ok);
    case FinishStep(thread) => FinishStepKeepsInv(s, thread);
    case ReleaseStep(obj) => ReleaseStepKeepsInv(s, obj);
  }

  // ------------------------------------------------------------------------------------
  // Nothing leaks.
  // ------------------------------------------------------------------------------------

  predicate Owner(list: seq<Surface>, obj: nat) {
    exists i :: 0 <= i < |list| && list[i].vmobj == Some(obj)
  }

  predicate HeldBySomeone(list: seq<Surface>, threads: map<nat, Thread>, obj: nat, place: Place) {
    match place
    case Flying(t) => t in threads && threads[t].Allocated? && threads[t].obj == obj
    case Owned => Owner(list, obj)
    case Retiring(_) => true
    case Released => true
  }

  /** An object in flight is still held by its thread, an owned one by a surface of the list. */
  predicate AllHeld(s: State) {
    forall o | 0 <= o < |s.objs| :: HeldBySomeone(s.table.surfaces, s.threads, o, s.objs[o].place)
  }

  lemma CreateKeepsHeld(s: State, width: nat, height: nat, format: nat)
    requires AllHeld(s)
    ensures AllHeld(s.(table := Create(s.table, width, height, format).0))
  {
    var list, more := s.table.surfaces, Create(s.table, width, height, format).0.surfaces;
    assert forall i | 0 <= i < |list| :: more[i] == list[i];
  }

  lemma DetachKeepsHeld(s: State, i: nat)
    requires AllHeld(s) && i < |s.table.surfaces|
    ensures AllHeld(DetachAt(s, i))
  {
    var list, t := s.table.surfaces, DetachAt(s, i);
    forall o | 0 <= o < |t.objs|
      ensures HeldBySomeone(t.table.surfaces, t.threads, o, t.objs[o].place)
    {
      assert HeldBySomeone(list, s.threads, o, s.objs[o].place);
      if t.objs[o].place == Owned {
        var k :| 0 <= k < |list| && list[k].vmobj == Some(o);
        assert t.table.surfaces[if k < i then k else k - 1].vmobj == Some(o);
      }
    }
  }

  lemma FinishKeepsHeld(s: State, thread: nat)
    requires AllHeld(s) && ThreadsHold(s) && thread in s.threads && s.threads[thread].Allocated?
    ensures AllHeld(FinishAt(s, thread))
  {
    var list, t := s.table.surfaces, FinishAt(s, thread);
    var Allocated(id, bytes, size, obj) := s.threads[thread];
    var at := Find(list, id, 0);
    assert ThreadHolds(s.objs, thread, s.threads[thread]);
    forall o | 0 <= o < |t.objs|
      ensures HeldBySomeone(t.table.surfaces, t.threads, o, t.objs[o].place)
    {
      assert HeldBySomeone(list, s.threads, o, s.objs[o].place);
      if o == obj && t.objs[o].place == Owned {
        assert t.table.surfaces[at].vmobj == Some(o);
      } else if t.objs[o].place == Owned {
        var k :| 0 <= k < |list| && list[k].vmobj == Some(o);
        assert t.table.surfaces[k].vmobj == Some(o);
      }
    }
  }

  lemma AllocateKeepsHeld(s: State, thread: nat, ok: bool)
    requires AllHeld(s) && thread in s.threads && s.threads[thread].Pinned?
    ensures AllHeld(AllocateAt(s, thread, ok))
  {
    var t := AllocateAt(s, thread, ok);
    forall o | 0 <= o < |t.objs|
      ensures HeldBySomeone(t.table.surfaces, t.threads, o, t.objs[o].place)
    {
      if o < |s.objs| {
        assert HeldBySomeone(s.table.surfaces, s.threads, o, s.objs[o].place);
      }
    }
  }

  lemma StepKeepsHeld(s: State, step: Step)
    requires ThreadsHold(s) && AllHeld(s) && Enabled(s, step)
    ensures AllHeld(Apply(s, step))
  {
    match step
    case CreateStep(width, height, format) => CreateKeepsHeld(s, width, height, format);
    case DestroyStep(id) =>
      if id != 0 && Find(s.table.surfaces, id, 0) < |s.table.surfaces| {
        DetachKeepsHeld(s, Find(s.table.surfaces, id, 0));
      }
    case FreeFirst => DetachKeepsHeld(s, 0);
    case SelectStep(id) =>
    case BeginStep(thread, size) =>
    case AllocateStep(thread, ok) => AllocateKeepsHeld(s, thread, ok);
    case FinishStep(thread) => FinishKeepsHeld(s, thread);
    case ReleaseStep(obj) =>
  }

  // ------------------------------------------------------------------------------------
  // What never changes.
  // ------------------------------------------------------------------------------------

  predicate SameObject(a: Object, b: Object) {
    a.surface == b.surface && a.bytes == b.bytes && (a.place == Released ==> b.place == Released)
  }

  /** Ids are not reused, an installed object stays the surface's object, a released one stays released. */
  predicate Forward(s: State, t: State) {
    && s.table.nextId <= t.table.nextId
    && (forall id | id in s.installed :: id in t.installed && t.installed[id] == s.installed[id])
    && |s.objs| <= |t.objs| && (forall o | 0 <= o < |s.objs| :: SameObject(s.objs[o], t.objs[o]))
    && s.mappings <= t.mappings
  }

  /** Ids given out before and dead now stay dead. */
  predicate DeadStayDead(s: State, t: State) {
    forall i | 0 <= i < |t.table.surfaces| && t.table.surfaces[i].id < s.table.nextId ::
      Live(s.table.surfaces, t.table.surfaces[i].id)
  }

  lemma FinishGoesForward(s: State, thread: nat)
    requires ObjectsOwned(s) && ThreadsHold(s) && thread in s.threads && s.threads[thread].Allocated?
    ensures Forward(s, FinishAt(s, thread))
  {
    var id := s.threads[thread].id;
    var i := Find(s.table.surfaces, id, 0);
    assert ThreadHolds(s.objs, thread, s.threads[thread]);
    if i < |s.table.surfaces| {
      assert SurfaceObject(s.objs, s.installed, s.table.surfaces[i]);
    }
  }

  lemma DetachGoesForward(s: State, i: nat)
    requires ObjectsOwned(s) && i < |s.table.surfaces|
    ensures Forward(s, DetachAt(s, i))
  {
    assert SurfaceObject(s.objs, s.installed, s.table.surfaces[i]);
  }

  lemma StepGoesForward(s: State, step: Step)
    requires ObjectsOwned(s) && ThreadsHold(s) && Enabled(s, step)
    ensures Forward(s, Apply(s, step))
  {
    match step
    case CreateStep(width, height, format) =>
    case DestroyStep(id) =>
      if id != 0 && Find(s.table.surfaces, id, 0) < |s.table.surfaces| {
        DetachGoesForward(s, Find(s.table.surfaces, id, 0));
      }
    case FreeFirst => DetachGoesForward(s, 0);
    case SelectStep(id) =>
    case BeginStep(thread, size) =>
    case AllocateStep(thread, ok) =>
    case FinishStep(thread) => FinishGoesForward(s, thread);
    case ReleaseStep(obj) => ReleaseGoesForward(s, obj);
  }

  lemma ReleaseGoesForward(s: State, obj: nat)
    requires obj < |s.objs| && s.objs[obj].place.Retiring?
    ensures Forward(s, ReleaseAt(s, obj))
  {
  }

  lemma StepRevivesNothing(s: State, step: Step)
    requires Enabled(s, step)
    ensures DeadStayDead(s, Apply(s, step))
  {
    match step
    case DestroyStep(id) =>
      if id != 0 && Find(s.table.surfaces, id, 0) < |s.table.surfaces| {
        DetachRevivesNothing(s, Find(s.table.surfaces, id, 0));
      } else {
        SameIdsReviveNothing(s, s);
      }
    case FreeFirst => DetachRevivesNothing(s, 0);
    case _ => SameIdsReviveNothing(s, Apply(s, step));
  }

  lemma DetachRevivesNothing(s: State, i: nat)
    requires i < |s.table.surfaces|
    ensures DeadStayDead(s, DetachAt(s, i))
  {
    var list, rest := s.table.surfaces, DetachAt(s, i).table.surfaces;
    forall k | 0 <= k < |rest|
      ensures Live(list, rest[k].id)
    {
      assert rest[k] == list[if k < i then k else k + 1];
    }
  }

  /** The list is the same up to objects, but for surfaces with new ids behind it. */
  lemma SameIdsReviveNothing(s: State, t: State)
    requires |s.table.surfaces| <= |t.table.surfaces|
    requires forall i | 0 <= i < |t.table.surfaces| ::
               if i < |s.table.surfaces| then t.table.surfaces[i].id == s.table.surfaces[i].id
               else t.table.surfaces[i].id >= s.table.nextId
    ensures DeadStayDead(s, t)
  {
    forall i | 0 <= i < |t.table.surfaces| && t.table.surfaces[i].id < s.table.nextId
      ensures Live(s.table.surfaces, t.table.surfaces[i].id)
    {
      assert s.table.surfaces[i].id == t.table.surfaces[i].id;
    }
  }

  // ------------------------------------------------------------------------------------
  // Runs.
  // ------------------------------------------------------------------------------------

  ghost predicate Legal(s: State, steps: seq<Step>)
    decreases |steps|
  {
    steps == [] || (Enabled(s, steps[0]) && Legal(Apply(s, steps[0]), steps[1..]))
  }

  ghost function Run(s: State, steps: seq<Step>): State
    requires Legal(s, steps)
    decreases |steps|
  {
    if steps == [] then s else Run(Apply(s, steps[0]), steps[1..])
  }

  lemma ForwardIsTransitive(s: State, t: State, u: State)
    requires Forward(s, t) && Forward(t, u)
    ensures Forward(s, u)
  {
    forall o | 0 <= o < |s.objs|
      ensures SameObject(s.objs[o], u.objs[o])
    {
      assert SameObject(s.objs[o], t.objs[o]) && SameObject(t.objs[o], u.objs[o]);
    }
  }

  lemma DeadIsTransitive(s: State, t: State, u: State)
    requires DeadStayDead(s, t) && DeadStayDead(t, u) && s.table.nextId <= t.table.nextId
    ensures DeadStayDead(s, u)
  {
    forall i | 0 <= i < |u.table.surfaces| && u.table.surfaces[i].id < s.table.nextId
      ensures Live(s.table.surfaces, u.table.surfaces[i].id)
    {
      var k :| 0 <= k < |t.table.surfaces| && t.table.surfaces[k].id == u.table.surfaces[i].id;
    }
  }

  lemma {:induction false} RunKeepsAll(s: State, steps: seq<Step>)
    requires Inv(s) && AllHeld(s) && Legal(s, steps)
    ensures var t := Run(s, steps); Inv(t) && AllHeld(t) && Forward(s, t) && DeadStayDead(s, t)
    decreases |steps|
  {
    if steps != [] {
      var m, t := Apply(s, steps[0]), Run(s, steps);
      StepKeepsInv(s, steps[0]);
      StepKeepsHeld(s, steps[0]);
      StepGoesForward(s, steps[0]);
      StepRevivesNothing(s, steps[0]);
      RunKeepsAll(m, steps[1..]);
      ForwardIsTransitive(s, m, t);
      DeadIsTransitive(s, m, t);
    }
  }

  ghost predicate Reachable(s: State) {
    exists bound, steps :: Legal(Init(bound), steps) && Run(Init(bound), steps) == s
  }

  lemma InitIsSound(bound: bool)
    ensures Inv(Init(bound)) && AllHeld(Init(bound))
  {
  }

  lemma ReachableIsSound(s: State)
    requires Reachable(s)
    ensures Inv(s) && AllHeld(s)
  {
    var bound, steps :| Legal(Init(bound), steps) && Run(Init(bound), steps) == s;
    InitIsSound(bound);
    RunKeepsAll(Init(bound), steps);
  }

  // ------------------------------------------------------------------------------------
  // The laws.
  // ------------------------------------------------------------------------------------

  /** Ids are unique and below the next one, the accounts match the list, the selection is live. */
  lemma TableLaws(s: State)
    requires Reachable(s)
    ensures forall i, j | 0 <= i < j < |s.table.surfaces| :: s.table.surfaces[i].id != s.table.surfaces[j].id
    ensures forall i | 0 <= i < |s.table.surfaces| :: 0 < s.table.surfaces[i].id < s.table.nextId
    ensures s.table.count == |s.table.surfaces| <= MAX_SURFACES
    ensures s.table.bytes == TotalBytes(s.table.surfaces) <= MAX_SESSION_BYTES
    ensures s.table.mapId == 0 || Live(s.table.surfaces, s.table.mapId)
  {
    ReachableIsSound(s);
  }

  /** A surface that lives on keeps the object it was given, and its size. */
  lemma InstalledObjectNeverReplaced(s: State, steps: seq<Step>, i: nat, j: nat)
    requires Reachable(s) && Legal(s, steps)
    requires i < |s.table.surfaces| && s.table.surfaces[i].vmobj.Some?
    requires j < |Run(s, steps).table.surfaces| && Run(s, steps).table.surfaces[j].id == s.table.surfaces[i].id
    ensures Run(s, steps).table.surfaces[j].vmobj == s.table.surfaces[i].vmobj
    ensures Run(s, steps).table.surfaces[j].bytes == s.table.surfaces[i].bytes
  {
    ReachableIsSound(s);
    RunKeepsAll(s, steps);
    var t := Run(s, steps);
    assert SurfaceObject(s.objs, s.installed, s.table.surfaces[i]);
    assert SurfaceObject(t.objs, t.installed, t.table.surfaces[j]);
    assert SameObject(s.objs[s.table.surfaces[i].vmobj.value], t.objs[s.table.surfaces[i].vmobj.value]);
  }

  /** Two mappings have the same object exactly when they pinned the same surface, and neither is longer than it. */
  lemma MappingsShareIffSameSurface(s: State, k: nat, l: nat)
    requires Reachable(s) && k < |s.mappings| && l < |s.mappings|
    ensures s.mappings[k].obj == s.mappings[l].obj <==> s.mappings[k].id == s.mappings[l].id
    ensures s.mappings[k].obj < |s.objs| && s.mappings[k].size <= s.objs[s.mappings[k].obj].bytes
  {
    ReachableIsSound(s);
    assert MappingGood(s.objs, s.installed, s.mappings[k]) && MappingGood(s.objs, s.installed, s.mappings[l]);
  }

  /** mmap succeeds at its second lock hold iff the pinned surface still lives, and then gets that surface's current object. */
  lemma FinishHandsThePinnedSurface(s: State, thread: nat)
    requires Enabled(s, FinishStep(thread))
    ensures var t, th := FinishAt(s, thread), s.threads[thread];
            if Live(s.table.surfaces, th.id)
            then exists i :: 0 <= i < |t.table.surfaces| && t.table.surfaces[i].id == th.id && t.table.surfaces[i].vmobj.Some?
                             && t.mappings == s.mappings + [Mapping(th.id, t.table.surfaces[i].vmobj.value, th.size)]
            else t.mappings == s.mappings
  {
    var t, th := FinishAt(s, thread), s.threads[thread];
    LiveIsFound(s.table.surfaces, th.id);
    var i := Find(s.table.surfaces, th.id, 0);
    if i < |s.table.surfaces| {
      assert t.table.surfaces[i].id == th.id && t.table.surfaces[i].vmobj.Some?;
    }
  }

  /** Undisturbed, mmap of the selected surface succeeds: with the object it has, or with a new one that it then has. */
  lemma UndisturbedMmapSucceeds(s: State, i: nat, thread: nat, size: nat)
    requires Inv(s) && thread !in s.threads && i < |s.table.surfaces| && s.table.mapId == s.table.surfaces[i].id
    requires size <= s.table.surfaces[i].bytes
    ensures var sf, a := s.table.surfaces[i], BeginAt(s, thread, size);
            if sf.vmobj.Some? then a == s.(mappings := s.mappings + [Mapping(sf.id, sf.vmobj.value, size)])
            else
              && Enabled(a, AllocateStep(thread, true)) && Enabled(AllocateAt(a, thread, true), FinishStep(thread))
              && var b := FinishAt(AllocateAt(a, thread, true), thread);
                 && b.mappings == s.mappings + [Mapping(sf.id, |s.objs|, size)]
                 && b.table.surfaces == s.table.surfaces[i := sf.(vmobj := Some(|s.objs|))] && b.threads == s.threads
  {
    BeginAnswers(s.table, i, size);
    FinishAnswers(s.table, i, |s.objs|);
  }

  /** allocs + races lost = deallocs + installed, once no destroyed surface's object is waiting to be released. */
  lemma CountersConserved(s: State)
    requires Reachable(s) && (forall o | 0 <= o < |s.objs| :: s.objs[o].place != Retiring(Destroyed))
    ensures s.allocs + (s.installLost + s.orphaned) == s.deallocs + Installed(s.table.surfaces)
  {
    ReachableIsSound(s);
    NoneAt(s.objs, Retiring(Destroyed));
  }

  lemma {:induction false} NoneAt(objs: seq<Object>, place: Place)
    requires forall o | 0 <= o < |objs| :: objs[o].place != place
    ensures At(objs, place) == 0
    decreases |objs|
  {
    if objs != [] {
      NoneAt(objs[..|objs| - 1], place);
    }
  }

  lemma {:induction false} AllAt(objs: seq<Object>, place: Place)
    requires forall o | 0 <= o < |objs| :: objs[o].place == place
    ensures At(objs, place) == |objs|
    decreases |objs|
  {
    if objs != [] {
      AllAt(objs[..|objs| - 1], place);
    }
  }

  /** When the table is empty and no mmap or release is under way, every object ever allocated was released, once. */
  lemma NothingLeaks(s: State)
    requires Reachable(s) && s.table.surfaces == [] && s.threads == map[]
    requires forall o | 0 <= o < |s.objs| :: !s.objs[o].place.Retiring?
    ensures forall o | 0 <= o < |s.objs| :: s.objs[o].place == Released
    ensures s.deallocs == |s.objs| == s.allocs + s.installLost + s.orphaned
  {
    ReachableIsSound(s);
    forall o | 0 <= o < |s.objs|
      ensures s.objs[o].place == Released
    {
      assert HeldBySomeone(s.table.surfaces, s.threads, o, s.objs[o].place);
    }
    AllAt(s.objs, Released);
    CountersConserved(s);
  }
}
