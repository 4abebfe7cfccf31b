/**
 The surface table of a drawfs session: creation with its size and quota checks, lookup by
 id, destruction, selection for mmap, and teardown. Ids are never reused.
 */
module SurfaceTable {

  const MAX_SURFACES: nat := 64
  const MAX_SURFACE_BYTES: nat := 0x400_0000
  const MAX_SESSION_BYTES: nat := 0x1000_0000
  const FMT_XRGB8888: nat := 1
  const U32: nat := 0x1_0000_0000
  const U64: nat := 0x1_0000_0000_0000_0000

  datatype Option<T> = None | Some(value: T)

  /** The identity of a VM object is a number. */
  datatype Surface = Surface(id: nat, width: nat, height: nat, stride: nat, bytes: nat, vmobj: Option<nat>)

  datatype Table = Table(bound: bool, surfaces: seq<Surface>, nextId: nat, count: nat, bytes: nat, mapId: nat)

  function Empty(bound: bool): Table {
    Table(bound, [], 1, 0, 0, 0)
  }

  datatype Status = Ok | EINVAL | ENOENT | EFBIG | ENOSPC | EPROTONOSUPPORT

  // ------------------------------------------------------------------------------------
  // Sizes: the driver multiplies in 64 bits and stores 32.
  // ------------------------------------------------------------------------------------

  function Total64(width: nat, height: nat): nat {
    (width * 4 % U64) * height % U64
  }

  /** Whether the request is refused before the table is looked at. */
  function SizeStatus(bound: bool, width: nat, height: nat, format: nat): Status {
    if !bound || width == 0 || height == 0 then EINVAL
    else if format != FMT_XRGB8888 then EPROTONOSUPPORT
    else if Total64(width, height) == 0 || Total64(width, height) > MAX_SURFACE_BYTES then EFBIG
    else Ok
  }

  lemma ProductBound(a: nat, b: nat)
    requires b > 0
    ensures a <= a * b
  {
    var c := b - 1;
    assert a * b == a * c + a;
    assert a * c >= 0;
  }

  lemma WrapsIff(stride: nat, total: nat)
    requires total % U64 <= MAX_SURFACE_BYTES && stride <= total
    ensures total % U64 % U32 == total && stride % U32 == stride <==> total < U64
  {
    if total < U64 {
      assert total % U64 == total;
    }
  }

  /** An accepted request is stored with its true stride and size exactly when 4 * width * height fits 64 bits. */
  lemma StoredSizeExactIff(bound: bool, width: nat, height: nat, format: nat)
    requires width < U32 && height < U32 && SizeStatus(bound, width, height, format).Ok?
    ensures (Total64(width, height) % U32 == 4 * width * height && width * 4 % U32 == 4 * width) <==> 4 * width * height < U64
  {
    ProductBound(width * 4, height);
    assert width * 4 * height == 4 * width * height;
    WrapsIff(width * 4, 4 * width * height);
  }

  /** In particular for every width and height below 2^31. */
  lemma StoredSizeExactBelow31Bits(bound: bool, width: nat, height: nat, format: nat)
    requires width < 0x8000_0000 && height < 0x8000_0000 && SizeStatus(bound, width, height, format).Ok?
    ensures Total64(width, height) % U32 == 4 * width * height && width * 4 % U32 == 4 * width
  {
    ProductAtMost(width, height, 0x8000_0000);
    StoredSizeExactIff(bound, width, height, format);
  }

  lemma ProductAtMost(a: nat, b: nat, bound: nat)
    requires a < bound && b < bound
    ensures a * b < bound * bound
  {
    var c := bound - a;
    assert a * b <= a * bound by {
      assert a * bound == a * b + a * (bound - b);
    }
    assert bound * bound == a * bound + c * bound;
    ProductBound(bound, c);
  }

  /** Above that the product can wrap to a small size and be accepted. */
  lemma WrappedSizeIsAccepted()
    ensures var w, h := 0x8000_B505, 0x7FFF_4AFC;
            && SizeStatus(true, w, h, FMT_XRGB8888).Ok?
            && Total64(w, h) == 166832
            && 4 * w * h == U64 + 166832
  {
  }

  // ------------------------------------------------------------------------------------
  // The operations, each one lock hold.
  // ------------------------------------------------------------------------------------

  /** The index of the first surface with this id, or the length of the list. */
  function Find(list: seq<Surface>, id: nat, from: nat): (i: nat)
    requires from <= |list|
    ensures from <= i <= |list|
    ensures i < |list| ==> list[i].id == id
    ensures forall k | from <= k < i :: list[k].id != id
    decreases |list| - from
  {
    if from == |list| || list[from].id == id then from else Find(list, id, from + 1)
  }

  predicate Live(list: seq<Surface>, id: nat) {
    exists i :: 0 <= i < |list| && list[i].id == id
  }

  function Create(t: Table, width: nat, height: nat, format: nat): (Table, Status) {
    var status := SizeStatus(t.bound, width, height, format);
    if !status.Ok? then (t, status)
    else if t.count >= MAX_SURFACES || t.bytes + Total64(width, height) > MAX_SESSION_BYTES then (t, ENOSPC)
    else
      var total := Total64(width, height);
      var surface := Surface(t.nextId, width, height, width * 4 % U32, total % U32, None);
      (t.(surfaces := t.surfaces + [surface], nextId := t.nextId + 1, count := t.count + 1, bytes := t.bytes + total), Ok)
  }

  function Without<T>(s: seq<T>, i: nat): seq<T>
    requires i < |s|
  {
    seq(|s| - 1, k requires 0 <= k < |s| - 1 => if k < i then s[k] else s[k + 1])
  }

  /** Unlink the surface at `i` and take it out of the accounts. */
  function Detach(t: Table, i: nat): Table
    requires i < |t.surfaces|
  {
    var sf := t.surfaces[i];
    t.(surfaces := Without(t.surfaces, i),
       count := if t.count > 0 then t.count - 1 else 0,
       bytes := if t.bytes >= sf.bytes then t.bytes - sf.bytes else 0,
       mapId := if t.mapId == sf.id then 0 else t.mapId)
  }

  function Destroy(t: Table, id: nat): (Table, Status) {
    var i := Find(t.surfaces, id, 0);
    if id == 0 then (t, EINVAL) else if i == |t.surfaces| then (t, ENOENT) else (Detach(t, i), Ok)
  }

  function Select(t: Table, id: nat): (Table, Status) {
    if id == 0 then (t, EINVAL)
    else if Find(t.surfaces, id, 0) == |t.surfaces| then (t, ENOENT)
    else (t.(mapId := id), Ok)
  }

  function Install(t: Table, i: nat, obj: nat): Table
    requires i < |t.surfaces|
  {
    t.(surfaces := t.surfaces[i := t.surfaces[i].(vmobj := Some(obj))])
  }

  /** The first lock hold of get_vmobj: fail, take the installed object, or pin the selected surface by id. */
  datatype Begun = Failed(status: Status) | Fast(id: nat, obj: nat) | Pin(id: nat, bytes: nat)

  function Begin(t: Table, size: nat): Begun {
    var i := Find(t.surfaces, t.mapId, 0);
    if t.mapId == 0 || i == |t.surfaces| then Failed(ENOENT)
    else if size > t.surfaces[i].bytes then Failed(EINVAL)
    else match t.surfaces[i].vmobj
      case Some(obj) => Fast(t.surfaces[i].id, obj)
      case None => Pin(t.surfaces[i].id, t.surfaces[i].bytes)
  }

  /** The second lock hold, after the allocation: the surface is gone, another thread installed first, or ours is installed. */
  datatype Finished = SurfaceGone | Lost(theirs: nat) | Won

  function Finish(t: Table, id: nat, obj: nat): (Table, Finished) {
    var i := Find(t.surfaces, id, 0);
    if i == |t.surfaces| then (t, SurfaceGone)
    else match t.surfaces[i].vmobj
      case Some(theirs) => (t, Lost(theirs))
      case None => (Install(t, i, obj), Won)
  }

  // ------------------------------------------------------------------------------------
  // What every operation keeps.
  // ------------------------------------------------------------------------------------

  function TotalBytes(list: seq<Surface>): nat {
    if list == [] then 0 else TotalBytes(list[..|list| - 1]) + list[|list| - 1].bytes
  }

  /** Ids are positive, below the next one, and ascend along the list. */
  predicate IdsAscend(list: seq<Surface>, nextId: nat) {
    && (forall i | 0 <= i < |list| :: 0 < list[i].id < nextId)
    && (forall i, j | 0 <= i < j < |list| :: list[i].id < list[j].id)
  }

  predicate Accounted(t: Table) {
    t.count == |t.surfaces| <= MAX_SURFACES && t.bytes == TotalBytes(t.surfaces) <= MAX_SESSION_BYTES
  }

  predicate SelectionLive(t: Table) {
    t.mapId == 0 || Live(t.surfaces, t.mapId)
  }

  predicate TableInv(t: Table) {
    IdsAscend(t.surfaces, t.nextId) && t.nextId > 0 && Accounted(t) && SelectionLive(t)
  }

  lemma TotalBytesSnoc(list: seq<Surface>, sf: Surface)
    ensures TotalBytes(list + [sf]) == TotalBytes(list) + sf.bytes
  {
    assert (list + [sf])[..|list|] == list;
  }

  lemma {:induction false} TotalBytesWithout(list: seq<Surface>, i: nat)
    requires i < |list|
    ensures TotalBytes(list) == TotalBytes(Without(list, i)) + list[i].bytes
    decreases |list|
  {
    var front, last := list[..|list| - 1], list[|list| - 1];
    if i == |front| {
      assert Without(list, i) == front;
    } else {
      TotalBytesWithout(front, i);
      assert Without(list, i) == Without(front, i) + [last];
      TotalBytesSnoc(Without(front, i), last);
    }
  }

  lemma {:induction false} TotalBytesSame(s: seq<Surface>, t: seq<Surface>)
    requires |s| == |t| && forall i | 0 <= i < |s| :: s[i].bytes == t[i].bytes
    ensures TotalBytes(s) == TotalBytes(t)
    decreases |s|
  {
    if s != [] {
      TotalBytesSame(s[..|s| - 1], t[..|t| - 1]);
    }
  }

  lemma LiveIsFound(list: seq<Surface>, id: nat)
    ensures Live(list, id) <==> Find(list, id, 0) < |list|
  {
  }

  lemma CreateKeepsInv(t: Table, width: nat, height: nat, format: nat)
    requires TableInv(t)
    ensures TableInv(Create(t, width, height, format).0)
  {
    var (u, status) := Create(t, width, height, format);
    if status.Ok? {
      TotalBytesSnoc(t.surfaces, u.surfaces[|t.surfaces|]);
      if t.mapId != 0 {
        var i :| 0 <= i < |t.surfaces| && t.surfaces[i].id == t.mapId;
        assert u.surfaces[i].id == t.mapId;
      }
    }
  }

  lemma DetachKeepsAccounts(t: Table, i: nat)
    requires Accounted(t) && i < |t.surfaces|
    ensures Accounted(Detach(t, i))
    ensures Detach(t, i).count == t.count - 1 && Detach(t, i).bytes == t.bytes - t.surfaces[i].bytes
  {
    TotalBytesWithout(t.surfaces, i);
  }

  /** Exactly the detached surface stops being live. */
  lemma DetachRemovesOnly(t: Table, i: nat, id: nat)
    requires IdsAscend(t.surfaces, t.nextId) && i < |t.surfaces|
    ensures Live(Detach(t, i).surfaces, id) <==> Live(t.surfaces, id) && id != t.surfaces[i].id
  {
    var list, rest := t.surfaces, Detach(t, i).surfaces;
    if Live(list, id) && id != list[i].id {
      var k :| 0 <= k < |list| && list[k].id == id;
      assert rest[if k < i then k else k - 1].id == id;
    }
    if Live(rest, id) {
      var k :| 0 <= k < |rest| && rest[k].id == id;
      var l := if k < i then k else k + 1;
      assert rest[k] == list[l];
      assert list[l].id == id && list[l].id != list[i].id;
    }
  }

  lemma DetachKeepsInv(t: Table, i: nat)
    requires TableInv(t) && i < |t.surfaces|
    ensures TableInv(Detach(t, i))
  {
    DetachKeepsAccounts(t, i);
    DetachRemovesOnly(t, i, t.mapId);
  }

  lemma InstallKeepsInv(t: Table, i: nat, obj: nat)
    requires TableInv(t) && i < |t.surfaces|
    ensures TableInv(Install(t, i, obj))
    ensures forall id :: Live(Install(t, i, obj).surfaces, id) <==> Live(t.surfaces, id)
  {
    var u := Install(t, i, obj);
    TotalBytesSame(t.surfaces, u.surfaces);
    assert forall k | 0 <= k < |t.surfaces| :: u.surfaces[k].id == t.surfaces[k].id;
  }

  lemma DestroyKeepsInv(t: Table, id: nat)
    requires TableInv(t)
    ensures TableInv(Destroy(t, id).0)
  {
    var i := Find(t.surfaces, id, 0);
    if i < |t.surfaces| {
      DetachKeepsInv(t, i);
    }
  }

  lemma SelectKeepsInv(t: Table, id: nat)
    requires TableInv(t)
    ensures TableInv(Select(t, id).0)
  {
  }

  // ------------------------------------------------------------------------------------
  // What each request is answered, case by case.
  // ------------------------------------------------------------------------------------

  /** When a create request is accepted and why it is refused, over the surfaces that live. */
  lemma CreateAnswers(t: Table, width: nat, height: nat, format: nat)
    requires TableInv(t) && width < U32 && height < U32
    ensures var total := 4 * width * height % U64;
            var proper := t.bound && width > 0 && height > 0;
            var sized := proper && format == 1 && 0 < total <= 0x400_0000;
            var fits := |t.surfaces| < 64 && TotalBytes(t.surfaces) + total <= 0x1000_0000;
            var answer := Create(t, width, height, format).1;
            && (answer.EINVAL? <==> !proper)
            && (answer.EPROTONOSUPPORT? <==> proper && format != 1)
            && (answer.EFBIG? <==> proper && format == 1 && !sized)
            && (answer.ENOSPC? <==> sized && !fits)
            && (answer.Ok? <==> sized && fits)
  {
    TotalIsProduct(width, height);
  }

  lemma TotalIsProduct(width: nat, height: nat)
    requires width < U32
    ensures Total64(width, height) == 4 * width * height % U64
  {
    assert width * 4 % U64 == width * 4;
    assert width * 4 * height == 4 * width * height;
  }

  /** An accepted request appends one surface: a new id, the dimensions asked for, and the true sizes iff they fit 64 bits. */
  lemma CreateAppends(t: Table, width: nat, height: nat, format: nat)
    requires TableInv(t) && width < U32 && height < U32 && Create(t, width, height, format).1.Ok?
    ensures var u := Create(t, width, height, format).0;
            && |u.surfaces| == |t.surfaces| + 1 && u.surfaces[..|t.surfaces|] == t.surfaces && u.mapId == t.mapId
            && var sf := u.surfaces[|t.surfaces|];
               && sf.id == t.nextId && u.nextId == t.nextId + 1 && !Live(t.surfaces, sf.id)
               && sf.width == width && sf.height == height && sf.vmobj.None?
               && (sf.bytes == 4 * width * height && sf.stride == 4 * width <==> 4 * width * height < U64)
  {
    StoredSizeExactIff(t.bound, width, height, format);
  }

  lemma FindLive(list: seq<Surface>, nextId: nat, i: nat)
    requires IdsAscend(list, nextId) && i < |list|
    ensures Find(list, list[i].id, 0) == i
  {
  }

  /** mmap of the selected surface `i`: too long, or the installed object, or a pin of its id and size. */
  lemma BeginAnswers(t: Table, i: nat, size: nat)
    requires TableInv(t) && i < |t.surfaces| && t.mapId == t.surfaces[i].id
    ensures var sf := t.surfaces[i];
            && (size > sf.bytes ==> Begin(t, size) == Failed(EINVAL))
            && (size <= sf.bytes && sf.vmobj.Some? ==> Begin(t, size) == Fast(sf.id, sf.vmobj.value))
            && (size <= sf.bytes && sf.vmobj.None? ==> Begin(t, size) == Pin(sf.id, sf.bytes))
  {
    FindLive(t.surfaces, t.nextId, i);
  }

  /** The second lock hold for surface `i`: the first to arrive installs its object, the others get that one. */
  lemma FinishAnswers(t: Table, i: nat, obj: nat)
    requires TableInv(t) && i < |t.surfaces|
    ensures var sf := t.surfaces[i];
            var (u, finished) := Finish(t, sf.id, obj);
            && (sf.vmobj.Some? ==> finished == Lost(sf.vmobj.value) && u == t)
            && (sf.vmobj.None? ==> finished == Won && u == t.(surfaces := t.surfaces[i := sf.(vmobj := Some(obj))]))
  {
    FindLive(t.surfaces, t.nextId, i);
  }

  /** Without a selection, or for an id that does not live, there is nothing to map. */
  lemma NothingToMap(t: Table, id: nat, size: nat, obj: nat)
    ensures t.mapId == 0 || !Live(t.surfaces, t.mapId) ==> Begin(t, size) == Failed(ENOENT)
    ensures !Live(t.surfaces, id) ==> Finish(t, id, obj) == (t, SurfaceGone)
  {
  }

  // ------------------------------------------------------------------------------------
  // The driver's own state.
  // ------------------------------------------------------------------------------------

  class Session {
    const bound: bool
    var surfaces: seq<Surface>
    var nextId: nat
    var count: nat
    var bytes: nat
    var mapId: nat
    var allocs: nat
    var deallocs: nat
    var installLost: nat

    ghost function Abs(): Table
      reads this
    {
      Table(bound, surfaces, nextId, count, bytes, mapId)
    }

    ghost predicate Valid()
      reads this
    {
      TableInv(Abs())
    }

    constructor (displayBound: bool)
      ensures Valid() && Abs() == Empty(displayBound)
    {
      bound, surfaces, nextId, count, bytes, mapId := displayBound, [], 1, 0, 0, 0;
      allocs, deallocs, installLost := 0, 0, 0;
    }

    /** The list walk shared by every operation. */
    method Lookup(id: nat) returns (i: nat)
      ensures i == Find(surfaces, id, 0)
    {
      i := 0;
      while i < |surfaces| && surfaces[i].id != id
        invariant i <= |surfaces|
        invariant Find(surfaces, id, i) == Find(surfaces, id, 0)
      {
        i := i + 1;
      }
    }

    method Insert(width: nat, height: nat, total64: nat) returns (id: nat, stride: nat, total: nat)
      modifies this
      ensures id == old(nextId) && stride == width * 4 % U32 && total == total64 % U32
      ensures Abs() == old(Abs()).(surfaces := old(surfaces) + [Surface(id, width, height, stride, total, None)],
                                   nextId := id + 1, count := old(count) + 1, bytes := old(bytes) + total64)
      ensures deallocs == old(deallocs)
    {
      id, stride, total := nextId, width * 4 % U32, total64 % U32;
      nextId := nextId + 1;
      surfaces := surfaces + [Surface(id, width, height, stride, total, None)];
      count, bytes := count + 1, bytes + total64;
    }

    method CreateSurface(width: nat, height: nat, format: nat) returns (status: Status, id: nat, stride: nat, total: nat)
      requires Valid() && width < U32 && height < U32
      modifies this
      ensures Valid() && (Abs(), status) == Create(old(Abs()), width, height, format)
      ensures status.Ok? ==> !Live(old(surfaces), id) && surfaces == old(surfaces) + [Surface(id, width, height, stride, total, None)]
      ensures !status.Ok? ==> id == stride == total == 0
      ensures deallocs == old(deallocs)
    {
      id, stride, total := 0, 0, 0;
      status := SizeStatus(bound, width, height, format);
      if !status.Ok? { return; }
      var total64 := Total64(width, height);
      if count >= MAX_SURFACES || bytes + total64 > MAX_SESSION_BYTES {
        status := ENOSPC;
        return;
      }
      CreateKeepsInv(Abs(), width, height, format);
      id, stride, total := Insert(width, height, total64);
    }

    method Unlink(i: nat)
      requires i < |surfaces|
      modifies this
      ensures Abs() == Detach(old(Abs()), i) && deallocs == old(deallocs) + if old(surfaces)[i].vmobj.Some? then 1 else 0
    {
      var sf := surfaces[i];
      surfaces := Without(surfaces, i);
      if count > 0 { count := count - 1; }
      if bytes >= sf.bytes { bytes := bytes - sf.bytes; } else { bytes := 0; }
      if mapId == sf.id { mapId := 0; }
      if sf.vmobj.Some? { deallocs := deallocs + 1; }
    }

    method DestroySurface(id: nat) returns (status: Status)
      requires Valid()
      modifies this
      ensures Valid() && (Abs(), status) == Destroy(old(Abs()), id)
      ensures status.Ok? <==> id != 0 && Live(old(surfaces), id)
      ensures var i := Find(old(surfaces), id, 0);
              deallocs == old(deallocs) + if status.Ok? && old(surfaces)[i].vmobj.Some? then 1 else 0
    {
      if id == 0 { return EINVAL; }
      var i := Lookup(id);
      LiveIsFound(surfaces, id);
      if i == |surfaces| { return ENOENT; }
      DestroyKeepsInv(Abs(), id);
      Unlink(i);
      return Ok;
    }

    method SelectForMmap(id: nat) returns (status: Status, stride: nat, total: nat)
      requires Valid()
      modifies this`mapId
      ensures Valid() && (Abs(), status) == Select(old(Abs()), id)
      ensures status.Ok? ==> exists i :: 0 <= i < |surfaces| && surfaces[i].id == mapId == id
                                        && surfaces[i].stride == stride && surfaces[i].bytes == total
      ensures !status.Ok? ==> stride == total == 0
    {
      stride, total := 0, 0;
      if id == 0 { status := EINVAL; return; }
      var i := Lookup(id);
      if i == |surfaces| { status := ENOENT; return; }
      SelectKeepsInv(Abs(), id);
      mapId := id;
      status, stride, total := Ok, surfaces[i].stride, surfaces[i].bytes;
    }

    /** The part of get_vmobj before the allocation. */
    method BeginMmap(size: nat) returns (r: Begun)
      ensures r == Begin(Abs(), size)
    {
      if mapId == 0 { return Failed(ENOENT); }
      var i := Lookup(mapId);
      if i == |surfaces| { return Failed(ENOENT); }
      if size > surfaces[i].bytes { return Failed(EINVAL); }
      if surfaces[i].vmobj.Some? { return Fast(surfaces[i].id, surfaces[i].vmobj.value); }
      return Pin(surfaces[i].id, surfaces[i].bytes);
    }

    /** The part of get_vmobj after the allocation of `obj`: the object to map is `theirs` or the installed `obj`. */
    method FinishMmap(id: nat, obj: nat) returns (r: Finished)
      modifies this
      ensures (Abs(), r) == Finish(old(Abs()), id, obj)
      ensures allocs == old(allocs) + if r.Won? then 1 else 0
      ensures deallocs == old(deallocs) + if r.Won? then 0 else 1
      ensures installLost == old(installLost) + if r.Lost? then 1 else 0
    {
      var i := Lookup(id);
      if i == |surfaces| {
        deallocs := deallocs + 1;
        return SurfaceGone;
      }
      if surfaces[i].vmobj.Some? {
        deallocs, installLost := deallocs + 1, installLost + 1;
        return Lost(surfaces[i].vmobj.value);
      }
      surfaces := surfaces[i := surfaces[i].(vmobj := Some(obj))];
      allocs := allocs + 1;
      return Won;
    }

    /** Teardown: the table ends up empty, and every installed object is released once. */
    method FreeAll()
      requires Valid()
      modifies this
      ensures Valid() && Abs() == old(Abs()).(surfaces := [], count := 0, bytes := 0, mapId := 0)
      ensures deallocs == old(deallocs) + Installed(old(surfaces))
    {
      while surfaces != []
        invariant Valid() && nextId == old(nextId)
        invariant deallocs + Installed(surfaces) == old(deallocs) + Installed(old(surfaces))
        decreases |surfaces|
      {
        DetachKeepsInv(Abs(), 0);
        InstalledWithout(surfaces, 0);
        Unlink(0);
      }
      count, bytes := 0, 0;
    }
  }

  /** How many surfaces of the list have their VM object. */
  function Installed(list: seq<Surface>): nat {
    if list == [] then 0 else Installed(list[..|list| - 1]) + if list[|list| - 1].vmobj.Some? then 1 else 0
  }

  lemma InstalledSnoc(list: seq<Surface>, sf: Surface)
    ensures Installed(list + [sf]) == Installed(list) + if sf.vmobj.Some? then 1 else 0
  {
    assert (list + [sf])[..|list|] == list;
  }

  lemma {:induction false} InstalledWithout(list: seq<Surface>, i: nat)
    requires i < |list|
    ensures Installed(list) == Installed(Without(list, i)) + if list[i].vmobj.Some? then 1 else 0
    decreases |list|
  {
    var front, last := list[..|list| - 1], list[|list| - 1];
    if i == |front| {
      assert Without(list, i) == front;
    } else {
      InstalledWithout(front, i);
      assert Without(list, i) == Without(front, i) + [last];
      InstalledSnoc(Without(front, i), last);
    }
  }

  lemma InstalledUpdate(list: seq<Surface>, i: nat, sf: Surface)
    requires i < |list| && list[i].vmobj.None? && sf.vmobj.Some?
    ensures Installed(list[i := sf]) == Installed(list) + 1
  {
    InstalledWithout(list, i);
    InstalledWithout(list[i := sf], i);
    assert Without(list[i := sf], i) == Without(list, i);
  }
}
