/** The pre-Parcelable CameraMetadata object: who owns the buffer, when it grows, what an update
    does, and what locking forbids (device/huawei/mozart/libshims/gui/CameraMetadata.cpp). The
    camera_metadata library is represented by what its calls promise. */
module CameraMetadata {
  import opened Options
  import opened Runs

  datatype Status = Ok | NoMemory | InvalidOperation | BadValue | LibraryError

  // A metadata entry; `bytes` is what it takes in the data section.
  datatype Entry = Entry(tag: int, data: seq<int>, bytes: nat)

  function DataCount(entries: seq<Entry>): nat {
    if entries == [] then 0 else DataCount(entries[..|entries| - 1]) + entries[|entries| - 1].bytes
  }

  // Index of the first entry with this tag, |entries| if there is none.
  function IndexOf(entries: seq<Entry>, tag: int): (i: nat)
    ensures i <= |entries|
    ensures i < |entries| ==> entries[i].tag == tag
    ensures forall k :: 0 <= k < i ==> entries[k].tag != tag
  {
    if entries == [] then 0
    else
      var front, last := entries[..|entries| - 1], entries[|entries| - 1];
      var i := IndexOf(front, tag);
      if i < |front| then i else if last.tag == tag then |front| else |entries|
  }

  // A camera_metadata_t.
  datatype Block = Block(entries: seq<Entry>, entryCapacity: nat, dataCapacity: nat) {
    predicate Valid() {
      |entries| <= entryCapacity && DataCount(entries) <= dataCapacity
    }

    function Lookup(tag: int): Option<seq<int>> {
      var i := IndexOf(entries, tag);
      if i < |entries| then Some(entries[i].data) else None
    }

    // The library's add and update calls; both refuse what does not fit.
    function Add(e: Entry): (Block, Status) {
      if |entries| == entryCapacity || DataCount(entries) + e.bytes > dataCapacity
      then (this, LibraryError)
      else (this.(entries := entries + [e]), Ok)
    }

    function Update(i: nat, e: Entry): (Block, Status)
      requires i < |entries|
    {
      if DataCount(entries) - entries[i].bytes + e.bytes > dataCapacity then (this, LibraryError)
      else (this.(entries := entries[i := e]), Ok)
    }

    // Find, then update or add.
    function Set(e: Entry): (Block, Status) {
      var i := IndexOf(entries, e.tag);
      if i < |entries| then Update(i, e) else Add(e)
    }

    // append_camera_metadata.
    function Append(other: Block): (Block, Status) {
      if |entries| + |other.entries| > entryCapacity
         || DataCount(entries) + DataCount(other.entries) > dataCapacity
      then (this, LibraryError)
      else (this.(entries := entries + other.entries), Ok)
    }
  }

  // `blocks` are the buffers allocated and not yet freed, by address.
  datatype Camera = Camera(blocks: map<nat, Block>, buffer: Option<nat>, locked: bool) {
    ghost predicate Valid() {
      && (buffer.Some? ==> buffer.value in blocks)
      && forall b :: b in blocks ==> blocks[b].Valid()
    }

    function Current(): Block
      requires buffer.Some? ==> buffer.value in blocks
    {
      if buffer.Some? then blocks[buffer.value] else Block([], 0, 0)
    }
  }

  function GrownCapacity(count: nat, extra: nat, capacity: nat): nat {
    if count + extra > capacity then (count + extra) * 2 else capacity
  }

  // resizeIfNeeded; `address` is what the allocator returns, if asked.
  function Resized(c: Camera, extraEntries: nat, extraData: nat, address: Option<nat>): (Camera, Status)
    requires c.Valid()
  {
    if c.buffer == None then
      if address == None then (c, NoMemory)
      else
        (c.(blocks := c.blocks[address.value := Block([], extraEntries * 2, extraData * 2)],
            buffer := address), Ok)
    else
      var current := c.Current();
      var newEntries := GrownCapacity(|current.entries|, extraEntries, current.entryCapacity);
      var newData := GrownCapacity(DataCount(current.entries), extraData, current.dataCapacity);
      if newEntries == current.entryCapacity && newData == current.dataCapacity then (c, Ok)
      else if address == None then (c, NoMemory)
      else
        (c.(blocks := (c.blocks - {c.buffer.value})[address.value := Block(current.entries, newEntries, newData)],
            buffer := address), Ok)
  }

  // Whether resizeIfNeeded has to ask the allocator.
  predicate NeedsAllocation(c: Camera, extraEntries: nat, extraData: nat)
    requires c.Valid()
  {
    var b := c.Current();
    c.buffer == None || |b.entries| + extraEntries > b.entryCapacity
    || DataCount(b.entries) + extraData > b.dataCapacity
  }

  // After success both capacities cover what is asked for and the contents are the same; it
  // fails exactly when memory is needed and not available, and then changes nothing.
  lemma ResizeMakesRoom(c: Camera, extraEntries: nat, extraData: nat, address: Option<nat>)
    requires c.Valid() && (address.Some? ==> address.value !in c.blocks)
    ensures var (d, status) := Resized(c, extraEntries, extraData, address);
            && d.Valid() && d.locked == c.locked
            && (status == Ok <==> NeedsAllocation(c, extraEntries, extraData) ==> address.Some?)
            && (status != Ok ==> d == c)
            && (status == Ok ==>
                  var b := d.Current();
                  && d.buffer.Some?
                  && b.entries == c.Current().entries
                  && |b.entries| + extraEntries <= b.entryCapacity
                  && DataCount(b.entries) + extraData <= b.dataCapacity)
  {
  }

  // A capacity never shrinks, and one that was too small more than doubles.
  lemma ResizeDoubles(c: Camera, extraEntries: nat, extraData: nat, address: Option<nat>)
    requires c.Valid() && extraEntries > 0 && (address.Some? ==> address.value !in c.blocks)
    ensures var (d, _) := Resized(c, extraEntries, extraData, address);
            && d.Valid()
            && var b, b' := c.Current(), d.Current();
               && (b'.entryCapacity == b.entryCapacity || b'.entryCapacity > 2 * b.entryCapacity)
               && (b'.dataCapacity == b.dataCapacity || b'.dataCapacity > 2 * b.dataCapacity)
               && (b'.entryCapacity != b.entryCapacity ==>
                     b'.entryCapacity == 2 * (|b.entries| + extraEntries))
               && (b'.dataCapacity != b.dataCapacity ==>
                     b'.dataCapacity == 2 * (DataCount(b.entries) + extraData))
               && (d.buffer != c.buffer ==>
                     (b'.entryCapacity, b'.dataCapacity) != (b.entryCapacity, b.dataCapacity))
  {
  }

  lemma AppendFits(b: Block, entryCapacity: nat, dataCapacity: nat)
    requires |b.entries| <= entryCapacity && DataCount(b.entries) <= dataCapacity
    ensures Block([], entryCapacity, dataCapacity).Append(b) == (Block(b.entries, entryCapacity, dataCapacity), Ok)
  {
    assert [] + b.entries == b.entries;
  }

  // The request of updateImpl: a known tag or not, data inside the object's own buffer or not.
  datatype Request = Request(entry: Entry, known: bool, aliases: bool)

  function Updated(c: Camera, r: Request, address: Option<nat>): (Camera, Status)
    requires c.Valid() && (address.Some? ==> address.value !in c.blocks)
  {
    if c.locked then (c, InvalidOperation)
    else if !r.known then (c, BadValue)
    else if c.buffer.Some? && r.aliases then (c, InvalidOperation)
    else
      ResizeMakesRoom(c, 1, r.entry.bytes, address);
      var (d, status) := Resized(c, 1, r.entry.bytes, address);
      if status != Ok then (d, status)
      else
        var (b, result) := d.Current().Set(r.entry);
        (d.(blocks := d.blocks[d.buffer.value := b]), result)
  }

  // ---- What an update does ----

  lemma {:induction false} DataCountUpdate(entries: seq<Entry>, i: nat, e: Entry)
    requires i < |entries|
    ensures entries[i].bytes <= DataCount(entries)
    ensures DataCount(entries[i := e]) == DataCount(entries) - entries[i].bytes + e.bytes
  {
    var n := |entries| - 1;
    if i < n {
      DataCountUpdate(entries[..n], i, e);
      assert entries[i := e][..n] == entries[..n][i := e];
    } else {
      assert entries[i := e][..n] == entries[..n];
    }
  }

  lemma IndexIsUnique(entries: seq<Entry>, tag: int, i: nat)
    requires i <= |entries| && (i < |entries| ==> entries[i].tag == tag)
    requires forall k :: 0 <= k < i ==> entries[k].tag != tag
    ensures IndexOf(entries, tag) == i
  {
  }

  lemma SetEntry(b: Block, r: Entry, tag: int)
    requires b.Valid() && |b.entries| < b.entryCapacity
    requires DataCount(b.entries) + r.bytes <= b.dataCapacity
    ensures var (b', status) := b.Set(r);
            && status == Ok && b'.Valid()
            && b'.entryCapacity == b.entryCapacity && b'.dataCapacity == b.dataCapacity
            && |b.entries| <= |b'.entries|
            && b'.Lookup(tag) == if tag == r.tag then Some(r.data) else b.Lookup(tag)
  {
    var i, j := IndexOf(b.entries, r.tag), IndexOf(b.entries, tag);
    if i < |b.entries| {
      DataCountUpdate(b.entries, i, r);
      IndexIsUnique(b.entries[i := r], tag, j);
    } else {
      var more := b.entries + [r];
      assert more[..|more| - 1] == b.entries;
      IndexIsUnique(more, tag, if tag == r.tag then |b.entries| else if j < |b.entries| then j else |more|);
    }
  }

  // An update succeeds exactly when the object is unlocked, the tag known, the data foreign and
  // memory available if it is needed. Then it sets that one tag; otherwise it changes nothing.
  lemma UpdateSetsOneTag(c: Camera, r: Request, address: Option<nat>, tag: int)
    requires c.Valid() && (address.Some? ==> address.value !in c.blocks)
    ensures var (d, status) := Updated(c, r, address);
            && d.Valid()
            && (status == Ok <==>
                  && !c.locked && r.known && !(c.buffer.Some? && r.aliases)
                  && (NeedsAllocation(c, 1, r.entry.bytes) ==> address.Some?))
            && (status != Ok ==> d == c)
            && (status == Ok ==>
                  d.Current().Lookup(tag) ==
                    if tag == r.entry.tag then Some(r.entry.data) else c.Current().Lookup(tag))
  {
    ResizeMakesRoom(c, 1, r.entry.bytes, address);
    var (d, status) := Resized(c, 1, r.entry.bytes, address);
    if status == Ok { SetEntry(d.Current(), r.entry, tag); }
  }

  // Looking up a tag finds the first entry that has it, and nothing exactly if none has.
  lemma LookupFindsFirst(b: Block, tag: int)
    ensures b.Lookup(tag) == None <==> forall i :: 0 <= i < |b.entries| ==> b.entries[i].tag != tag
    ensures forall i :: 0 <= i < |b.entries| && b.entries[i].tag == tag
                        && (forall k :: 0 <= k < i ==> b.entries[k].tag != tag) ==>
              b.Lookup(tag) == Some(b.entries[i].data)
  {
    forall i | 0 <= i < |b.entries| && b.entries[i].tag == tag
               && forall k :: 0 <= k < i ==> b.entries[k].tag != tag
      ensures IndexOf(b.entries, tag) == i
    {
      IndexIsUnique(b.entries, tag, i);
    }
  }

  // Why an update fails: locked or aliasing data, an unknown tag, or no memory, in that order.
  lemma UpdateErrors(c: Camera, r: Request, address: Option<nat>)
    requires c.Valid() && (address.Some? ==> address.value !in c.blocks)
    ensures Updated(c, r, address).1
            == if c.locked then InvalidOperation
               else if !r.known then BadValue
               else if c.buffer.Some? && r.aliases then InvalidOperation
               else if NeedsAllocation(c, 1, r.entry.bytes) && address == None then NoMemory
               else Ok
  {
    UpdateSetsOneTag(c, r, address, r.entry.tag);
  }

  // ---- How often it grows ----

  function Pow2(n: nat): nat { if n == 0 then 1 else 2 * Pow2(n - 1) }

  // What the two capacities leave room for, together.
  function Room(b: Block): nat {
    (b.entryCapacity + 1) * (b.dataCapacity + 1)
  }

  // How one update may change a block: contents grow, each capacity stays or more than doubles,
  // the entry table no further than to twice what it holds, and a move needs growth.
  ghost predicate Grows(b: Block, b': Block, moved: bool) {
    && (b'.entryCapacity == b.entryCapacity || b'.entryCapacity > 2 * b.entryCapacity)
    && (b'.dataCapacity == b.dataCapacity || b'.dataCapacity > 2 * b.dataCapacity)
    && |b.entries| <= |b'.entries|
    && (b'.entryCapacity != b.entryCapacity ==> b'.entryCapacity <= 2 * (|b'.entries| + 1))
    && (moved ==> b'.entryCapacity != b.entryCapacity || b'.dataCapacity != b.dataCapacity)
  }

  lemma UpdateGrows(c: Camera, r: Request, address: Option<nat>)
    requires c.Valid() && (address.Some? ==> address.value !in c.blocks)
    ensures var d := Updated(c, r, address).0;
            d.Valid() && Grows(c.Current(), d.Current(), d.buffer != c.buffer)
  {
    UpdateSetsOneTag(c, r, address, r.entry.tag);
    var (d, status) := Updated(c, r, address);
    if status == Ok {
      ResizeMakesRoom(c, 1, r.entry.bytes, address);
      ResizeDoubles(c, 1, r.entry.bytes, address);
      var resized := Resized(c, 1, r.entry.bytes, address).0;
      SetEntry(resized.Current(), r.entry, r.entry.tag);
      assert d.buffer == resized.buffer && d.Current() == resized.Current().Set(r.entry).0;
    }
  }

  // So a move at least doubles the room.
  lemma MovingDoublesRoom(b: Block, b': Block, moved: bool)
    requires Grows(b, b', moved)
    ensures (if moved then 2 else 1) * Room(b) <= Room(b')
  {
    var e, d, e', d' := b.entryCapacity + 1, b.dataCapacity + 1, b'.entryCapacity + 1, b'.dataCapacity + 1;
    ProductGrows(e, d, e', d');
    if e' != e {
      ProductDoubles(e, d, e', d');
    } else if d' != d {
      ProductDoubles(d, e, d', e');
    }
  }

  lemma ProductGrows(e: nat, d: nat, e': nat, d': nat)
    requires e <= e' && d <= d'
    ensures e * d <= e' * d'
  {
    assert e * d <= e * d' <= e' * d';
  }

  lemma ProductDoubles(e: nat, d: nat, e': nat, d': nat)
    requires 2 * e <= e' && d <= d'
    ensures 2 * (e * d) <= e' * d' && e * d == d * e && e' * d' == d' * e'
  {
    ProductGrows(2 * e, d, e', d');
    Reassociate(d, e);
  }

  lemma Reassociate(a: nat, b: nat)
    ensures a * (2 * b) == (2 * b) * a == 2 * (a * b)
  {
  }

  // Updates one after another, counting reallocations, the first allocation included.
  datatype Tally = Tally(camera: Camera, reallocations: nat)

  function Try(t: Tally, r: Request, address: Option<nat>): Tally
    requires t.camera.Valid() && (address.Some? ==> address.value !in t.camera.blocks)
  {
    var d := Updated(t.camera, r, address).0;
    Tally(d, t.reallocations + if d.buffer != t.camera.buffer then 1 else 0)
  }

  ghost predicate Doubling(start: Block, now: Block, reallocations: nat) {
    && Room(start) * Pow2(reallocations) <= Room(now)
    && (now.entryCapacity == start.entryCapacity || now.entryCapacity <= 2 * (|now.entries| + 1))
  }

  lemma GrowthKeepsDoubling(start: Block, b: Block, reallocations: nat, b': Block, moved: bool)
    requires Doubling(start, b, reallocations) && Grows(b, b', moved)
    ensures Doubling(start, b', reallocations + if moved then 1 else 0)
  {
    MovingDoublesRoom(b, b', moved);
    Reassociate(Room(start), Pow2(reallocations));
  }

  ghost predicate NextUpdate(t: Tally, a: (Request, Option<nat>), u: Tally) {
    && t.camera.Valid() && (a.1.Some? ==> a.1.value !in t.camera.blocks)
    && u == Try(t, a.0, a.1)
  }

  ghost predicate DoublingSince(start: Block, t: Tally) {
    t.camera.Valid() && Doubling(start, t.camera.Current(), t.reallocations)
  }

  lemma UpdateKeepsDoubling(start: Block, t: Tally, a: (Request, Option<nat>), u: Tally)
    requires DoublingSince(start, t) && NextUpdate(t, a, u)
    ensures DoublingSince(start, u)
  {
    UpdateGrows(t.camera, a.0, a.1);
    GrowthKeepsDoubling(start, t.camera.Current(), t.reallocations, u.camera.Current(),
                        u.camera.buffer != t.camera.buffer);
  }

  // Any number of updates reallocates so rarely that two to that number is at most the growth of
  // the two capacities together: the count is logarithmic in what they grew to. And an entry
  // table that grew stays within twice what is stored in it, give or take one entry.
  lemma ReallocationsAreLogarithmic(c: Camera, u: Tally)
    requires c.Valid() && Reaches(NextUpdate, Tally(c, 0), u)
    ensures u.camera.Valid()
    ensures var b, b' := c.Current(), u.camera.Current();
            && Room(b) * Pow2(u.reallocations) <= Room(b')
            && (b'.entryCapacity == b.entryCapacity
                || b'.entryCapacity <= 2 * (|b'.entries| + 1))
  {
    var inv := (t: Tally) => DoublingSince(c.Current(), t);
    forall t, a, u | inv(t) && NextUpdate(t, a, u)
      ensures inv(u)
    {
      UpdateKeepsDoubling(c.Current(), t, a, u);
    }
    ReachesKeeps(NextUpdate, inv, Tally(c, 0), u);
  }

  // ---- Ownership and locking ----

  function Cleared(c: Camera): Camera
    requires c.Valid()
  {
    if !c.locked && c.buffer.Some? then c.(blocks := c.blocks - {c.buffer.value}, buffer := None) else c
  }

  function Acquired(c: Camera, given: Option<nat>): Camera
    requires c.Valid()
  {
    if c.locked then c else Cleared(c).(buffer := given)
  }

  // Acquiring frees the old buffer first, so an object handed its own buffer is left with a freed
  // one; this is the only way to go wrong with a live buffer.
  lemma AcquireDanglesIffOwn(c: Camera, given: Option<nat>)
    requires c.Valid() && (given.Some? ==> given.value in c.blocks)
    ensures Acquired(c, given).Valid() <==> c.locked || given == None || given != c.buffer
  {
  }

  // The object, and the buffers that are in somebody else's hands.
  datatype World = World(camera: Camera, outside: set<nat>)

  datatype Op =
    | Clear
    | Destroy
    | Release
    | Acquire(given: Option<nat>)
    | GetAndLock
    | Unlock(shown: Option<nat>)
    | Update(request: Request, address: Option<nat>)
    | OthersAllocate(at: nat, block: Block)
    | OthersFree(at: nat)

  // Callers hand over only what they own; the allocator returns only what is unused.
  predicate Allowed(w: World, op: Op) {
    match op
    case Acquire(given) => given.Some? ==> given.value in w.outside
    case Update(_, address) => address.Some? ==> address.value !in w.camera.blocks
    case OthersAllocate(at, block) => at !in w.camera.blocks && block.Valid()
    case OthersFree(at) => at in w.outside
    case _ => true
  }

  function Do(w: World, op: Op): World
    requires w.camera.Valid() && Allowed(w, op)
  {
    var c := w.camera;
    match op
    case Clear => w.(camera := Cleared(c))
    case Destroy => w.(camera := Cleared(c.(locked := false)))
    case Release =>
      if c.locked then w
      else World(c.(buffer := None), w.outside + Own(c))
    case Acquire(given) =>
      if c.locked then w
      else World(Acquired(c, given), w.outside - (if given.Some? then {given.value} else {}))
    case GetAndLock => w.(camera := c.(locked := true))
    case Unlock(shown) => if c.locked && shown == c.buffer then w.(camera := c.(locked := false)) else w
    case Update(r, address) => w.(camera := Updated(c, r, address).0)
    case OthersAllocate(at, block) =>
      World(c.(blocks := c.blocks[at := block]), w.outside + {at})
    case OthersFree(at) => World(c.(blocks := c.blocks - {at}), w.outside - {at})
  }

  // Every live buffer has exactly one owner, so none is leaked, freed twice or used after it.
  ghost predicate OneOwner(w: World) {
    && w.camera.Valid()
    && (w.camera.buffer.Some? ==> w.camera.buffer.value !in w.outside)
    && w.camera.blocks.Keys == w.outside + Own(w.camera)
  }

  lemma UpdateKeepsOwner(w: World, r: Request, address: Option<nat>)
    requires OneOwner(w) && Allowed(w, Update(r, address))
    ensures OneOwner(Do(w, Update(r, address)))
  {
    UpdateSetsOneTag(w.camera, r, address, r.entry.tag);
    UpdateReplacesBuffer(w.camera, r, address);
  }

  function Own(c: Camera): set<nat> { if c.buffer.Some? then {c.buffer.value} else {} }

  // A reallocation frees the buffer it replaces.
  lemma ResizeReplacesBuffer(c: Camera, extraEntries: nat, extraData: nat, address: Option<nat>)
    requires c.Valid() && (address.Some? ==> address.value !in c.blocks)
    ensures var (d, status) := Resized(c, extraEntries, extraData, address);
            && (d.buffer == c.buffer || d.buffer == address)
            && (status == Ok ==> d.buffer.Some?)
            && d.blocks.Keys == c.blocks.Keys - Own(c) + Own(d)
  {
  }

  lemma UpdateReplacesBuffer(c: Camera, r: Request, address: Option<nat>)
    requires c.Valid() && (address.Some? ==> address.value !in c.blocks)
    ensures var d := Updated(c, r, address).0;
            && (d.buffer == c.buffer || d.buffer == address)
            && d.blocks.Keys == c.blocks.Keys - Own(c) + Own(d)
  {
    ResizeReplacesBuffer(c, 1, r.entry.bytes, address);
    var d, e := Resized(c, 1, r.entry.bytes, address).0, Updated(c, r, address).0;
    assert e == c || (e.buffer == d.buffer && e.blocks.Keys == d.blocks.Keys);
  }

  lemma OpKeepsOwner(w: World, op: Op)
    requires OneOwner(w) && Allowed(w, op)
    ensures OneOwner(Do(w, op))
  {
    if op.Update? { UpdateKeepsOwner(w, op.request, op.address); }
  }

  ghost predicate Next(w: World, op: Op, v: World) {
    w.camera.Valid() && Allowed(w, op) && v == Do(w, op)
  }

  const EMPTY := World(Camera(map[], None, false), {})

  lemma BuffersHaveOneOwner(w: World, v: World)
    requires OneOwner(w) && Reaches(Next, w, v)
    ensures OneOwner(v)
  {
    forall u, op, v | OneOwner(u) && Next(u, op, v)
      ensures OneOwner(v)
    {
      OpKeepsOwner(u, op);
    }
    ReachesKeeps(Next, OneOwner, w, v);
  }

  // Calls other than the destructor and an unlock that shows `buffer`.
  ghost function NextWithout(buffer: Option<nat>): (World, Op, World) -> bool {
    (w, op, v) => Next(w, op, v) && op != Destroy && op != Unlock(buffer)
  }

  // A locked object keeps its buffer and its contents until it is destroyed or unlocked with
  // that very buffer, whatever else is called on it.
  lemma LockedObjectIsFrozen(w: World, v: World)
    requires OneOwner(w) && w.camera.locked
    requires Reaches(NextWithout(w.camera.buffer), w, v)
    ensures v.camera.Valid() && v.camera.locked
    ensures v.camera.buffer == w.camera.buffer && v.camera.Current() == w.camera.Current()
  {
    var inv := (u: World) => OneOwner(u) && Frozen(w.camera, u.camera);
    forall u, op, v | inv(u) && NextWithout(w.camera.buffer)(u, op, v)
      ensures inv(v)
    {
      OpKeepsOwner(u, op);
      OpKeepsFrozen(w.camera, u, op);
    }
    ReachesKeeps(NextWithout(w.camera.buffer), inv, w, v);
  }

  ghost predicate Frozen(c: Camera, d: Camera) {
    c.Valid() && d.Valid() && d.locked && d.buffer == c.buffer && d.Current() == c.Current()
  }

  lemma OpKeepsFrozen(c: Camera, u: World, op: Op)
    requires OneOwner(u) && Frozen(c, u.camera) && Allowed(u, op)
    requires op != Destroy && op != Unlock(c.buffer)
    ensures Do(u, op).camera.Valid() ==> Frozen(c, Do(u, op).camera)
  {
  }

  // An update on an unlocked object with memory at hand sets its tag.
  lemma UpdateTakesEffect(w: World, r: Request, address: nat)
    requires OneOwner(w) && address !in w.camera.blocks
    requires !w.camera.locked && r.known && !r.aliases
    ensures var c := Do(w, Update(r, Some(address))).camera;
            c.Valid() && c.buffer.Some? && c.Current().Lookup(r.entry.tag) == Some(r.entry.data)
  {
    UpdateSetsOneTag(w.camera, r, Some(address), r.entry.tag);
    ResizeMakesRoom(w.camera, 1, r.entry.bytes, Some(address));
  }

  // What the calls do to an unlocked object, and that locking and the right unlock take effect.
  lemma CallsTakeEffect(w: World, given: Option<nat>)
    requires OneOwner(w) && Allowed(w, Acquire(given))
    ensures var c := w.camera;
            && Do(w, GetAndLock).camera == c.(locked := true)
            && Do(w, Unlock(c.buffer)).camera == c.(locked := false)
            && (!c.locked ==>
                  && Do(w, Clear).camera.buffer == None && Do(w, Clear).outside == w.outside
                  && Do(w, Release).camera == c.(buffer := None) && Do(w, Release).outside == w.outside + Own(c)
                  && Do(w, Acquire(given)).camera.buffer == given
                  && Do(w, Acquire(given)).camera.blocks.Keys == c.blocks.Keys - Own(c))
  {
  }

  // After the destructor nothing of the object's is left, locked or not.
  lemma DestroyFreesEverything(v: World)
    requires Reaches(Next, EMPTY, v)
    ensures v.camera.Valid()
    ensures Do(v, Destroy).camera.buffer == None
    ensures Do(v, Destroy).camera.blocks.Keys == v.outside
  {
    BuffersHaveOneOwner(EMPTY, v);
  }

  // ---- The object ----

  class LegacyCameraMetadata {
    var buffer: Option<nat>
    var locked: bool
    var blocks: map<nat, Block>      // the allocator's live buffers

    ghost function Value(): Camera
      reads this
    {
      Camera(blocks, buffer, locked)
    }

    constructor (blocks: map<nat, Block>)
      requires forall b :: b in blocks ==> blocks[b].Valid()
      ensures Value() == Camera(blocks, None, false) && Value().Valid()
    {
      buffer, locked := None, false;
      this.blocks := blocks;
    }

    method ResizeIfNeeded(extraEntries: nat, extraData: nat, address: Option<nat>)
      returns (status: Status)
      requires Value().Valid() && (address.Some? ==> address.value !in blocks)
      modifies this
      ensures (Value(), status) == Resized(old(Value()), extraEntries, extraData, address)
    {
      if buffer == None {
        if address == None {
          return NoMemory;
        }
        blocks := blocks[address.value := Block([], extraEntries * 2, extraData * 2)];
        buffer := address;
        return Ok;
      }
      var current := blocks[buffer.value];
      var dataCount := DataCount(current.entries);
      var newEntryCapacity :=
        if |current.entries| + extraEntries > current.entryCapacity
        then (|current.entries| + extraEntries) * 2 else current.entryCapacity;
      var newDataCapacity :=
        if dataCount + extraData > current.dataCapacity then (dataCount + extraData) * 2
        else current.dataCapacity;
      if newEntryCapacity == current.entryCapacity && newDataCapacity == current.dataCapacity {
        return Ok;
      }
      if address == None {
        return NoMemory;
      }
      var (replacement, result) := Block([], newEntryCapacity, newDataCapacity).Append(current);
      AppendFits(current, newEntryCapacity, newDataCapacity);
      if result != Ok {
        assert false;                 // the replacement is never too small
        return result;
      }
      blocks := (blocks - {buffer.value})[address.value := replacement];
      buffer := address;
      return Ok;
    }

    method UpdateImpl(r: Request, address: Option<nat>) returns (status: Status)
      requires Value().Valid() && (address.Some? ==> address.value !in blocks)
      modifies this
      ensures Value().Valid() && (Value(), status) == Updated(old(Value()), r, address)
    {
      UpdateSetsOneTag(Value(), r, address, r.entry.tag);
      if locked {
        return InvalidOperation;
      }
      if !r.known {
        return BadValue;
      }
      if buffer.Some? && r.aliases {
        return InvalidOperation;
      }
      ResizeMakesRoom(Value(), 1, r.entry.bytes, address);
      status := ResizeIfNeeded(1, r.entry.bytes, address);
      if status != Ok {
        return;
      }
      var current := blocks[buffer.value];
      var index := IndexOf(current.entries, r.entry.tag);
      var (replacement, result) :=
        if index == |current.entries| then current.Add(r.entry) else current.Update(index, r.entry);
      blocks := blocks[buffer.value := replacement];
      status := result;
    }

    method Clear()
      requires Value().Valid()
      modifies this
      ensures Value().Valid() && Value() == Cleared(old(Value()))
    {
      if !locked && buffer.Some? {
        blocks := blocks - {buffer.value};
        buffer := None;
      }
    }

    method Destroy()
      requires Value().Valid()
      modifies this
      ensures Value().Valid() && Value() == Cleared(old(Value()).(locked := false))
      ensures buffer == None
    {
      locked := false;
      Clear();
    }

    method Release() returns (released: Option<nat>)
      requires Value().Valid()
      modifies `buffer
      ensures Value().Valid()
      ensures released == if locked then None else old(buffer)
      ensures Value() == if locked then old(Value()) else old(Value()).(buffer := None)
    {
      if locked {
        return None;
      }
      released := buffer;
      buffer := None;
    }

    method Acquire(given: Option<nat>)
      requires Value().Valid() && (given.Some? ==> given.value in blocks)
      modifies this
      ensures Value() == Acquired(old(Value()), given)
      ensures Value().Valid() <==> locked || given == None || given != old(buffer)
    {
      AcquireDanglesIffOwn(Value(), given);
      if locked {
        return;
      }
      Clear();
      buffer := given;
    }

    method GetAndLock() returns (shown: Option<nat>)
      requires Value().Valid()
      modifies `locked
      ensures Value() == old(Value()).(locked := true) && shown == buffer
    {
      locked := true;
      shown := buffer;
    }

    method UnlockBuffer(shown: Option<nat>) returns (status: Status)
      requires Value().Valid()
      modifies `locked
      ensures status == if !old(locked) then InvalidOperation
                        else if shown != buffer then BadValue else Ok
      ensures Value() == if status == Ok then old(Value()).(locked := false) else old(Value())
    {
      if !locked {
        return InvalidOperation;
      }
      if shown != buffer {
        return BadValue;
      }
      locked := false;
      return Ok;
    }

    method Find(tag: int) returns (data: Option<seq<int>>)
      requires Value().Valid()
      ensures data == if locked then None else Value().Current().Lookup(tag)
    {
      data := None;
      if !locked && buffer.Some? {
        data := blocks[buffer.value].Lookup(tag);
      }
    }
  }
}
