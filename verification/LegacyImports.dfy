/** The cache of imported clones behind GraphicBufferMapper's lock and unlock calls
    (patches/frameworks/native/legacy-huawei-camera-abi.patch). `Cache` is its value with one
    function per critical section; `GraphicBufferMapper` is the object that runs them; the
    thread model interleaves them, since a lock call gives the mutex up between its two look-ups. */
module LegacyImports {
  import opened Options
  import opened Runs

  const TWO_TO_32 := 0x1_0000_0000

  // The error of Mapper::lock and Mapper::importBuffer.
  datatype MapperError = NoMapperError | BadBuffer | OtherError(code: int)

  datatype Status = NoError | BadValue | MapperFailed(error: MapperError)

  // A LegacyImportedBuffer. `mapping` stands for the address of a linear lock or the planes of
  // a YCbCr lock; lockCount is a uint32_t.
  datatype Entry = Entry(handle: int, lockCount: nat, mapping: int, isYCbCr: bool)

  // What becomes of a fence descriptor.
  datatype FenceEvent = Closed(fd: int) | Handed(fd: int)

  function CloseIfOpen(fd: int): seq<FenceEvent> { if fd >= 0 then [Closed(fd)] else [] }
  function HandIfOpen(fd: int): seq<FenceEvent> { if fd >= 0 then [Handed(fd)] else [] }

  // `live` are the clones the mapper has imported for this cache and not yet freed.
  datatype Cache = Cache(entries: map<int, Entry>, live: set<int>) {
    // A hit of either look-up: the new cache, the status, and the mapping given to the caller.
    function LockEntry(raw: int, ycbcr: bool): (r: (Cache, Status, int))
      requires raw in entries
    {
      var e := entries[raw];
      if e.isYCbCr != ycbcr then (this, BadValue, 0)
      else
        (this.(entries := entries[raw := e.(lockCount := (e.lockCount + 1) % TWO_TO_32)]), NoError, e.mapping)
    }

    // The miss branch of the second look-up. `imported` and `locked` are the mapper's answers.
    function LockImported(raw: int, ycbcr: bool, imported: MapperError, clone: int,
                          locked: MapperError, mapping: int): (r: (Cache, Status, int))
    {
      if imported != NoMapperError then (this, MapperFailed(imported), 0)
      else if locked != NoMapperError then (this, MapperFailed(locked), 0)
      else (Cache(entries[raw := Entry(clone, 1, mapping, ycbcr)], live + {clone}), NoError, mapping)
    }

    // The second look-up.
    function LockAgain(raw: int, ycbcr: bool, imported: MapperError, clone: int,
                       locked: MapperError, mapping: int): (r: (Cache, Status, int))
    {
      if raw in entries then LockEntry(raw, ycbcr)
      else LockImported(raw, ycbcr, imported, clone, locked, mapping)
    }

    function Unlock(raw: int): Cache
      requires raw in entries
    {
      var e := entries[raw];
      if e.lockCount > 1
      then this.(entries := entries[raw := e.(lockCount := e.lockCount - 1)])
      else Free(raw)
    }

    function Free(raw: int): Cache
      requires raw in entries
    {
      Cache(entries - {raw}, live - {entries[raw].handle})
    }
  }

  // ---- The object ----

  class GraphicBufferMapper {
    var entries: map<int, Entry>
    ghost var live: set<int>
    ghost var fences: seq<FenceEvent>

    ghost function Value(): Cache
      reads this
    {
      Cache(entries, live)
    }

    constructor ()
      ensures Value() == Cache(map[], {}) && fences == []
    {
      entries, live, fences := map[], {}, [];
    }

    // First critical section of lockAsync and lockAsyncYCbCr. `found` is false on a miss, which
    // leaves the fence to the caller.
    method LockCached(raw: int, ycbcr: bool, fenceFd: int)
      returns (found: bool, status: Status, mapping: int)
      modifies this
      ensures found == (raw in old(entries))
      ensures !found ==> Value() == old(Value()) && fences == old(fences)
      ensures found ==>
                && (Value(), status, mapping) == old(Value()).LockEntry(raw, ycbcr)
                && fences == old(fences) + CloseIfOpen(fenceFd)
    {
      found, status, mapping := false, NoError, 0;
      if raw in entries {
        found := true;
        if fenceFd >= 0 {
          fences := fences + [Closed(fenceFd)];
        }
        if entries[raw].isYCbCr != ycbcr {
          return true, BadValue, 0;
        }
        mapping := entries[raw].mapping;
        entries := entries[raw := entries[raw].(lockCount := (entries[raw].lockCount + 1) % TWO_TO_32)];
      }
    }

    // The unlocked part: duplicate the fence and try the raw handle. `retry` says whether the
    // second critical section follows, with retryFenceFd still open.
    method LockDirect(fenceFd: int, dupResult: int, error: MapperError)
      returns (retry: bool, retryFenceFd: int)
      modifies `fences
      ensures retryFenceFd == Duplicate(fenceFd, dupResult)
      ensures retry == NeedsRetry(fenceFd, retryFenceFd, error)
      ensures fences == old(fences) + HandIfOpen(fenceFd)
                        + (if retry then [] else CloseIfOpen(retryFenceFd))
    {
      retryFenceFd := -1;
      if fenceFd >= 0 {
        retryFenceFd := dupResult;
        fences := fences + [Handed(fenceFd)];
      }
      if error == BadBuffer && (fenceFd < 0 || retryFenceFd >= 0) {
        return true, retryFenceFd;
      }
      if retryFenceFd >= 0 {
        fences := fences + [Closed(retryFenceFd)];
      }
      retry := false;
    }

    // Second critical section: look up again, otherwise import a clone and lock it.
    method LockRetry(raw: int, ycbcr: bool, retryFence: int, imported: MapperError, clone: int,
                     locked: MapperError, lockMapping: int)
      returns (status: Status, mapping: int)
      requires clone !in live
      modifies this
      ensures if raw in old(entries) then
                && (Value(), status, mapping) == old(Value()).LockEntry(raw, ycbcr)
                && fences == old(fences) + CloseIfOpen(retryFence)
              else
                && (Value(), status, mapping) ==
                     old(Value()).LockImported(raw, ycbcr, imported, clone, locked, lockMapping)
                && fences == old(fences) + (if imported == NoMapperError then HandIfOpen(retryFence)
                                            else CloseIfOpen(retryFence))
    {
      var retryFenceFd := retryFence;
      mapping := 0;
      if raw in entries {
        if retryFenceFd >= 0 {
          fences := fences + [Closed(retryFenceFd)];
          retryFenceFd := -1;
        }
        if entries[raw].isYCbCr != ycbcr {
          return BadValue, 0;
        }
        mapping := entries[raw].mapping;
        entries := entries[raw := entries[raw].(lockCount := (entries[raw].lockCount + 1) % TWO_TO_32)];
        return NoError, mapping;
      }
      var error := imported;
      var newImport := false;
      if error == NoMapperError {
        newImport := true;
        live := live + {clone};
        error := locked;
        if retryFenceFd >= 0 { fences := fences + [Handed(retryFenceFd)]; }
        retryFenceFd := -1;
      }
      if error == NoMapperError {
        entries := entries[raw := Entry(clone, 1, lockMapping, ycbcr)];
        return NoError, lockMapping;
      }
      if newImport {
        live := live - {clone};
      }
      if retryFenceFd >= 0 {
        fences := fences + [Closed(retryFenceFd)];
      }
      status := MapperFailed(error);
    }

    // unlockAsync: false sends the caller to the mapper with the raw handle.
    method UnlockCached(raw: int) returns (found: bool)
      modifies this
      ensures found == (raw in old(entries)) && fences == old(fences)
      ensures Value() == if found then old(Value()).Unlock(raw) else old(Value())
    {
      found := raw in entries;
      if found {
        var e := entries[raw];
        if e.lockCount > 1 {
          entries := entries[raw := e.(lockCount := e.lockCount - 1)];
        } else {
          live := live - {e.handle};
          entries := entries - {raw};
        }
      }
    }

    method FreeCached(raw: int) returns (found: bool)
      modifies this
      ensures found == (raw in old(entries)) && fences == old(fences)
      ensures Value() == if found then old(Value()).Free(raw) else old(Value())
    {
      found := raw in entries;
      if found {
        live := live - {entries[raw].handle};
        entries := entries - {raw};
      }
    }
  }

  function Duplicate(fenceFd: int, dupResult: int): int {
    if fenceFd >= 0 then dupResult else -1
  }

  predicate NeedsRetry(fenceFd: int, retryFenceFd: int, error: MapperError) {
    error == BadBuffer && (fenceFd < 0 || retryFenceFd >= 0)
  }

  // ---- Threads ----

  // A lock call: between the two look-ups it holds no lock. `dupFd` is the duplicate it made.
  datatype Thread =
    | Idle
    | Direct(raw: int, ycbcr: bool, fenceFd: int)
    | Retry(raw: int, ycbcr: bool, fenceFd: int, dupFd: int, used: seq<FenceEvent>)
    | Done(status: Status, fenceFd: int, dupFd: int, used: seq<FenceEvent>)

  // What was granted and given back, by which thread: locks that the cache answered, locks that the
  // mapper granted on the raw handle itself, and every unlock and free whoever answered it.
  datatype Call =
    | CacheLocked(thread: nat, raw: int, mapping: int, ycbcr: bool)
    | RawLocked(thread: nat, raw: int)
    | Unlocked(thread: nat, raw: int)
    | Freed(raw: int)

  datatype State = State(cache: Cache, threads: seq<Thread>, calls: seq<Call>)

  datatype Step =
    | StartLock(t: nat, raw: int, ycbcr: bool, fenceFd: int)
    | TryRaw(t: nat, dupResult: int, error: MapperError)
    | RetryImport(t: nat, imported: MapperError, clone: int, locked: MapperError, mapping: int)
    | Finish(t: nat)
    | UnlockStep(t: nat, raw: int)
    | FreeStep(raw: int)

  predicate Enabled(s: State, step: Step) {
    match step
    case StartLock(t, _, _, _) => t < |s.threads| && s.threads[t].Idle?
    case TryRaw(t, dupResult, _) =>
      // dup() fails or returns a descriptor that is not in use
      t < |s.threads| && s.threads[t].Direct? && -1 <= dupResult && dupResult != s.threads[t].fenceFd
    case RetryImport(t, _, clone, _, _) =>
      t < |s.threads| && s.threads[t].Retry? && clone !in s.cache.live
    case Finish(t) => t < |s.threads| && s.threads[t].Done?
    case UnlockStep(t, _) => t < |s.threads| && s.threads[t].Idle?
    case FreeStep(_) => true
  }

  // Logs what the caller asked for and was given.
  function LogLock(calls: seq<Call>, thread: nat, raw: int, ycbcr: bool, status: Status, given: int): seq<Call> {
    if status == NoError then calls + [CacheLocked(thread, raw, given, ycbcr)] else calls
  }

  function Apply(s: State, step: Step): State
    requires Enabled(s, step)
  {
    match step
    case StartLock(t, raw, ycbcr, fenceFd) =>
      if raw in s.cache.entries then
        var (cache, status, given) := s.cache.LockEntry(raw, ycbcr);
        State(cache, s.threads[t := Done(status, fenceFd, -1, CloseIfOpen(fenceFd))],
              LogLock(s.calls, t, raw, ycbcr, status, given))
      else
        s.(threads := s.threads[t := Direct(raw, ycbcr, fenceFd)])
    case TryRaw(t, dupResult, error) =>
      var Direct(raw, ycbcr, fenceFd) := s.threads[t];
      var dupFd, used := Duplicate(fenceFd, dupResult), HandIfOpen(fenceFd);
      State(s.cache,
            s.threads[t :=
              if NeedsRetry(fenceFd, dupFd, error) then Retry(raw, ycbcr, fenceFd, dupFd, used)
              else Done(if error == NoMapperError then NoError else MapperFailed(error),
                        fenceFd, dupFd, used + CloseIfOpen(dupFd))],
            if error == NoMapperError then s.calls + [RawLocked(t, raw)] else s.calls)
    case RetryImport(t, imported, clone, locked, mapping) =>
      var Retry(raw, ycbcr, fenceFd, dupFd, used) := s.threads[t];
      var (cache, status, given) := s.cache.LockAgain(raw, ycbcr, imported, clone, locked, mapping);
      var last := if raw !in s.cache.entries && imported == NoMapperError then HandIfOpen(dupFd)
                  else CloseIfOpen(dupFd);
      State(cache, s.threads[t := Done(status, fenceFd, dupFd, used + last)],
            LogLock(s.calls, t, raw, ycbcr, status, given))
    case Finish(t) => s.(threads := s.threads[t := Idle])
    case UnlockStep(t, raw) =>
      s.(cache := if raw in s.cache.entries then s.cache.Unlock(raw) else s.cache,
         calls := s.calls + [Unlocked(t, raw)])
    case FreeStep(raw) =>
      s.(cache := if raw in s.cache.entries then s.cache.Free(raw) else s.cache,
         calls := s.calls + [Freed(raw)])
  }

  // ---- What the calls alone say ----

  // Locks of `raw` that were granted and not yet undone.
  function OpenLocks(calls: seq<Call>, raw: int): nat {
    if calls == [] then 0
    else
      var before, last := OpenLocks(calls[..|calls| - 1], raw), calls[|calls| - 1];
      if last.raw != raw then before
      else
        match last
        case CacheLocked(_, _, _, _) => before + 1
        case RawLocked(_, _) => before + 1
        case Unlocked(_, _) => if 0 < before then before - 1 else 0
        case Freed(_) => 0
  }

  // Those among them that the cache answered; while there are any, an unlock undoes one of them.
  function CacheLocks(calls: seq<Call>, raw: int): nat {
    if calls == [] then 0
    else
      var before, last := CacheLocks(calls[..|calls| - 1], raw), calls[|calls| - 1];
      if last.raw != raw then before
      else
        match last
        case CacheLocked(_, _, _, _) => before + 1
        case RawLocked(_, _) => before
        case Unlocked(_, _) => if 0 < before then before - 1 else 0
        case Freed(_) => 0
  }

  // Those among them that the mapper granted on the raw handle.
  function RawLocks(calls: seq<Call>, raw: int): nat {
    if calls == [] then 0
    else
      var front, last := calls[..|calls| - 1], calls[|calls| - 1];
      var before := RawLocks(front, raw);
      if last.raw != raw then before
      else
        match last
        case CacheLocked(_, _, _, _) => before
        case RawLocked(_, _) => before + 1
        case Unlocked(_, _) => if CacheLocks(front, raw) == 0 && 0 < before then before - 1 else before
        case Freed(_) => 0
  }

  lemma {:induction false} OpenLocksAddUp(calls: seq<Call>, raw: int)
    ensures OpenLocks(calls, raw) == CacheLocks(calls, raw) + RawLocks(calls, raw)
  {
    if calls != [] { OpenLocksAddUp(calls[..|calls| - 1], raw); }
  }

  // What the lock that opened the current nesting of `raw` in the cache returned, and its kind.
  function Opening(calls: seq<Call>, raw: int): Option<(int, bool)> {
    if calls == [] then None
    else
      var front, last := calls[..|calls| - 1], calls[|calls| - 1];
      if last.CacheLocked? && last.raw == raw && CacheLocks(front, raw) == 0
      then Some((last.mapping, last.ycbcr))
      else Opening(front, raw)
  }

  // lockCount has 32 bits: no cached buffer is ever locked 2^32 times over.
  predicate CountsFit(calls: seq<Call>) {
    calls != [] ==>
      && CountsFit(calls[..|calls| - 1])
      && (calls[|calls| - 1].CacheLocked? ==> CacheLocks(calls, calls[|calls| - 1].raw) < TWO_TO_32)
  }

  // Every lock nested in another in the cache returned what that one had returned.
  predicate NestedLocksAgree(calls: seq<Call>) {
    calls != [] ==>
      var front, last := calls[..|calls| - 1], calls[|calls| - 1];
      && NestedLocksAgree(front)
      && (last.CacheLocked? && 0 < CacheLocks(front, last.raw) ==>
            Opening(front, last.raw) == Some((last.mapping, last.ycbcr)))
  }

  function Uses(used: seq<FenceEvent>, fd: int): nat {
    if used == [] then 0
    else Uses(used[..|used| - 1], fd) + if used[|used| - 1].fd == fd then 1 else 0
  }

  // Each descriptor of a finished call was closed or handed over once, and no other was touched.
  ghost predicate FencesUsedOnce(t: Thread)
    requires t.Done?
  {
    forall fd :: Uses(t.used, fd) == if fd >= 0 && (fd == t.fenceFd || fd == t.dupFd) then 1 else 0
  }

  // ---- The invariant ----

  ghost predicate ThreadOk(t: Thread) {
    match t
    case Idle => true
    case Direct(_, _, _) => true
    case Retry(_, _, fenceFd, dupFd, used) =>
      used == HandIfOpen(fenceFd) && (dupFd >= 0 ==> fenceFd >= 0 && dupFd != fenceFd)
    case Done(_, _, _, _) => FencesUsedOnce(t)
  }

  // One live clone per entry and no others.
  ghost predicate ClonesMatch(c: Cache) {
    && (forall r :: r in c.entries ==> c.entries[r].handle in c.live)
    && (forall h :: h in c.live ==> exists r :: r in c.entries && c.entries[r].handle == h)
    && (forall r, q :: r in c.entries && q in c.entries && r != q ==>
          c.entries[r].handle != c.entries[q].handle)
  }

  // An entry is exactly an open nesting, with its depth and its first mapping.
  ghost predicate EntriesMatch(c: Cache, calls: seq<Call>) {
    forall r ::
      if r in c.entries then
        && c.entries[r].lockCount == CacheLocks(calls, r) && 1 <= c.entries[r].lockCount < TWO_TO_32
        && Opening(calls, r) == Some((c.entries[r].mapping, c.entries[r].isYCbCr))
      else CacheLocks(calls, r) == 0
  }

  ghost predicate Inv(s: State) {
    && (forall t :: t in s.threads ==> ThreadOk(t))
    && ClonesMatch(s.cache)
    && CallsMatch(s.cache, s.calls)
  }

  function Initial(threadCount: nat): State {
    State(Cache(map[], {}), seq(threadCount, _ => Idle), [])
  }

  lemma {:induction false} UsesConcat(a: seq<FenceEvent>, b: seq<FenceEvent>, fd: int)
    ensures Uses(a + b, fd) == Uses(a, fd) + Uses(b, fd)
  {
    if b == [] {
      assert a + b == a;
    } else {
      UsesConcat(a, b[..|b| - 1], fd);
      assert (a + b)[..|a + b| - 1] == a + b[..|b| - 1];
    }
  }

  lemma OneEvent(e: FenceEvent, fd: int)
    ensures Uses([e], fd) == if e.fd == fd then 1 else 0
  {
  }

  // Every way a call can end uses up the acquire fence, then the duplicate if there is one.
  lemma FencesAddUp(status: Status, fenceFd: int, dupFd: int, first: seq<FenceEvent>, last: seq<FenceEvent>)
    requires first == HandIfOpen(fenceFd) || first == CloseIfOpen(fenceFd)
    requires last == HandIfOpen(dupFd) || last == CloseIfOpen(dupFd)
    requires dupFd >= 0 ==> fenceFd >= 0 && dupFd != fenceFd
    ensures FencesUsedOnce(Done(status, fenceFd, dupFd, first + last))
  {
    forall fd
      ensures Uses(first + last, fd) == if fd >= 0 && (fd == fenceFd || fd == dupFd) then 1 else 0
    {
      UsesConcat(first, last, fd);
      if fenceFd >= 0 { OneEvent(first[0], fd); }
      if dupFd >= 0 { OneEvent(last[0], fd); }
    }
  }

  // The thread a step moves on.
  lemma MovedThreadOk(s: State, step: Step)
    requires Inv(s) && Enabled(s, step) && !step.UnlockStep? && !step.FreeStep?
    ensures ThreadOk(Apply(s, step).threads[step.t])
  {
    match step
    case StartLock(_, _, _, fenceFd) =>
      FencesAddUp(NoError, fenceFd, -1, CloseIfOpen(fenceFd), []);
      assert CloseIfOpen(fenceFd) + [] == CloseIfOpen(fenceFd);
    case TryRaw(t, dupResult, error) =>
      var fenceFd := s.threads[t].fenceFd;
      var dupFd := Duplicate(fenceFd, dupResult);
      FencesAddUp(NoError, fenceFd, dupFd, HandIfOpen(fenceFd), CloseIfOpen(dupFd));
    case RetryImport(t, _, _, _, _) =>
      var Retry(_, _, fenceFd, dupFd, _) := s.threads[t];
      assert ThreadOk(s.threads[t]);
      FencesAddUp(NoError, fenceFd, dupFd, HandIfOpen(fenceFd), CloseIfOpen(dupFd));
      FencesAddUp(NoError, fenceFd, dupFd, HandIfOpen(fenceFd), HandIfOpen(dupFd));
    case Finish(_) =>
  }

  lemma ThreadsKeep(s: State, step: Step)
    requires Inv(s) && Enabled(s, step)
    ensures forall t :: t in Apply(s, step).threads ==> ThreadOk(t)
  {
    if !step.UnlockStep? && !step.FreeStep? { MovedThreadOk(s, step); }
  }

  lemma FreeKeepsClones(c: Cache, raw: int)
    requires ClonesMatch(c) && raw in c.entries
    ensures ClonesMatch(c.Free(raw))
  {
    var d := c.Free(raw);
    forall h | h in d.live
      ensures exists r :: r in d.entries && d.entries[r].handle == h
    {
      var r :| r in c.entries && c.entries[r].handle == h;
      assert r in d.entries && d.entries[r].handle == h;
    }
  }

  lemma CountKeepsClones(c: Cache, raw: int, lockCount: nat)
    requires ClonesMatch(c) && raw in c.entries
    ensures ClonesMatch(c.(entries := c.entries[raw := c.entries[raw].(lockCount := lockCount)]))
  {
    var d := c.(entries := c.entries[raw := c.entries[raw].(lockCount := lockCount)]);
    forall h | h in d.live
      ensures exists r :: r in d.entries && d.entries[r].handle == h
    {
      var r :| r in c.entries && c.entries[r].handle == h;
      assert r in d.entries && d.entries[r].handle == h;
    }
  }

  lemma ImportKeepsClones(c: Cache, raw: int, e: Entry)
    requires ClonesMatch(c) && raw !in c.entries && e.handle !in c.live
    ensures ClonesMatch(Cache(c.entries[raw := e], c.live + {e.handle}))
  {
    var d := Cache(c.entries[raw := e], c.live + {e.handle});
    forall h | h in d.live
      ensures exists r :: r in d.entries && d.entries[r].handle == h
    {
      if h in c.live {
        var r :| r in c.entries && c.entries[r].handle == h;
        assert r in d.entries && d.entries[r].handle == h;
      } else {
        assert d.entries[raw].handle == h;
      }
    }
  }

  lemma ClonesKeep(s: State, step: Step)
    requires Inv(s) && Enabled(s, step)
    ensures ClonesMatch(Apply(s, step).cache)
  {
    var c := s.cache;
    match step
    case StartLock(_, raw, _, _) =>
      if raw in c.entries { CountKeepsClones(c, raw, (c.entries[raw].lockCount + 1) % TWO_TO_32); }
    case RetryImport(n, _, clone, _, mapping) =>
      var raw, ycbcr := s.threads[n].raw, s.threads[n].ycbcr;
      if raw in c.entries {
        CountKeepsClones(c, raw, (c.entries[raw].lockCount + 1) % TWO_TO_32);
      } else {
        ImportKeepsClones(c, raw, Entry(clone, 1, mapping, ycbcr));
      }
    case UnlockStep(_, raw) =>
      if raw in c.entries {
        FreeKeepsClones(c, raw);
        if c.entries[raw].lockCount > 1 { CountKeepsClones(c, raw, c.entries[raw].lockCount - 1); }
      }
    case FreeStep(raw) => if raw in c.entries { FreeKeepsClones(c, raw); }
    case _ =>
  }

  ghost predicate CallsMatch(c: Cache, calls: seq<Call>) {
    CountsFit(calls) ==> EntriesMatch(c, calls) && NestedLocksAgree(calls)
  }

  lemma LockEntryKeeps(c: Cache, calls: seq<Call>, thread: nat, raw: int, ycbcr: bool)
    requires CallsMatch(c, calls) && raw in c.entries
    ensures var (d, status, given) := c.LockEntry(raw, ycbcr);
            CallsMatch(d, LogLock(calls, thread, raw, ycbcr, status, given))
  {
  }

  lemma ImportKeeps(c: Cache, calls: seq<Call>, thread: nat, raw: int, ycbcr: bool, imported: MapperError,
                    clone: int, locked: MapperError, mapping: int)
    requires CallsMatch(c, calls) && raw !in c.entries
    ensures var (d, status, given) := c.LockImported(raw, ycbcr, imported, clone, locked, mapping);
            CallsMatch(d, LogLock(calls, thread, raw, ycbcr, status, given))
  {
  }

  lemma UndoKeeps(c: Cache, calls: seq<Call>, thread: nat, raw: int)
    requires CallsMatch(c, calls) && raw in c.entries
    ensures CallsMatch(c.Unlock(raw), calls + [Unlocked(thread, raw)])
    ensures CallsMatch(c.Free(raw), calls + [Freed(raw)])
  {
  }

  // Calls that the mapper answers do not touch the cache.
  lemma MissKeeps(c: Cache, calls: seq<Call>, thread: nat, raw: int)
    requires CallsMatch(c, calls)
    ensures CallsMatch(c, calls + [RawLocked(thread, raw)])
    ensures raw !in c.entries ==>
              CallsMatch(c, calls + [Unlocked(thread, raw)]) && CallsMatch(c, calls + [Freed(raw)])
  {
  }

  lemma CallsKeep(s: State, step: Step)
    requires Inv(s) && Enabled(s, step)
    ensures CallsMatch(Apply(s, step).cache, Apply(s, step).calls)
  {
    match step
    case StartLock(t, raw, ycbcr, _) =>
      if raw in s.cache.entries { LockEntryKeeps(s.cache, s.calls, t, raw, ycbcr); }
    case TryRaw(t, _, _) => MissKeeps(s.cache, s.calls, t, s.threads[t].raw);
    case RetryImport(t, imported, clone, locked, mapping) =>
      var raw, ycbcr := s.threads[t].raw, s.threads[t].ycbcr;
      if raw in s.cache.entries {
        LockEntryKeeps(s.cache, s.calls, t, raw, ycbcr);
      } else {
        ImportKeeps(s.cache, s.calls, t, raw, ycbcr, imported, clone, locked, mapping);
      }
    case UnlockStep(t, raw) =>
      MissKeeps(s.cache, s.calls, t, raw);
      if raw in s.cache.entries { UndoKeeps(s.cache, s.calls, t, raw); }
    case FreeStep(raw) =>
      MissKeeps(s.cache, s.calls, 0, raw);
      if raw in s.cache.entries { UndoKeeps(s.cache, s.calls, 0, raw); }
    case Finish(_) =>
  }

  lemma StepKeeps(s: State, step: Step)
    requires Inv(s) && Enabled(s, step)
    ensures Inv(Apply(s, step))
  {
    ThreadsKeep(s, step);
    ClonesKeep(s, step);
    CallsKeep(s, step);
  }

  // ---- Runs ----

  ghost predicate Next(s: State, step: Step, t: State) {
    Enabled(s, step) && t == Apply(s, step)
  }

  ghost predicate Reachable(threadCount: nat, s: State) {
    Reaches(Next, Initial(threadCount), s)
  }

  lemma ReachableInv(threadCount: nat, s: State)
    requires Reachable(threadCount, s)
    ensures Inv(s)
  {
    forall s, step, t | Inv(s) && Next(s, step, t)
      ensures Inv(t)
    {
      StepKeeps(s, step);
    }
    ReachesKeeps(Next, Inv, Initial(threadCount), s);
  }

  // One step further on a run.
  lemma Then(threadCount: nat, s: State, step: Step) returns (t: State)
    requires Reachable(threadCount, s) && Enabled(s, step)
    ensures t == Apply(s, step) && Reachable(threadCount, t)
  {
    t := Apply(s, step);
    ReachesThen(Next, Initial(threadCount), s, step, t);
  }

  // ---- What the cache guarantees ----

  // In every interleaving: the live clones are those of the entries, one each; a finished call
  // has used up its fence and its duplicate exactly once.
  lemma ClonesAndFencesAreLinear(threadCount: nat, s: State)
    requires Reachable(threadCount, s)
    ensures s.cache.live == Handles(s.cache, s.cache.entries.Keys)
    ensures |s.cache.live| == |s.cache.entries.Keys|
    ensures forall t :: t in s.threads && t.Done? ==> FencesUsedOnce(t)
  {
    ReachableInv(threadCount, s);
    var c := s.cache;
    assert forall h :: h in c.live ==> h in Handles(c, c.entries.Keys);
    OneClonePerEntry(c, c.entries.Keys);
    forall t | t in s.threads && t.Done?
      ensures FencesUsedOnce(t)
    {
      assert ThreadOk(t);
    }
  }

  function Handles(c: Cache, keys: set<int>): set<int>
    requires keys <= c.entries.Keys
  {
    set r | r in keys :: c.entries[r].handle
  }

  lemma {:induction false} OneClonePerEntry(c: Cache, keys: set<int>)
    requires keys <= c.entries.Keys
    requires forall r, q :: r in keys && q in keys && r != q ==>
               c.entries[r].handle != c.entries[q].handle
    ensures |Handles(c, keys)| == |keys|
    decreases keys
  {
    if r :| r in keys {
      OneClonePerEntry(c, keys - {r});
      assert Handles(c, keys) == Handles(c, keys - {r}) + {c.entries[r].handle};
    }
  }

  function Count(c: Cache, raw: int): nat {
    if raw in c.entries then c.entries[raw].lockCount else 0
  }

  // An entry exists exactly while locks that the cache answered are open, and counts them, so the
  // branch of unlockAsync that meets a zero count is dead. The count is that of all open locks
  // exactly if the mapper has granted none of them on the raw handle.
  lemma CountIsOpenLocks(threadCount: nat, s: State, raw: int)
    requires Reachable(threadCount, s) && CountsFit(s.calls)
    ensures raw in s.cache.entries <==> 0 < CacheLocks(s.calls, raw)
    ensures raw in s.cache.entries ==> s.cache.entries[raw].lockCount == CacheLocks(s.calls, raw) != 0
    ensures Count(s.cache, raw) == OpenLocks(s.calls, raw) <==> RawLocks(s.calls, raw) == 0
    ensures (forall call :: call in s.calls && call.RawLocked? ==> call.raw != raw) ==>
              Count(s.cache, raw) == OpenLocks(s.calls, raw)
  {
    ReachableInv(threadCount, s);
    OpenLocksAddUp(s.calls, raw);
    if forall call :: call in s.calls && call.RawLocked? ==> call.raw != raw {
      NeverGranted(s.calls, raw);
    }
  }

  lemma {:induction false} NeverGranted(calls: seq<Call>, raw: int)
    requires forall call :: call in calls && call.RawLocked? ==> call.raw != raw
    ensures RawLocks(calls, raw) == 0
  {
    if calls != [] {
      assert forall call :: call in calls[..|calls| - 1] ==> call in calls;
      assert calls[|calls| - 1] in calls;
      NeverGranted(calls[..|calls| - 1], raw);
    }
  }

  predicate GrantsRaw(s: State, step: Step, raw: int)
    requires Enabled(s, step)
  {
    step.TryRaw? && step.error == NoMapperError && s.threads[step.t].raw == raw
  }

  // A lock of `raw` that the cache answers, at either look-up.
  predicate LocksEntry(s: State, step: Step, raw: int)
    requires Enabled(s, step)
  {
    raw in s.cache.entries &&
    match step
    case StartLock(_, r, ycbcr, _) => r == raw && s.cache.entries[raw].isYCbCr == ycbcr
    case RetryImport(t, _, _, _, _) =>
      s.threads[t].raw == raw && s.cache.entries[raw].isYCbCr == s.threads[t].ycbcr
    case _ => false
  }

  // From a right count, the steps that make it wrong are such a grant and the lock that takes the
  // count past its 32 bits.
  lemma OnlyRawGrantsMiscount(threadCount: nat, s: State, step: Step, raw: int)
    requires Reachable(threadCount, s) && Enabled(s, step) && CountsFit(s.calls)
    requires Count(s.cache, raw) == OpenLocks(s.calls, raw)
    ensures Count(Apply(s, step).cache, raw) == OpenLocks(Apply(s, step).calls, raw)
            <==> !GrantsRaw(s, step, raw)
                 && !(LocksEntry(s, step, raw) && Count(s.cache, raw) == TWO_TO_32 - 1)
  {
    CountIsOpenLocks(threadCount, s, raw);
    ReachableInv(threadCount, s);
    if CountsFit(Apply(s, step).calls) {
      FittingStep(threadCount, s, step, raw);
      if LocksEntry(s, step, raw) { FittingLockIsBelow(s, step, raw); }
    } else {
      OverflowingStep(s, step, raw);
    }
  }

  lemma FittingStep(threadCount: nat, s: State, step: Step, raw: int)
    requires Reachable(threadCount, s) && Enabled(s, step) && CountsFit(Apply(s, step).calls)
    requires RawLocks(s.calls, raw) == 0
    ensures Count(Apply(s, step).cache, raw) == OpenLocks(Apply(s, step).calls, raw)
            <==> !GrantsRaw(s, step, raw)
  {
    var t := Then(threadCount, s, step);
    CountIsOpenLocks(threadCount, t, raw);
    OnlyRawGrantsAddRawLocks(s, step, raw);
  }

  // A lock of an entry logs it.
  lemma LockEntryLogs(s: State, step: Step, raw: int)
    requires Enabled(s, step) && LocksEntry(s, step, raw)
    ensures var e := s.cache.entries[raw];
            && Apply(s, step).calls == s.calls + [CacheLocked(step.t, raw, e.mapping, e.isYCbCr)]
            && Count(Apply(s, step).cache, raw) == (e.lockCount + 1) % TWO_TO_32
  {
  }

  lemma FittingLockIsBelow(s: State, step: Step, raw: int)
    requires Inv(s) && Enabled(s, step) && CountsFit(s.calls) && CountsFit(Apply(s, step).calls)
    requires LocksEntry(s, step, raw)
    ensures Count(s.cache, raw) < TWO_TO_32 - 1
  {
    var e := s.cache.entries[raw];
    LockEntryLogs(s, step, raw);
    CacheLocksAfter(s.calls, CacheLocked(step.t, raw, e.mapping, e.isYCbCr));
  }

  // Only the lock of an entry at its limit overflows, and that leaves the other handles alone.
  lemma OverflowingStep(s: State, step: Step, raw: int)
    requires Inv(s) && Enabled(s, step) && CountsFit(s.calls) && !CountsFit(Apply(s, step).calls)
    ensures !GrantsRaw(s, step, raw)
    ensures if LocksEntry(s, step, raw) then
              && Count(s.cache, raw) == TWO_TO_32 - 1 && Count(Apply(s, step).cache, raw) == 0
              && OpenLocks(Apply(s, step).calls, raw) == OpenLocks(s.calls, raw) + 1
            else
              && Count(Apply(s, step).cache, raw) == Count(s.cache, raw)
              && OpenLocks(Apply(s, step).calls, raw) == OpenLocks(s.calls, raw)
  {
    StepLogsOneCall(s, step);
    var call := Apply(s, step).calls[|s.calls|];
    CallOverflows(s.calls, call);
    if LocksEntry(s, step, call.raw) {
      LockEntryLogs(s, step, call.raw);
      CacheLocksAfter(s.calls, call);
    }
    if call.raw != raw { OtherHandles(s.calls, call, raw); }
  }

  lemma CallOverflows(calls: seq<Call>, call: Call)
    requires CountsFit(calls) && !CountsFit(calls + [call])
    ensures call.CacheLocked? && CacheLocks(calls, call.raw) + 1 >= TWO_TO_32
  {
    assert (calls + [call])[..|calls|] == calls;
    if call.CacheLocked? { CacheLocksAfter(calls, call); }
  }

  lemma OtherHandles(calls: seq<Call>, call: Call, raw: int)
    requires call.raw != raw
    ensures OpenLocks(calls + [call], raw) == OpenLocks(calls, raw)
  {
    assert (calls + [call])[..|calls|] == calls;
  }

  lemma OnlyRawGrantsAddRawLocks(s: State, step: Step, raw: int)
    requires Enabled(s, step) && RawLocks(s.calls, raw) == 0
    ensures RawLocks(Apply(s, step).calls, raw) == 0 <==> !GrantsRaw(s, step, raw)
  {
    var calls := Apply(s, step).calls;
    if calls != s.calls {
      StepLogsOneCall(s, step);
      RawLocksAfter(s.calls, calls[|s.calls|], raw);
    }
  }

  lemma StepLogsOneCall(s: State, step: Step)
    requires Enabled(s, step) && Apply(s, step).calls != s.calls
    ensures |Apply(s, step).calls| == |s.calls| + 1
    ensures Apply(s, step).calls == s.calls + [Apply(s, step).calls[|s.calls|]]
    ensures Apply(s, step).calls[|s.calls|].RawLocked? <==> step.TryRaw?
    ensures step.TryRaw? ==>
              step.error == NoMapperError && Apply(s, step).calls[|s.calls|].raw == s.threads[step.t].raw
  {
  }

  lemma RawLocksAfter(calls: seq<Call>, call: Call, raw: int)
    requires RawLocks(calls, raw) == 0
    ensures RawLocks(calls + [call], raw) == 0 <==> !(call.RawLocked? && call.raw == raw)
  {
    assert (calls + [call])[..|calls|] == calls;
  }

  // Then the count may run out under an open lock: thread 0 locks the raw handle, thread 1's lock is
  // refused and imports a clone, and thread 0's unlock frees that clone.
  lemma ForeignUnlockFreesClone(raw: int, clone: int, mapping: int)
    ensures exists s ::
              && Reachable(2, s) && CountsFit(s.calls)
              && s.calls == [RawLocked(0, raw), CacheLocked(1, raw, mapping, false), Unlocked(0, raw)]
              && OpenLocks(s.calls, raw) == 1
              && s.cache == Cache(map[], {})
  {
    var s := Initial(2);
    ReachesItself(Next, s);
    s := Then(2, s, StartLock(0, raw, false, -1));
    s := Then(2, s, TryRaw(0, 0, NoMapperError));
    s := Then(2, s, Finish(0));
    s := Then(2, s, StartLock(1, raw, false, -1));
    s := Then(2, s, TryRaw(1, 0, BadBuffer));
    s := Then(2, s, RetryImport(1, NoMapperError, clone, NoMapperError, mapping));
    assert s.calls == [RawLocked(0, raw), CacheLocked(1, raw, mapping, false)];
    s := Then(2, s, UnlockStep(0, raw));
    ThreeCalls(s.calls, raw);
  }

  lemma ThreeCalls(calls: seq<Call>, raw: int)
    requires |calls| == 3 && calls[0].raw == calls[1].raw == calls[2].raw == raw
    requires calls[0].RawLocked? && calls[1].CacheLocked? && calls[2].Unlocked?
    ensures OpenLocks(calls, raw) == 1 && CountsFit(calls)
  {
    var one, two := calls[..1], calls[..2];
    assert one[..0] == [] && two[..1] == one;
    assert OpenLocks(one, raw) == 1 && CacheLocks(one, raw) == 0 && CountsFit(one);
    assert OpenLocks(two, raw) == 2 && CacheLocks(two, raw) == 1 && CountsFit(two);
  }

  // ---- The width of the count ----

  // One more lock makes the count zero exactly if 2^32 - 1 are open.
  lemma ZeroCountOnlyByOverflow(threadCount: nat, s: State, raw: int)
    requires Reachable(threadCount, s) && CountsFit(s.calls) && raw in s.cache.entries
    ensures s.cache.LockEntry(raw, s.cache.entries[raw].isYCbCr).0.entries[raw].lockCount == 0
            <==> CacheLocks(s.calls, raw) == TWO_TO_32 - 1
  {
    ReachableInv(threadCount, s);
  }

  // The cache with one buffer in it, after n locks.
  function OneEntry(n: nat, raw: int, clone: int): Cache {
    Cache(map[raw := Entry(clone, n % TWO_TO_32, 0, false)], {clone})
  }

  lemma LockOneEntry(n: nat, raw: int, clone: int)
    ensures raw in OneEntry(n, raw, clone).entries
    ensures OneEntry(n, raw, clone).LockEntry(raw, false) == (OneEntry(n + 1, raw, clone), NoError, 0)
  {
    var (after, status, _) := OneEntry(n, raw, clone).LockEntry(raw, false);
    assert (n % TWO_TO_32 + 1) % TWO_TO_32 == (n + 1) % TWO_TO_32;
    assert after.entries == OneEntry(n + 1, raw, clone).entries;
  }

  // A single thread that has locked one buffer n times.
  ghost predicate Nested(s: State, n: nat, raw: int, clone: int) {
    && Reachable(1, s) && s.threads == [Idle]
    && s.cache == OneEntry(n, raw, clone)
    && OpenLocks(s.calls, raw) == CacheLocks(s.calls, raw) == n
  }

  lemma LockOnce(raw: int, clone: int) returns (s: State)
    ensures Nested(s, 1, raw, clone) && CountsFit(s.calls)
  {
    s := Initial(1);
    ReachesItself(Next, s);
    s := Then(1, s, StartLock(0, raw, false, -1));
    s := Then(1, s, TryRaw(0, 0, BadBuffer));
    s := Then(1, s, RetryImport(0, NoMapperError, clone, NoMapperError, 0));
    s := Then(1, s, Finish(0));
    assert s.calls[..0] == [];
  }

  lemma LockAgain(s: State, n: nat, raw: int, clone: int) returns (t: State)
    requires Nested(s, n, raw, clone)
    ensures Nested(t, n + 1, raw, clone)
    ensures CountsFit(s.calls) && n + 1 < TWO_TO_32 ==> CountsFit(t.calls)
  {
    LockOneEntry(n, raw, clone);
    var locked := Then(1, s, StartLock(0, raw, false, -1));
    assert locked.cache == OneEntry(n + 1, raw, clone);
    assert locked.calls == s.calls + [CacheLocked(0, raw, 0, false)];
    CacheLocksAfter(s.calls, CacheLocked(0, raw, 0, false));
    t := Then(1, locked, Finish(0));
  }

  lemma CacheLocksAfter(calls: seq<Call>, call: Call)
    requires call.CacheLocked?
    ensures CacheLocks(calls + [call], call.raw) == CacheLocks(calls, call.raw) + 1
    ensures OpenLocks(calls + [call], call.raw) == OpenLocks(calls, call.raw) + 1
    ensures CountsFit(calls + [call]) <==> CountsFit(calls) && CacheLocks(calls, call.raw) + 1 < TWO_TO_32
  {
    assert (calls + [call])[..|calls|] == calls;
  }

  lemma {:induction false} LockManyTimes(n: nat, raw: int, clone: int) returns (s: State)
    requires 1 <= n < TWO_TO_32
    ensures Nested(s, n, raw, clone) && CountsFit(s.calls)
  {
    if n == 1 {
      s := LockOnce(raw, clone);
    } else {
      s := LockManyTimes(n - 1, raw, clone);
      s := LockAgain(s, n - 1, raw, clone);
    }
  }

  // That state is reached, and the unlock after it frees the clone under 2^32 - 1 open locks.
  lemma OverflowFreesLockedClone(raw: int, clone: int)
    ensures exists s, t ::
              && Reachable(1, s) && OpenLocks(s.calls, raw) == TWO_TO_32 && Count(s.cache, raw) == 0
              && raw in s.cache.entries && Enabled(s, UnlockStep(0, raw)) && t == Apply(s, UnlockStep(0, raw))
              && OpenLocks(t.calls, raw) == TWO_TO_32 - 1 && t.cache == Cache(map[], {})
  {
    var s := LockManyTimes(TWO_TO_32 - 1, raw, clone);
    s := LockAgain(s, TWO_TO_32 - 1, raw, clone);
    var t := Then(1, s, UnlockStep(0, raw));
    assert t.calls[..|t.calls| - 1] == s.calls;
  }

  // The kind an entry answers to is the kind that the lock which opened the nesting asked for, and
  // the mapping it gives is the one that lock was given.
  lemma EntryAnswersLikeOpening(threadCount: nat, s: State, raw: int, ycbcr: bool)
    requires Reachable(threadCount, s) && CountsFit(s.calls) && raw in s.cache.entries
    ensures var (_, status, given) := s.cache.LockEntry(raw, ycbcr);
            && Opening(s.calls, raw).Some?
            && var (mapping, kind) := Opening(s.calls, raw).value;
               && status == (if ycbcr == kind then NoError else BadValue)
               && (status == NoError ==> given == mapping)
  {
    ReachableInv(threadCount, s);
  }

  // ---- The three stages of a lock call ----

  // The first look-up: a hit closes the fence, and only a miss goes on.
  lemma FirstLookUp(s: State, t: nat, raw: int, ycbcr: bool, fenceFd: int)
    requires Enabled(s, StartLock(t, raw, ycbcr, fenceFd))
    ensures var u := Apply(s, StartLock(t, raw, ycbcr, fenceFd));
            && |u.threads| == |s.threads|
            && (raw !in s.cache.entries ==>
                  u.threads[t] == Direct(raw, ycbcr, fenceFd) && u.cache == s.cache && u.calls == s.calls)
            && (raw in s.cache.entries ==>
                  && u.threads[t].Done? && u.threads[t].fenceFd == fenceFd && u.threads[t].dupFd == -1
                  && u.threads[t].used == (if fenceFd >= 0 then [Closed(fenceFd)] else [])
                  && (u.threads[t].status == NoError <==> ycbcr == s.cache.entries[raw].isYCbCr)
                  && (u.threads[t].status == NoError ==>
                        u.calls == s.calls + [CacheLocked(t, raw, s.cache.entries[raw].mapping, ycbcr)]))
  {
  }

  // The attempt on the raw handle: it uses up the fence, and goes on just if the mapper answers
  // BAD_BUFFER and a fence could be kept for the second attempt.
  lemma RawAttempt(s: State, t: nat, dupResult: int, error: MapperError)
    requires Enabled(s, TryRaw(t, dupResult, error))
    ensures var before, u := s.threads[t], Apply(s, TryRaw(t, dupResult, error));
            var after := u.threads[t];
            var hasFence := before.fenceFd >= 0;
            var handed := if hasFence then [Handed(before.fenceFd)] else [];
            && u.cache == s.cache
            && u.calls == (if error == NoMapperError then s.calls + [RawLocked(t, before.raw)] else s.calls)
            && (after.Retry? <==> error == BadBuffer && (hasFence ==> dupResult != -1))
            && (after.Retry? ==>
                  && after.raw == before.raw && after.ycbcr == before.ycbcr && after.fenceFd == before.fenceFd
                  && after.dupFd == (if hasFence then dupResult else -1) && after.used == handed)
            && (!after.Retry? ==>
                  && after.Done? && after.fenceFd == before.fenceFd
                  && after.used == handed + (if hasFence && dupResult != -1 then [Closed(dupResult)] else [])
                  && after.status == (if error == NoMapperError then NoError else MapperFailed(error)))
  {
  }

  // The second look-up: an import that succeeds is entered as what was asked for, one that fails
  // leaves nothing behind, and the duplicate goes to the mapper just if a clone is locked with it.
  lemma SecondLookUp(s: State, t: nat, imported: MapperError, clone: int, locked: MapperError, mapping: int)
    requires Enabled(s, RetryImport(t, imported, clone, locked, mapping))
    ensures var before, u := s.threads[t], Apply(s, RetryImport(t, imported, clone, locked, mapping));
            var after, raw := u.threads[t], before.raw;
            && after.Done? && after.fenceFd == before.fenceFd && after.dupFd == before.dupFd
            && (raw in s.cache.entries ==>
                  && u.cache.live == s.cache.live
                  && after.used == before.used + (if before.dupFd >= 0 then [Closed(before.dupFd)] else [])
                  && (after.status == NoError <==> before.ycbcr == s.cache.entries[raw].isYCbCr)
                  && (after.status == NoError ==>
                        u.calls == s.calls + [CacheLocked(t, raw, s.cache.entries[raw].mapping, before.ycbcr)]))
            && (raw !in s.cache.entries ==>
                  var ok := imported == NoMapperError && locked == NoMapperError;
                  && after.used == before.used
                       + (if before.dupFd < 0 then []
                          else if imported == NoMapperError then [Handed(before.dupFd)]
                          else [Closed(before.dupFd)])
                  && (ok ==>
                        && after.status == NoError
                        && u.calls == s.calls + [CacheLocked(t, raw, mapping, before.ycbcr)]
                        && u.cache.live == s.cache.live + {clone}
                        && raw in u.cache.entries && u.cache.entries[raw].handle == clone)
                  && (!ok ==>
                        && u.cache == s.cache && u.calls == s.calls
                        && after.status ==
                             MapperFailed(if imported != NoMapperError then imported else locked)))
  {
  }

  // Locks that the cache answers share the mapping of the one they are nested in.
  lemma NestedLocksShareMapping(threadCount: nat, s: State)
    requires Reachable(threadCount, s) && CountsFit(s.calls)
    ensures NestedLocksAgree(s.calls)
  {
    ReachableInv(threadCount, s);
  }

  // A lock of the other kind fails and changes no entry, wherever the entry is found.
  lemma OtherKindChangesNothing(s: State, step: Step)
    requires Enabled(s, step) && (step.StartLock? || step.RetryImport?)
    requires var (raw, ycbcr) := if step.StartLock? then (step.raw, step.ycbcr)
                                 else (s.threads[step.t].raw, s.threads[step.t].ycbcr);
             raw in s.cache.entries && s.cache.entries[raw].isYCbCr != ycbcr
    ensures var u := Apply(s, step);
            && u.cache == s.cache && u.calls == s.calls
            && u.threads[step.t].Done? && u.threads[step.t].status == BadValue
  {
  }
}
