/** One scan of poll(): the round-robin pass over the queues that runs under the lock until
    the caller's buffer is full or every queue has been seen empty
    (device/huawei/mozart/sensors/multihal.cpp). */
module PollScan {
  import opened SensorQueue
  import opened SensorHandles

  const META_DATA := 0

  // An event together with the index of the module it came from.
  datatype Tagged = Tagged(moduleIndex: nat, event: Event)

  // ---- Remapping local handles to global ones ----

  function Remap(reg: Registry, moduleIndex: nat, e: Event): Event {
    if e.kind == META_DATA
    then e.(metaSensor := reg.GlobalHandle(FullHandle(moduleIndex, e.metaSensor)))
    else e.(sensor := reg.GlobalHandle(FullHandle(moduleIndex, e.sensor)))
  }

  predicate Dropped(reg: Registry, moduleIndex: nat, e: Event) {
    Remap(reg, moduleIndex, e).sensor == -1
  }

  // A normal event is dropped exactly when its handle was never registered; a metadata event
  // is judged by its own sensor field, which is 0, and so survives an unknown inner handle.
  lemma DroppedIff(handles: seq<FullHandle>, moduleIndex: nat, e: Event)
    ensures Dropped(RegisterAll(handles), moduleIndex, e) <==>
              if e.kind == META_DATA then e.sensor == -1
              else FullHandle(moduleIndex, e.sensor) !in handles
  {
    UnknownIsMinusOne(handles, FullHandle(moduleIndex, e.sensor));
  }

  // Remapping changes one handle only: the one a caller looks at. It then leads back to the module
  // and the sensor the event came from, or is -1, exactly if that sensor was never registered.
  lemma RemapRoutesBack(handles: seq<FullHandle>, moduleIndex: nat, e: Event)
    ensures var reg := RegisterAll(handles);
            var f := Remap(reg, moduleIndex, e);
            var (local, global) := if e.kind == META_DATA then (e.metaSensor, f.metaSensor)
                                   else (e.sensor, f.sensor);
            && f.kind == e.kind && f.payload == e.payload
            && (if e.kind == META_DATA then f.sensor == e.sensor else f.metaSensor == e.metaSensor)
            && (global == -1 <==> FullHandle(moduleIndex, local) !in handles)
            && (global != -1 ==>
                  reg.ModuleIndex(global) == moduleIndex && reg.LocalHandle(global) == local)
  {
    var local := if e.kind == META_DATA then e.metaSensor else e.sensor;
    UnknownIsMinusOne(handles, FullHandle(moduleIndex, local));
    if FullHandle(moduleIndex, local) in handles {
      HandlesRouteBack(handles, FullHandle(moduleIndex, local));
    }
  }

  // ---- What a log of taken events delivers ----

  function Deliver(reg: Registry, taken: seq<Tagged>): seq<Tagged> {
    if taken == [] then []
    else
      var t := taken[|taken| - 1];
      Deliver(reg, taken[..|taken| - 1])
      + if Dropped(reg, t.moduleIndex, t.event) then []
        else [t.(event := Remap(reg, t.moduleIndex, t.event))]
  }

  // The events of one module, in order.
  function Only(log: seq<Tagged>, moduleIndex: nat): seq<Event> {
    if log == [] then []
    else
      var t := log[|log| - 1];
      Only(log[..|log| - 1], moduleIndex) + if t.moduleIndex == moduleIndex then [t.event] else []
  }

  // What one module's events become on their way to the caller.
  function DeliverModule(reg: Registry, moduleIndex: nat, events: seq<Event>): seq<Event> {
    if events == [] then []
    else
      var e := events[|events| - 1];
      DeliverModule(reg, moduleIndex, events[..|events| - 1])
      + if Dropped(reg, moduleIndex, e) then [] else [Remap(reg, moduleIndex, e)]
  }

  lemma {:induction false} OnlyConcat(a: seq<Tagged>, b: seq<Tagged>, m: nat)
    ensures Only(a + b, m) == Only(a, m) + Only(b, m)
  {
    if b == [] {
      assert a + b == a;
    } else {
      OnlyConcat(a, b[..|b| - 1], m);
      assert (a + b)[..|a + b| - 1] == a + b[..|b| - 1];
    }
  }

  lemma {:induction false} DeliverConcat(reg: Registry, a: seq<Tagged>, b: seq<Tagged>)
    ensures Deliver(reg, a + b) == Deliver(reg, a) + Deliver(reg, b)
  {
    if b == [] {
      assert a + b == a;
    } else {
      DeliverConcat(reg, a, b[..|b| - 1]);
      assert (a + b)[..|a + b| - 1] == a + b[..|b| - 1];
    }
  }

  lemma {:induction false} DeliverModuleConcat(reg: Registry, m: nat, a: seq<Event>, b: seq<Event>)
    ensures DeliverModule(reg, m, a + b) == DeliverModule(reg, m, a) + DeliverModule(reg, m, b)
  {
    if b == [] {
      assert a + b == a;
    } else {
      DeliverModuleConcat(reg, m, a, b[..|b| - 1]);
      assert (a + b)[..|a + b| - 1] == a + b[..|b| - 1];
    }
  }

  // Delivery keeps the modules apart and each module's order.
  lemma {:induction false} DeliverPerModule(reg: Registry, taken: seq<Tagged>, m: nat)
    ensures Only(Deliver(reg, taken), m) == DeliverModule(reg, m, Only(taken, m))
  {
    if taken != [] {
      var front, t := taken[..|taken| - 1], taken[|taken| - 1];
      DeliverPerModule(reg, front, m);
      var passedOn := t.(event := Remap(reg, t.moduleIndex, t.event));
      OnlyConcat(Deliver(reg, front), [passedOn], m);
      assert Only([passedOn], m) == if t.moduleIndex == m then [passedOn.event] else [] by {
        assert [passedOn][..0] == [];
      }
      if t.moduleIndex == m {
        assert Only(taken, m)[..|Only(taken, m)| - 1] == Only(front, m);
      } else {
        assert Only(taken, m) == Only(front, m);
      }
      if Dropped(reg, t.moduleIndex, t.event) {
        assert Deliver(reg, taken) == Deliver(reg, front);
      }
    }
  }

  // ---- The scan ----

  datatype Pass = Pass(
    rings: seq<Ring>,
    nextReadIndex: nat,
    empties: nat,
    data: seq<Tagged>,      // what has been copied into the caller's buffer
    taken: seq<Tagged>,     // every event dequeued by this scan
    woken: set<nat>         // queues whose waiting writer was signalled
  ) {
    predicate WellFormed() {
      && nextReadIndex < |rings|
      && forall m :: 0 <= m < |rings| ==> rings[m].Valid()
    }
  }

  function NextIndex(i: nat, count: nat): (next: nat)
    requires i < count
    ensures next < count
  {
    if i + 1 == count then 0 else i + 1
  }

  // The body of the inner loop.
  function Visit(reg: Registry, p: Pass): Pass
    requires p.WellFormed()
  {
    var i, ring := p.nextReadIndex, p.rings[p.nextReadIndex];
    var next := NextIndex(i, |p.rings|);
    if ring.size == 0 then
      p.(empties := p.empties + 1, nextReadIndex := next)
    else
      var t := Tagged(i, ring.data[ring.start]);
      Pass(p.rings[i := ring.Dequeue()],
           next,
           0,
           if Dropped(reg, i, t.event) then p.data
           else p.data + [t.(event := Remap(reg, i, t.event))],
           p.taken + [t],
           if ring.Full() then p.woken + {i} else p.woken)
  }

  function TotalSize(rings: seq<Ring>): nat {
    if rings == [] then 0 else TotalSize(rings[..|rings| - 1]) + rings[|rings| - 1].size
  }

  lemma {:induction false} TotalSizeUpdate(rings: seq<Ring>, i: nat, r: Ring)
    requires i < |rings|
    ensures TotalSize(rings[i := r]) == TotalSize(rings) - rings[i].size + r.size
  {
    var n := |rings| - 1;
    if i < n {
      TotalSizeUpdate(rings[..n], i, r);
      assert rings[i := r][..n] == rings[..n][i := r];
    } else {
      assert rings[i := r][..n] == rings[..n];
    }
  }

  // Every visit takes an event or moves closer to having seen all queues empty, whether or not
  // the event is passed on.
  lemma VisitMakesProgress(reg: Registry, p: Pass)
    requires p.WellFormed()
    ensures var q := Visit(reg, p);
            && q.WellFormed() && |q.rings| == |p.rings|
            && (TotalSize(q.rings) < TotalSize(p.rings)
                || (q.rings == p.rings && q.empties == p.empties + 1))
  {
    var ring := p.rings[p.nextReadIndex];
    if ring.size != 0 {
      DequeueDropsOldest(ring);
      TotalSizeUpdate(p.rings, p.nextReadIndex, ring.Dequeue());
    }
  }

  predicate Scanning(p: Pass, maxReads: int) {
    p.empties < |p.rings| && |p.data| < maxReads
  }

  function Scan(reg: Registry, p: Pass, maxReads: int): (q: Pass)
    requires p.rings != [] ==> p.WellFormed()
    ensures q.rings != [] ==> q.WellFormed()
    ensures |q.rings| == |p.rings| && !Scanning(q, maxReads)
    decreases TotalSize(p.rings), |p.rings| - p.empties
  {
    if Scanning(p, maxReads) then
      VisitMakesProgress(reg, p);
      Scan(reg, Visit(reg, p), maxReads)
    else p
  }

  function StartPass(rings: seq<Ring>, nextReadIndex: nat): Pass {
    Pass(rings, nextReadIndex, 0, [], [], {})
  }

  // ---- What a scan keeps ----

  // `after` is `before` with `removed` dequeued; whatever region a writer owns, it still owns.
  ghost predicate Drained(before: Ring, after: Ring, removed: seq<Event>) {
    && before.Valid() && after.Valid()
    && after.data == before.data
    && before.Contents() == removed + after.Contents()
    && forall first: nat, length: nat ::
         before.Reserved(first, length) ==> after.Reserved(first, length)
  }

  lemma DequeueDrains(before: Ring, after: Ring, removed: seq<Event>)
    requires Drained(before, after, removed) && 0 < after.size
    ensures Drained(before, after.Dequeue(), removed + [after.data[after.start]])
  {
  }

  // How long ago the scan looked at queue m, counted in visits.
  function Behind(m: nat, next: nat, count: nat): int
    requires m < count && next < count
  {
    if m < next then next - 1 - m else next - 1 - m + count
  }

  ghost predicate SeenEmpty(p: Pass)
    requires p.WellFormed()
  {
    forall m :: 0 <= m < |p.rings| && Behind(m, p.nextReadIndex, |p.rings|) < p.empties ==>
      p.rings[m].size == 0
  }

  ghost predicate Account(reg: Registry, from: seq<Ring>, p: Pass) {
    && |p.rings| == |from|
    && p.data == Deliver(reg, p.taken)
    && (forall m :: 0 <= m < |from| ==> Drained(from[m], p.rings[m], Only(p.taken, m)))
    && (forall m :: 0 <= m < |from| && from[m].Full() && m !in p.woken ==> p.rings[m] == from[m])
    && (forall m :: m in p.woken ==> m < |from| && from[m].Full())
  }

  lemma StartAccounts(reg: Registry, rings: seq<Ring>, nextReadIndex: nat)
    requires forall m :: 0 <= m < |rings| ==> rings[m].Valid()
    ensures Account(reg, rings, StartPass(rings, nextReadIndex))
  {
  }

  lemma VisitAccounts(reg: Registry, from: seq<Ring>, p: Pass)
    requires p.WellFormed() && Account(reg, from, p)
    ensures Account(reg, from, Visit(reg, p))
  {
    var i, ring, q := p.nextReadIndex, p.rings[p.nextReadIndex], Visit(reg, p);
    if ring.size != 0 {
      assert q.taken[..|q.taken| - 1] == p.taken;
      DequeueDrains(from[i], ring, Only(p.taken, i));
      forall m | 0 <= m < |from|
        ensures Drained(from[m], q.rings[m], Only(q.taken, m))
      {
        if m != i { assert Only(q.taken, m) == Only(p.taken, m); }
      }
    }
  }

  lemma VisitSeesEmpty(reg: Registry, p: Pass)
    requires p.WellFormed() && SeenEmpty(p)
    ensures Visit(reg, p).WellFormed() && SeenEmpty(Visit(reg, p))
  {
  }

  lemma {:induction false} ScanAccounts(reg: Registry, from: seq<Ring>, p: Pass, maxReads: int)
    requires from != [] ==> p.WellFormed() && SeenEmpty(p)
    requires Account(reg, from, p)
    ensures var q := Scan(reg, p, maxReads);
            && Account(reg, from, q)
            && (from != [] ==> SeenEmpty(q))
            && (|p.data| <= maxReads ==> |q.data| <= maxReads)
    decreases TotalSize(p.rings), |p.rings| - p.empties
  {
    if Scanning(p, maxReads) {
      VisitMakesProgress(reg, p);
      VisitAccounts(reg, from, p);
      VisitSeesEmpty(reg, p);
      ScanAccounts(reg, from, Visit(reg, p), maxReads);
    }
  }

  // The outcome of a scan from scratch: it gives back at most maxReads events, and if it gives
  // back fewer, every queue is empty afterwards.
  lemma ScanOutcome(reg: Registry, rings: seq<Ring>, nextReadIndex: nat, maxReads: int)
    requires rings != [] ==> StartPass(rings, nextReadIndex).WellFormed()
    ensures var q := Scan(reg, StartPass(rings, nextReadIndex), maxReads);
            && Account(reg, rings, q)
            && (0 <= maxReads ==> |q.data| <= maxReads)
            && (|q.data| < maxReads ==> forall m :: 0 <= m < |rings| ==> q.rings[m].size == 0)
            && (maxReads <= 0 ==> q == StartPass(rings, nextReadIndex))
  {
    var p := StartPass(rings, nextReadIndex);
    StartAccounts(reg, rings, nextReadIndex);
    ScanAccounts(reg, rings, p, maxReads);
    var q := Scan(reg, p, maxReads);
    if |q.data| < maxReads {
      forall m | 0 <= m < |rings|
        ensures q.rings[m].size == 0
      {
        assert Behind(m, q.nextReadIndex, |q.rings|) < |q.rings|;
      }
    }
  }

  // poll() returns without waiting exactly when some queue holds an event worth delivering.
  lemma ScanReturnsIffDeliverable(reg: Registry, rings: seq<Ring>, nextReadIndex: nat, maxReads: int)
    requires rings != [] ==> StartPass(rings, nextReadIndex).WellFormed()
    requires 0 < maxReads
    ensures Scan(reg, StartPass(rings, nextReadIndex), maxReads).data != [] <==>
              exists m :: 0 <= m < |rings| && DeliverModule(reg, m, rings[m].Contents()) != []
  {
    ScanOutcome(reg, rings, nextReadIndex, maxReads);
    var q := Scan(reg, StartPass(rings, nextReadIndex), maxReads);
    forall m | 0 <= m < |rings|
      ensures DeliverModule(reg, m, rings[m].Contents())
              == Only(q.data, m) + DeliverModule(reg, m, q.rings[m].Contents())
    {
      assert Drained(rings[m], q.rings[m], Only(q.taken, m));
      DrainSplitsDelivery(reg, rings[m], q.rings[m], q.taken, m);
    }
    if q.data == [] {
      forall m | 0 <= m < |rings|
        ensures DeliverModule(reg, m, rings[m].Contents()) == []
      {
        assert q.rings[m].Contents() == [];
      }
    } else {
      TakenComeFromQueues(reg, StartPass(rings, nextReadIndex), maxReads);
      var m := q.data[|q.data| - 1].moduleIndex;
      DeliverKeepsModules(reg, q.taken, |rings|);
      assert Only(q.data, m) != [];
    }
  }

  lemma DrainSplitsDelivery(reg: Registry, before: Ring, after: Ring, taken: seq<Tagged>, m: nat)
    requires Drained(before, after, Only(taken, m))
    ensures DeliverModule(reg, m, before.Contents())
            == Only(Deliver(reg, taken), m) + DeliverModule(reg, m, after.Contents())
  {
    DeliverModuleConcat(reg, m, Only(taken, m), after.Contents());
    DeliverPerModule(reg, taken, m);
  }

  lemma {:induction false} TakenComeFromQueues(reg: Registry, p: Pass, maxReads: int)
    requires p.rings != [] ==> p.WellFormed()
    requires forall t :: t in p.taken ==> t.moduleIndex < |p.rings|
    ensures forall t :: t in Scan(reg, p, maxReads).taken ==> t.moduleIndex < |p.rings|
    decreases TotalSize(p.rings), |p.rings| - p.empties
  {
    if Scanning(p, maxReads) {
      VisitMakesProgress(reg, p);
      TakenComeFromQueues(reg, Visit(reg, p), maxReads);
    }
  }

  lemma {:induction false} DeliverKeepsModules(reg: Registry, taken: seq<Tagged>, count: nat)
    requires forall t :: t in taken ==> t.moduleIndex < count
    ensures forall t :: t in Deliver(reg, taken) ==> t.moduleIndex < count
  {
    if taken != [] { DeliverKeepsModules(reg, taken[..|taken| - 1], count); }
  }

  // ---- Fairness ----

  // Visits left until the scan looks at queue m again.
  function Ahead(m: nat, next: nat, count: nat): int
    requires m < count && next < count
  {
    if next <= m then m - next else m - next + count
  }

  function Others(taken: seq<Tagged>, m: nat): int {
    |taken| - |Only(taken, m)|
  }

  // From log `before` with read index `i` to log `after` with read index `j`: each event taken
  // from queue m pays for one event of every other queue, and the turns of the others are the
  // visits that separate the read index from m.
  ghost predicate Fair(m: nat, count: nat, before: seq<Tagged>, i: nat, after: seq<Tagged>, j: nat)
    requires m < count && i < count && j < count
  {
    Others(after, m) - Others(before, m) + Ahead(m, j, count)
    <= (|Only(after, m)| - |Only(before, m)|) * (count - 1) + Ahead(m, i, count)
  }

  lemma VisitIsFair(reg: Registry, p: Pass, m: nat)
    requires p.WellFormed() && m < |p.rings| && 0 < p.rings[m].size
    ensures var q := Visit(reg, p);
            && q.WellFormed() && |q.rings| == |p.rings|
            && Fair(m, |p.rings|, p.taken, p.nextReadIndex, q.taken, q.nextReadIndex)
  {
    VisitMakesProgress(reg, p);
    var q := Visit(reg, p);
    var n, own := |p.rings|, |Only(q.taken, m)| - |Only(p.taken, m)|;
    if p.rings[p.nextReadIndex].size != 0 {
      assert q.taken[..|q.taken| - 1] == p.taken;
    }
    assert own == if p.nextReadIndex == m then 1 else 0;
    assert own * (n - 1) == if p.nextReadIndex == m then n - 1 else 0;
    assert Others(q.taken, m) - Others(p.taken, m) <= if p.nextReadIndex == m then 0 else 1;
    AheadStep(m, p.nextReadIndex, n);
  }

  lemma AheadStep(m: nat, next: nat, count: nat)
    requires m < count && next < count
    ensures Ahead(m, NextIndex(next, count), count)
            == if next == m then count - 1 else Ahead(m, next, count) - 1
  {
  }

  lemma FairComposes(m: nat, count: nat, a: seq<Tagged>, i: nat, b: seq<Tagged>, j: nat,
                     c: seq<Tagged>, k: nat)
    requires m < count && i < count && j < count && k < count
    requires Fair(m, count, a, i, b, j) && Fair(m, count, b, j, c, k)
    ensures Fair(m, count, a, i, c, k)
  {
  }

  // At the moment the log is `log`, with fewer than `held` events taken from queue m, those taken
  // from the others are bounded.
  ghost predicate FairUpTo(m: nat, count: nat, held: int, before: seq<Tagged>, i: nat, log: seq<Tagged>)
    requires m < count && i < count
  {
    var own := |Only(log, m)| - |Only(before, m)|;
    own < held ==> Others(log, m) - Others(before, m) <= own * (count - 1) + Ahead(m, i, count)
  }

  // That is so at every moment from log `before` to log `after`.
  ghost predicate FairThroughout(m: nat, count: nat, held: int, before: seq<Tagged>, i: nat, after: seq<Tagged>)
    requires m < count && i < count
  {
    before <= after
    && forall k :: |before| <= k <= |after| ==> FairUpTo(m, count, held, before, i, after[..k])
  }

  lemma FairThenUpTo(m: nat, count: nat, held: int, a: seq<Tagged>, i: nat, b: seq<Tagged>, j: nat,
                     heldThen: int, log: seq<Tagged>)
    requires m < count && i < count && j < count
    requires |Only(a, m)| <= |Only(b, m)| <= |Only(log, m)|
    requires held - (|Only(b, m)| - |Only(a, m)|) <= heldThen
    requires |Only(b, m)| - |Only(a, m)| < held ==> Fair(m, count, a, i, b, j)
    requires FairUpTo(m, count, heldThen, b, j, log)
    ensures FairUpTo(m, count, held, a, i, log)
  {
    var x, y := |Only(b, m)| - |Only(a, m)|, |Only(log, m)| - |Only(b, m)|;
    SumTimes(x, y, count - 1);
  }

  lemma SumTimes(x: int, y: int, z: int)
    ensures (x + y) * z == x * z + y * z
  {
  }

  lemma OnlyOfPrefix(log: seq<Tagged>, k: nat, m: nat)
    requires k <= |log|
    ensures |Only(log[..k], m)| <= |Only(log, m)|
  {
    assert log == log[..k] + log[k..];
    OnlyConcat(log[..k], log[k..], m);
  }

  // One stretch after the other.
  lemma FairThroughoutComposes(m: nat, count: nat, held: int, a: seq<Tagged>, i: nat, b: seq<Tagged>, j: nat,
                               heldThen: int, c: seq<Tagged>)
    requires m < count && i < count && j < count
    requires held - (|Only(b, m)| - |Only(a, m)|) <= heldThen
    requires |Only(b, m)| - |Only(a, m)| < held ==> Fair(m, count, a, i, b, j)
    requires FairThroughout(m, count, held, a, i, b) && FairThroughout(m, count, heldThen, b, j, c)
    ensures FairThroughout(m, count, held, a, i, c)
  {
    forall k | |a| <= k <= |c|
      ensures FairUpTo(m, count, held, a, i, c[..k])
    {
      if k <= |b| {
        assert c[..k] == b[..k];
      } else {
        assert a == b[..|a|] && b == c[..k][..|b|];
        OnlyOfPrefix(b, |a|, m);
        OnlyOfPrefix(c[..k], |b|, m);
        FairThenUpTo(m, count, held, a, i, b, j, heldThen, c[..k]);
      }
    }
  }

  // Few events of queue m bound those of the others.
  lemma FairBound(m: nat, count: nat, held: int, before: seq<Tagged>, i: nat, after: seq<Tagged>, d: nat)
    requires m < count && i < count && before <= after && FairUpTo(m, count, held, before, i, after)
    requires |Only(after, m)| - |Only(before, m)| <= d < held
    ensures Others(after[|before|..], m) <= (d + 1) * (count - 1)
  {
    var since := after[|before|..];
    assert after == before + since;
    OnlyConcat(before, since, m);
    OvertakingBound(|Only(since, m)|, d, count - 1);
  }

  lemma OvertakingBound(own: nat, d: nat, others: nat)
    requires own <= d
    ensures own * others + others <= (d + 1) * others
  {
    assert own * others <= d * others;
    assert (d + 1) * others == d * others + others;
  }

  // The log of earlier scans does not matter.
  lemma FairAfter(earlier: seq<Tagged>, m: nat, count: nat, i: nat, taken: seq<Tagged>, j: nat)
    requires m < count && i < count && j < count && Fair(m, count, [], i, taken, j)
    ensures Fair(m, count, earlier, i, earlier + taken, j)
  {
    OnlyConcat(earlier, taken, m);
  }

  lemma FairThroughoutAfter(earlier: seq<Tagged>, m: nat, count: nat, held: int, i: nat, taken: seq<Tagged>)
    requires m < count && i < count && FairThroughout(m, count, held, [], i, taken)
    ensures FairThroughout(m, count, held, earlier, i, earlier + taken)
  {
    var log := earlier + taken;
    forall k | |earlier| <= k <= |log|
      ensures FairUpTo(m, count, held, earlier, i, log[..k])
    {
      assert log[..k] == earlier + taken[..k - |earlier|];
      OnlyConcat(earlier, taken[..k - |earlier|], m);
      assert FairUpTo(m, count, held, [], i, taken[..k - |earlier|]);
    }
  }

  lemma {:induction false} ScanShrinks(reg: Registry, p: Pass, maxReads: int, m: nat)
    requires p.WellFormed() && m < |p.rings|
    ensures Scan(reg, p, maxReads).rings[m].size <= p.rings[m].size
    decreases TotalSize(p.rings), |p.rings| - p.empties
  {
    if Scanning(p, maxReads) {
      VisitMakesProgress(reg, p);
      ScanShrinks(reg, Visit(reg, p), maxReads, m);
    }
  }

  // What queue m holds after a visit and what was taken from it before.
  lemma VisitTakesFrom(reg: Registry, p: Pass, m: nat)
    requires p.WellFormed() && m < |p.rings|
    ensures var v := Visit(reg, p);
            && |v.rings| == |p.rings| && p.taken <= v.taken
            && v.rings[m].size == p.rings[m].size - (|Only(v.taken, m)| - |Only(p.taken, m)|)
            && |Only(p.taken, m)| <= |Only(v.taken, m)|
  {
    var v := Visit(reg, p);
    if p.rings[p.nextReadIndex].size != 0 {
      assert v.taken[..|v.taken| - 1] == p.taken;
    }
  }

  lemma VisitIsFairThroughout(reg: Registry, p: Pass, m: nat)
    requires p.WellFormed() && m < |p.rings|
    ensures FairThroughout(m, |p.rings|, p.rings[m].size, p.taken, p.nextReadIndex, Visit(reg, p).taken)
  {
    var taken := Visit(reg, p).taken;
    forall k | |p.taken| <= k <= |taken|
      ensures FairUpTo(m, |p.rings|, p.rings[m].size, p.taken, p.nextReadIndex, taken[..k])
    {
      if k == |p.taken| {
        assert taken[..k] == p.taken;
      } else {
        assert taken[..k] == taken;
        VisitTakesFrom(reg, p, m);
        if 0 < p.rings[m].size { VisitIsFair(reg, p, m); }
      }
    }
  }

  // Over a whole scan, as long as queue m is not empty, and in any case at every moment before
  // its last event is taken, the events of the other queues are bounded.
  lemma {:induction false} ScanIsFair(reg: Registry, p: Pass, maxReads: int, m: nat)
    requires p.WellFormed() && m < |p.rings|
    ensures var q := Scan(reg, p, maxReads);
            && FairThroughout(m, |p.rings|, p.rings[m].size, p.taken, p.nextReadIndex, q.taken)
            && (0 < q.rings[m].size ==>
                  Fair(m, |p.rings|, p.taken, p.nextReadIndex, q.taken, q.nextReadIndex))
    decreases TotalSize(p.rings), |p.rings| - p.empties
  {
    var q := Scan(reg, p, maxReads);
    if Scanning(p, maxReads) {
      var v := Visit(reg, p);
      VisitMakesProgress(reg, p);
      VisitTakesFrom(reg, p, m);
      VisitIsFairThroughout(reg, p, m);
      if 0 < p.rings[m].size { VisitIsFair(reg, p, m); }
      ScanIsFair(reg, v, maxReads, m);
      FairThroughoutComposes(m, |p.rings|, p.rings[m].size, p.taken, p.nextReadIndex,
                             v.taken, v.nextReadIndex, v.rings[m].size, q.taken);
      ScanShrinks(reg, v, maxReads, m);
      if 0 < q.rings[m].size {
        FairComposes(m, |p.rings|, p.taken, p.nextReadIndex, v.taken, v.nextReadIndex,
                     q.taken, q.nextReadIndex);
      }
    } else {
      assert q.taken[..|q.taken|] == p.taken;
    }
  }
}
