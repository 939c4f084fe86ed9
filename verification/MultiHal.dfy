/** The sensor multi-HAL as threads: one writer per sub-HAL and one poll() caller, sharing the
    queues under one mutex (device/huawei/mozart/sensors/multihal.cpp). Each step is one
    critical section, one store of a sub-HAL outside the lock, or the return of its poll().
    A parked thread may resume at any time, so spurious wake-ups are included. */
module MultiHal {
  import opened Runs
  import opened SensorQueue
  import opened SensorHandles
  import opened PollScan

  const SENSOR_EVENT_QUEUE_CAPACITY := 36

  datatype Writer =
    | Ready                                         // about to take the lock
    | WaitingForSpace(signalled: bool)              // in pthread_cond_wait of waitForSpace
    | Polling(first: nat, length: nat)              // in the sub-HAL's poll(), owning a region
    | Returned(first: nat, length: nat, count: nat) // about to commit `count` events

  datatype Poller =
    | Outside
    | Parked(maxReads: int, signalled: bool)        // in pthread_cond_wait of poll()

  datatype State = State(
    rings: seq<Ring>,
    writers: seq<Writer>,
    poller: Poller,
    waitingForData: bool,
    nextReadIndex: nat,
    // History: what each sub-HAL stored since it was last called, by position, and all it handed
    // over by returning from poll(); what was dequeued, what was passed on.
    stored: seq<map<int, Event>>,
    produced: seq<seq<Event>>,
    taken: seq<Tagged>,
    delivered: seq<Tagged>
  )

  datatype Step =
    | EnterWriter(w: nat)                           // lock, waitForSpace, getWritableRegion
    | SubHalStores(w: nat, k: nat, event: Event)
    | SubHalReturns(w: nat, count: int)
    | Commit(w: nat)                                // lock, markAsWritten, broadcast
    | CallPoll(maxReads: int)
    | ResumePoll

  predicate Enabled(s: State, step: Step) {
    match step
    case EnterWriter(w) =>
      w < |s.writers| && (s.writers[w].Ready? || s.writers[w].WaitingForSpace?)
    case SubHalStores(w, k, _) =>
      w < |s.writers| && s.writers[w].Polling? && k < s.writers[w].length
    case SubHalReturns(w, count) =>
      w < |s.writers| && s.writers[w].Polling? && count <= s.writers[w].length
    case Commit(w) => w < |s.writers| && s.writers[w].Returned?
    case CallPoll(_) => s.poller.Outside?
    case ResumePoll => s.poller.Parked?
  }

  ghost predicate Shape(s: State) {
    && |s.writers| == |s.rings| == |s.stored| == |s.produced|
    && (s.rings != [] ==> s.nextReadIndex < |s.rings|)
    && forall m :: 0 <= m < |s.rings| ==>
         s.rings[m].Valid() && |s.rings[m].data| == SENSOR_EVENT_QUEUE_CAPACITY
  }

  // A writer's region is still its own, and a writer asleep without a signal faces a full queue.
  ghost predicate WriterOk(w: Writer, ring: Ring) {
    match w
    case Ready => true
    case WaitingForSpace(signalled) => signalled || ring.Full()
    case Polling(first, length) => ring.Reserved(first, length)
    case Returned(first, length, count) => ring.Reserved(first, length) && 0 < count <= length
  }

  ghost predicate PollerOk(s: State)
    requires Shape(s)
  {
    && s.waitingForData == s.poller.Parked?
    && (s.poller.Parked? && !s.poller.signalled && 0 < s.poller.maxReads ==> AllEmpty(s.rings))
  }

  ghost predicate AllEmpty(rings: seq<Ring>) {
    forall m :: 0 <= m < |rings| ==> rings[m].size == 0
  }

  // What a sub-HAL has stored is in its region.
  ghost predicate StoredOk(w: Writer, ring: Ring, stored: map<int, Event>)
    requires WriterOk(w, ring)
  {
    w.Polling? ==> forall k | k in stored :: 0 <= k < w.length && ring.data[w.first + k] == stored[k]
  }

  // What a writer is about to commit.
  function Pending(w: Writer, ring: Ring): seq<Event> {
    if w.Returned? && w.first + w.count <= |ring.data| then ring.data[w.first..w.first + w.count] else []
  }

  // Nothing is lost, duplicated or reordered between a sub-HAL and its queue's reader.
  ghost predicate ModuleOk(s: State, m: nat)
    requires Shape(s) && m < |s.rings|
  {
    && WriterOk(s.writers[m], s.rings[m]) && StoredOk(s.writers[m], s.rings[m], s.stored[m])
    && s.produced[m] == Only(s.taken, m) + s.rings[m].Contents() + Pending(s.writers[m], s.rings[m])
  }

  ghost predicate Inv(reg: Registry, s: State) {
    && Shape(s) && PollerOk(s) && s.delivered == Deliver(reg, s.taken)
    && forall m :: 0 <= m < |s.rings| ==> ModuleOk(s, m)
  }

  // ---- The steps ----

  function EnterWriterState(s: State, w: nat): State
    requires Shape(s) && w < |s.writers|
  {
    var ring := s.rings[w];
    s.(writers := s.writers[w :=
      if ring.Full() then WaitingForSpace(false)
      else Polling(ring.FirstWritable(), ring.WritableLength(SENSOR_EVENT_QUEUE_CAPACITY))])
  }

  function SubHalReturnsState(s: State, w: nat, count: int): State
    requires Shape(s) && Enabled(s, SubHalReturns(w, count))
  {
    var Polling(first, length) := s.writers[w];
    s.(writers := s.writers[w :=
      if count <= 0 then Ready else Returned(first, length, count)])
  }

  function CommitState(s: State, w: nat): State
    requires Shape(s) && Enabled(s, Commit(w))
  {
    s.(rings := s.rings[w := s.rings[w].MarkAsWritten(s.writers[w].count)],
       writers := s.writers[w := Ready],
       poller := if s.waitingForData && s.poller.Parked? then s.poller.(signalled := true)
                 else s.poller)
  }

  function Wake(writers: seq<Writer>, woken: set<nat>): (result: seq<Writer>)
    ensures |result| == |writers|
    ensures forall m :: 0 <= m < |writers| ==>
              result[m] == if m in woken && writers[m].WaitingForSpace?
                           then WaitingForSpace(true) else writers[m]
  {
    seq(|writers|, m requires 0 <= m < |writers| =>
      if m in woken && writers[m].WaitingForSpace? then WaitingForSpace(true) else writers[m])
  }

  // From taking the lock (or waking up) to returning or going to sleep.
  function PollState(reg: Registry, s: State, maxReads: int): State
    requires Shape(s)
  {
    var q := Scan(reg, StartPass(s.rings, s.nextReadIndex), maxReads);
    State(q.rings, Wake(s.writers, q.woken),
          if q.data == [] then Parked(maxReads, false) else Outside, q.data == [],
          q.nextReadIndex, s.stored, s.produced, s.taken + q.taken, s.delivered + q.data)
  }

  // The events a sub-HAL hands over by returning `count`: what it stored at those positions, or,
  // where it stored nothing, what was there.
  function HandedOver(reg: Registry, s: State, w: nat, count: nat): seq<Event>
    requires Inv(reg, s) && Enabled(s, SubHalReturns(w, count))
  {
    assert ModuleOk(s, w);
    seq(count, k requires 0 <= k < count =>
      if k in s.stored[w] then s.stored[w][k] else s.rings[w].data[s.writers[w].first + k])
  }

  // The history of the sub-HALs, kept apart from what the step does.
  function Recorded(reg: Registry, s: State, step: Step): (seq<map<int, Event>>, seq<seq<Event>>)
    requires Inv(reg, s) && Enabled(s, step)
  {
    match step
    case EnterWriter(w) => (s.stored[w := map[]], s.produced)
    case SubHalStores(w, k, e) => (s.stored[w := s.stored[w][k := e]], s.produced)
    case SubHalReturns(w, count) =>
      (s.stored, if count <= 0 then s.produced
                 else s.produced[w := s.produced[w] + HandedOver(reg, s, w, count)])
    case _ => (s.stored, s.produced)
  }

  function Apply(reg: Registry, s: State, step: Step): State
    requires Inv(reg, s) && Enabled(s, step)
  {
    var (stored, produced) := Recorded(reg, s, step);
    Act(reg, s, step).(stored := stored, produced := produced)
  }

  function Act(reg: Registry, s: State, step: Step): State
    requires Inv(reg, s) && Enabled(s, step)
  {
    match step
    case EnterWriter(w) => EnterWriterState(s, w)
    case SubHalStores(w, k, e) =>
      assert ModuleOk(s, w);
      s.(rings := s.rings[w := s.rings[w].Store(s.writers[w].first + k, e)])
    case SubHalReturns(w, count) => SubHalReturnsState(s, w, count)
    case Commit(w) => CommitState(s, w)
    case CallPoll(maxReads) => PollState(reg, s, maxReads)
    case ResumePoll => PollState(reg, s, s.poller.maxReads)
  }

  // ---- The invariant ----

  function Initial(queueCount: nat, blank: Event): State {
    State(seq(queueCount, _ => Ring(seq(SENSOR_EVENT_QUEUE_CAPACITY, _ => blank), 0, 0)),
          seq(queueCount, _ => Ready), Outside, false, 0, seq(queueCount, _ => map[]), seq(queueCount, _ => []), [], [])
  }

  lemma InitialInv(reg: Registry, queueCount: nat, blank: Event)
    ensures Inv(reg, Initial(queueCount, blank))
  {
  }

  // A step of one writer leaves the other modules as they are.
  lemma OtherModulesKeep(s: State, t: State, w: nat, m: nat)
    requires Shape(s) && Shape(t) && m < |s.rings| == |t.rings| && m != w && ModuleOk(s, m)
    requires t.writers[m] == s.writers[m] && t.rings[m] == s.rings[m] && t.taken == s.taken
    requires t.stored[m] == s.stored[m] && t.produced[m] == s.produced[m]
    ensures ModuleOk(t, m)
  {
  }

  lemma EnterWriterKeeps(reg: Registry, s: State, w: nat)
    requires Inv(reg, s) && Enabled(s, EnterWriter(w))
    ensures Inv(reg, Apply(reg, s, EnterWriter(w)))
  {
    var t := Apply(reg, s, EnterWriter(w));
    assert ModuleOk(s, w);
    if !s.rings[w].Full() { RegionIsMaximalAndDisjoint(s.rings[w], SENSOR_EVENT_QUEUE_CAPACITY); }
    forall m | 0 <= m < |t.rings| && m != w
      ensures ModuleOk(t, m)
    {
      OtherModulesKeep(s, t, w, m);
    }
  }

  lemma StoreKeepsStored(w: Writer, ring: Ring, stored: map<int, Event>, k: nat, e: Event)
    requires w.Polling? && WriterOk(w, ring) && StoredOk(w, ring, stored) && k < w.length
    ensures var after := ring.Store(w.first + k, e);
            && WriterOk(w, after) && StoredOk(w, after, stored[k := e])
            && after.Contents() == ring.Contents() && |after.data| == |ring.data|
  {
    StoreInReservationKeepsContents(ring, w.first, w.length, k, e);
  }

  lemma SubHalStoresKeeps(reg: Registry, s: State, w: nat, k: nat, e: Event)
    requires Inv(reg, s) && Enabled(s, SubHalStores(w, k, e))
    ensures Inv(reg, Apply(reg, s, SubHalStores(w, k, e)))
  {
    var t := Apply(reg, s, SubHalStores(w, k, e));
    assert ModuleOk(s, w);
    StoreKeepsStored(s.writers[w], s.rings[w], s.stored[w], k, e);
    assert ModuleOk(t, w);
    forall m | 0 <= m < |t.rings| && m != w
      ensures ModuleOk(t, m)
    {
      OtherModulesKeep(s, t, w, m);
    }
  }

  lemma SubHalReturnsKeeps(reg: Registry, s: State, w: nat, count: int)
    requires Inv(reg, s) && Enabled(s, SubHalReturns(w, count))
    ensures Inv(reg, Apply(reg, s, SubHalReturns(w, count)))
  {
    var t := Apply(reg, s, SubHalReturns(w, count));
    assert ModuleOk(s, w);
    if 0 < count { HandedOverIsRegion(reg, s, w, count); }
    assert ModuleOk(t, w);
    forall m | 0 <= m < |t.rings| && m != w
      ensures ModuleOk(t, m)
    {
      OtherModulesKeep(s, t, w, m);
    }
  }

  lemma HandedOverIsRegion(reg: Registry, s: State, w: nat, count: nat)
    requires Inv(reg, s) && Enabled(s, SubHalReturns(w, count))
    ensures var first := s.writers[w].first;
            first + count <= |s.rings[w].data| && HandedOver(reg, s, w, count) == s.rings[w].data[first..first + count]
  {
    assert ModuleOk(s, w);
  }

  lemma CommitExtendsHistory(taken: seq<Event>, ring: Ring, w: Writer)
    requires w.Returned? && WriterOk(w, ring)
    ensures var after := ring.MarkAsWritten(w.count);
            && after.Valid()
            && taken + ring.Contents() + Pending(w, ring) == taken + after.Contents() + Pending(Ready, after)
  {
    CommitAppendsRegion(ring, w.first, w.length, w.count);
    AppendWritten(taken, ring.Contents(), Pending(w, ring));
  }

  lemma AppendWritten(taken: seq<Event>, queued: seq<Event>, events: seq<Event>)
    ensures (taken + queued) + events == taken + (queued + events)
  {
  }

  lemma CommitKeeps(reg: Registry, s: State, w: nat)
    requires Inv(reg, s) && Enabled(s, Commit(w))
    ensures Inv(reg, CommitState(s, w))
  {
    assert ModuleOk(s, w);
    CommitExtendsHistory(Only(s.taken, w), s.rings[w], s.writers[w]);
    var t := CommitState(s, w);
    forall m | 0 <= m < |t.rings| && m != w
      ensures ModuleOk(t, m)
    {
      OtherModulesKeep(s, t, w, m);
    }
  }

  // What draining its queue leaves of a module.
  lemma DrainKeepsModule(s: State, t: State, m: nat, more: seq<Tagged>)
    requires Shape(s) && Shape(t) && m < |s.rings| == |t.rings| && ModuleOk(s, m)
    requires Drained(s.rings[m], t.rings[m], Only(more, m)) && t.taken == s.taken + more
    requires t.stored[m] == s.stored[m] && t.produced[m] == s.produced[m]
    requires || t.writers[m] == s.writers[m]
             || (s.writers[m].WaitingForSpace? && t.writers[m] == WaitingForSpace(true))
    requires s.writers[m] == t.writers[m] == WaitingForSpace(false) ==> t.rings[m] == s.rings[m]
    ensures ModuleOk(t, m)
  {
    DrainMovesToTaken(s.taken, more, m, s.rings[m], t.rings[m]);
  }

  lemma PollKeepsModules(reg: Registry, s: State, maxReads: int)
    requires Inv(reg, s)
    ensures var t := PollState(reg, s, maxReads);
            Shape(t) && forall m :: 0 <= m < |t.rings| ==> ModuleOk(t, m)
  {
    ScanOutcome(reg, s.rings, s.nextReadIndex, maxReads);
    var q, t := Scan(reg, StartPass(s.rings, s.nextReadIndex), maxReads), PollState(reg, s, maxReads);
    forall m | 0 <= m < |s.rings|
      ensures t.rings[m].Valid() && |t.rings[m].data| == SENSOR_EVENT_QUEUE_CAPACITY
    {
      assert Drained(s.rings[m], q.rings[m], Only(q.taken, m));
    }
    forall m | 0 <= m < |s.rings|
      ensures ModuleOk(t, m)
    {
      assert ModuleOk(s, m);
      DrainKeepsModule(s, t, m, q.taken);
    }
  }

  lemma DrainMovesToTaken(taken: seq<Tagged>, more: seq<Tagged>, m: nat, before: Ring, after: Ring)
    requires Drained(before, after, Only(more, m))
    ensures Only(taken, m) + before.Contents() == Only(taken + more, m) + after.Contents()
  {
    OnlyConcat(taken, more, m);
    AppendWritten(Only(taken, m), Only(more, m), after.Contents());
  }

  lemma PollKeeps(reg: Registry, s: State, maxReads: int)
    requires Inv(reg, s)
    ensures Inv(reg, PollState(reg, s, maxReads))
  {
    PollKeepsModules(reg, s, maxReads);
    ScanOutcome(reg, s.rings, s.nextReadIndex, maxReads);
    DeliverConcat(reg, s.taken, Scan(reg, StartPass(s.rings, s.nextReadIndex), maxReads).taken);
  }

  lemma StepKeeps(reg: Registry, s: State, step: Step)
    requires Inv(reg, s) && Enabled(s, step)
    ensures Inv(reg, Apply(reg, s, step))
  {
    match step
    case EnterWriter(w) => EnterWriterKeeps(reg, s, w);
    case SubHalStores(w, k, e) => SubHalStoresKeeps(reg, s, w, k, e);
    case SubHalReturns(w, count) => SubHalReturnsKeeps(reg, s, w, count);
    case Commit(w) => CommitKeeps(reg, s, w);
    case CallPoll(maxReads) => PollKeeps(reg, s, maxReads);
    case ResumePoll => PollKeeps(reg, s, s.poller.maxReads);
  }

  // ---- Runs ----

  // Apply asks for Inv, which by StepKeeps never ends a run.
  ghost function Next(reg: Registry): (State, Step, State) -> bool {
    (s, step, t) => Inv(reg, s) && Enabled(s, step) && t == Apply(reg, s, step)
  }

  ghost predicate Reachable(reg: Registry, queueCount: nat, s: State) {
    exists blank :: Reaches(Next(reg), Initial(queueCount, blank), s)
  }

  lemma StepKeepsCount(reg: Registry, s: State, step: Step)
    requires Inv(reg, s) && Enabled(s, step)
    ensures |Apply(reg, s, step).rings| == |s.rings|
  {
  }

  lemma ReachableInv(reg: Registry, queueCount: nat, s: State)
    requires Reachable(reg, queueCount, s)
    ensures Inv(reg, s) && |s.rings| == queueCount
  {
    var blank :| Reaches(Next(reg), Initial(queueCount, blank), s);
    InitialInv(reg, queueCount, blank);
    var inv := (t: State) => Inv(reg, t) && |t.rings| == queueCount;
    forall s, step, t | inv(s) && Next(reg)(s, step, t)
      ensures inv(t)
    {
      StepKeeps(reg, s, step);
      StepKeepsCount(reg, s, step);
    }
    ReachesKeeps(Next(reg), inv, Initial(queueCount, blank), s);
  }

  // ---- What the protocol guarantees ----

  // Nobody sleeps through a signal: the caller of poll() sleeps unsignalled only while every
  // queue is empty, a writer only while its own queue is full.
  lemma NoLostWakeup(reg: Registry, queueCount: nat, s: State)
    requires Reachable(reg, queueCount, s)
    ensures |s.writers| == |s.rings| == queueCount
    ensures s.poller.Parked? && !s.poller.signalled && 0 < s.poller.maxReads ==>
              forall m :: 0 <= m < |s.rings| ==> s.rings[m].size == 0
    ensures forall m :: 0 <= m < |s.writers| && s.writers[m] == WaitingForSpace(false) ==>
              s.rings[m].size == SENSOR_EVENT_QUEUE_CAPACITY
  {
    ReachableInv(reg, queueCount, s);
    forall m | 0 <= m < |s.writers| && s.writers[m] == WaitingForSpace(false)
      ensures s.rings[m].size == SENSOR_EVENT_QUEUE_CAPACITY
    {
      assert ModuleOk(s, m);
    }
  }

  predicate PollerStuck(s: State) { s.poller.Parked? && !s.poller.signalled }

  predicate WriterStuck(s: State, m: nat)
    requires m < |s.writers|
  {
    s.writers[m] == WaitingForSpace(false)
  }

  // The two sides never wait for each other.
  lemma NeverBothStuck(reg: Registry, queueCount: nat, s: State, m: nat)
    requires Reachable(reg, queueCount, s)
    requires m < |s.writers| && (s.poller.Parked? ==> 0 < s.poller.maxReads)
    ensures !(PollerStuck(s) && WriterStuck(s, m))
  {
    NoLostWakeup(reg, queueCount, s);
    ReachableInv(reg, queueCount, s);
  }

  // What a module has had delivered, followed by what its queue and its writer would still deliver,
  // is what its sub-HAL handed over: remapped, in order, and without the events of unknown sensors.
  lemma Conservation(reg: Registry, queueCount: nat, s: State, m: nat)
    requires Reachable(reg, queueCount, s) && m < queueCount
    ensures |s.rings| == |s.produced| == |s.writers| == queueCount && s.rings[m].Valid()
    ensures Only(s.delivered, m)
            + DeliverModule(reg, m, s.rings[m].Contents() + Pending(s.writers[m], s.rings[m]))
            == DeliverModule(reg, m, s.produced[m])
  {
    ReachableInv(reg, queueCount, s);
    assert ModuleOk(s, m);
    DeliverPerModule(reg, s.taken, m);
    var left := s.rings[m].Contents() + Pending(s.writers[m], s.rings[m]);
    AppendWritten(Only(s.taken, m), s.rings[m].Contents(), Pending(s.writers[m], s.rings[m]));
    DeliverModuleConcat(reg, m, Only(s.taken, m), left);
  }

  // A sub-HAL that stores some events one after the other and returns their number hands over just
  // these; none of them is pending once its writer has committed, so they are queued or taken.
  lemma StoredEventsArrive(reg: Registry, s: State, w: nat, count: nat)
    requires Inv(reg, s) && Enabled(s, SubHalReturns(w, count)) && 0 < count
    requires forall k: nat :: k < count ==> k in s.stored[w]
    ensures var t := Apply(reg, s, SubHalReturns(w, count));
            && t.writers[w].Returned? && Inv(reg, t)
            && t.produced[w] == s.produced[w] + seq(count, k requires 0 <= k < count => s.stored[w][k])
            && var u := Apply(reg, t, Commit(w));
               && u.writers[w].Ready? && Inv(reg, u)
               && Only(u.taken, w) + u.rings[w].Contents() == t.produced[w]
  {
    StepKeeps(reg, s, SubHalReturns(w, count));
    var t := Apply(reg, s, SubHalReturns(w, count));
    StepKeeps(reg, t, Commit(w));
    var stored := seq(count, k requires 0 <= k < count => s.stored[w][k]);
    assert HandedOver(reg, s, w, count) == stored;
    var u := Apply(reg, t, Commit(w));
    assert ModuleOk(u, w);
    assert u.produced[w] == Only(u.taken, w) + u.rings[w].Contents() + [];
  }

  // A writer sleeps exactly if its queue is full; otherwise it gives its sub-HAL as much free space
  // in one piece as there is.
  lemma WriterGetsFreeSpace(reg: Registry, s: State, w: nat)
    requires Inv(reg, s) && Enabled(s, EnterWriter(w))
    ensures var t, ring := Apply(reg, s, EnterWriter(w)).writers[w], s.rings[w];
            && (t == WaitingForSpace(false) <==> ring.size == SENSOR_EVENT_QUEUE_CAPACITY)
            && (ring.size < SENSOR_EVENT_QUEUE_CAPACITY ==>
                  && t.Polling? && ring.Reserved(t.first, t.length)
                  && (t.first + t.length == SENSOR_EVENT_QUEUE_CAPACITY
                      || t.length == SENSOR_EVENT_QUEUE_CAPACITY - ring.size))
  {
    if !s.rings[w].Full() { RegionIsMaximalAndDisjoint(s.rings[w], SENSOR_EVENT_QUEUE_CAPACITY); }
  }

  // A critical section of poll(), at the call or after a wake-up, either returns between 1 and
  // maxReads events or goes (back) to sleep having delivered none; with room for an event it sleeps
  // exactly when nothing queued could be delivered; and it leaves an event queued only if it has
  // delivered maxReads.
  lemma PollReturnsOrSleeps(reg: Registry, s: State, step: Step)
    requires Inv(reg, s) && Enabled(s, step) && (step.CallPoll? || step.ResumePoll?)
    ensures var maxReads := if step.CallPoll? then step.maxReads else s.poller.maxReads;
            var t := Apply(reg, s, step);
            && |t.rings| == |s.rings|
            && (t.poller.Outside? ==> 1 <= |t.delivered| - |s.delivered| <= maxReads)
            && (t.poller.Parked? ==> t.delivered == s.delivered && t.poller == Parked(maxReads, false))
            && (0 < maxReads ==>
                  (t.poller.Outside? <==>
                   exists m :: 0 <= m < |s.rings| && DeliverModule(reg, m, s.rings[m].Contents()) != []))
            && (|t.delivered| - |s.delivered| < maxReads ==> AllEmpty(t.rings))
  {
    var maxReads := if step.CallPoll? then step.maxReads else s.poller.maxReads;
    ScanOutcome(reg, s.rings, s.nextReadIndex, maxReads);
    if 0 < maxReads {
      ScanReturnsIffDeliverable(reg, s.rings, s.nextReadIndex, maxReads);
    }
  }

  // A call without room for a single event never returns, whatever the writers do.
  lemma NoRoomNeverReturns(reg: Registry, s: State, t: State)
    requires Inv(reg, s) && Reaches(Next(reg), s, t)
    requires s.poller.Parked? && s.poller.maxReads <= 0
    ensures t.poller.Parked? && t.poller.maxReads == s.poller.maxReads
    ensures t.delivered == s.delivered && t.taken == s.taken
  {
    var inv := (u: State) => Inv(reg, u) && StillParked(s, u);
    forall u, step, v | inv(u) && Next(reg)(u, step, v)
      ensures inv(v)
    {
      StepKeeps(reg, u, step);
      StepStaysParked(reg, s, u, step);
    }
    ReachesKeeps(Next(reg), inv, s, t);
  }

  predicate StillParked(s: State, t: State) {
    && s.poller.Parked? && t.poller.Parked? && t.poller.maxReads == s.poller.maxReads
    && t.delivered == s.delivered && t.taken == s.taken
  }

  lemma StepStaysParked(reg: Registry, s: State, u: State, step: Step)
    requires Inv(reg, u) && Enabled(u, step) && StillParked(s, u) && s.poller.maxReads <= 0
    ensures StillParked(s, Apply(reg, u, step))
  {
    ScanOutcome(reg, u.rings, u.nextReadIndex, s.poller.maxReads);
  }

  // ---- Fairness over runs ----

  lemma StepGrows(reg: Registry, s: State, step: Step, m: nat)
    requires Inv(reg, s) && Enabled(s, step) && m < |s.rings|
    ensures var t := Apply(reg, s, step);
            && Inv(reg, t) && |t.rings| == |s.rings|
            && s.taken <= t.taken && |Only(s.taken, m)| <= |Only(t.taken, m)|
            && |s.rings[m].Contents()| - (|Only(t.taken, m)| - |Only(s.taken, m)|)
               <= |t.rings[m].Contents()|
  {
    StepKeeps(reg, s, step);
    StepKeepsCount(reg, s, step);
    var t := Apply(reg, s, step);
    if step.CallPoll? || step.ResumePoll? {
      OnlyConcat(s.taken, t.taken[|s.taken|..], m);
      assert t.taken == s.taken + t.taken[|s.taken|..];
    }
    assert ModuleOk(s, m) && ModuleOk(t, m);
    PendingIsNew(reg, s, step, m);
  }

  // What is newly pending was newly handed over.
  lemma PendingIsNew(reg: Registry, s: State, step: Step, m: nat)
    requires Inv(reg, s) && Enabled(s, step) && m < |s.rings| && Inv(reg, Apply(reg, s, step))
    requires |Apply(reg, s, step).rings| == |s.rings|
    ensures var t := Apply(reg, s, step);
            |Pending(t.writers[m], t.rings[m])| - |Pending(s.writers[m], s.rings[m])|
            <= |t.produced[m]| - |s.produced[m]|
  {
    assert ModuleOk(s, m) && ModuleOk(Apply(reg, s, step), m);
  }

  lemma PollIsFair(reg: Registry, s: State, maxReads: int, m: nat)
    requires Inv(reg, s) && m < |s.rings|
    ensures var t := PollState(reg, s, maxReads);
            && Shape(t) && |t.rings| == |s.rings|
            && FairThroughout(m, |s.rings|, s.rings[m].size, s.taken, s.nextReadIndex, t.taken)
            && (0 < t.rings[m].size ==>
                  Fair(m, |s.rings|, s.taken, s.nextReadIndex, t.taken, t.nextReadIndex))
  {
    PollKeeps(reg, s, maxReads);
    var p := StartPass(s.rings, s.nextReadIndex);
    var q := Scan(reg, p, maxReads);
    ScanIsFair(reg, p, maxReads, m);
    FairThroughoutAfter(s.taken, m, |s.rings|, s.rings[m].size, s.nextReadIndex, q.taken);
    if 0 < q.rings[m].size {
      FairAfter(s.taken, m, |s.rings|, s.nextReadIndex, q.taken, q.nextReadIndex);
    }
  }

  // From s to t: queue m has lost no more events than were taken from it. At every moment between,
  // as long as those were fewer than it held, the others were taken fairly.
  ghost predicate FairSince(s: State, t: State, m: nat)
    requires Shape(s) && m < |s.rings|
  {
    && Shape(t) && |t.rings| == |s.rings| && s.taken <= t.taken
    && |Only(s.taken, m)| <= |Only(t.taken, m)|
    && s.rings[m].size - (|Only(t.taken, m)| - |Only(s.taken, m)|) <= t.rings[m].size
    && FairThroughout(m, |s.rings|, s.rings[m].size, s.taken, s.nextReadIndex, t.taken)
    && (|Only(t.taken, m)| - |Only(s.taken, m)| < s.rings[m].size ==>
          Fair(m, |s.rings|, s.taken, s.nextReadIndex, t.taken, t.nextReadIndex))
  }

  lemma NothingTakenIsFair(m: nat, count: nat, held: int, taken: seq<Tagged>, i: nat)
    requires m < count && i < count
    ensures FairThroughout(m, count, held, taken, i, taken) && Fair(m, count, taken, i, taken, i)
  {
    assert taken[..|taken|] == taken;
  }

  lemma StepIsFair(reg: Registry, s: State, step: Step, m: nat)
    requires Inv(reg, s) && Enabled(s, step) && m < |s.rings|
    ensures FairSince(s, Apply(reg, s, step), m)
  {
    StepGrows(reg, s, step, m);
    if step.CallPoll? || step.ResumePoll? {
      PollIsFair(reg, s, if step.CallPoll? then step.maxReads else s.poller.maxReads, m);
    } else {
      NothingTakenIsFair(m, |s.rings|, s.rings[m].size, s.taken, s.nextReadIndex);
    }
  }

  lemma FairSinceComposes(s: State, t: State, u: State, m: nat)
    requires Shape(s) && Shape(t) && m < |s.rings| == |t.rings|
    requires FairSince(s, t, m) && FairSince(t, u, m)
    ensures FairSince(s, u, m)
  {
    FairThroughoutComposes(m, |s.rings|, s.rings[m].size, s.taken, s.nextReadIndex,
                           t.taken, t.nextReadIndex, t.rings[m].size, u.taken);
    if |Only(u.taken, m)| - |Only(s.taken, m)| < s.rings[m].size {
      FairComposes(m, |s.rings|, s.taken, s.nextReadIndex, t.taken, t.nextReadIndex,
                   u.taken, u.nextReadIndex);
    }
  }

  // Every run is fair to a queue, across any number of calls to poll().
  lemma RunIsFair(reg: Registry, s: State, t: State, m: nat)
    requires Inv(reg, s) && Reaches(Next(reg), s, t) && m < |s.rings|
    ensures FairSince(s, t, m)
  {
    NothingTakenIsFair(m, |s.rings|, s.rings[m].size, s.taken, s.nextReadIndex);
    var inv := (u: State) => Inv(reg, u) && FairSince(s, u, m);
    forall u, step, v | inv(u) && Next(reg)(u, step, v)
      ensures inv(v)
    {
      StepKeeps(reg, u, step);
      StepIsFair(reg, u, step, m);
      FairSinceComposes(s, u, v, m);
    }
    ReachesKeeps(Next(reg), inv, s, t);
  }

  // An event with d events ahead of it in its queue is overtaken by at most
  // (d + 1) * (queueCount - 1) events of other queues: that many have been taken at any moment k of
  // any run, in the middle of a scan or not, up to which the event itself has not been.
  lemma BoundedOvertaking(reg: Registry, s: State, t: State, m: nat, d: nat, k: nat)
    requires Inv(reg, s) && Reaches(Next(reg), s, t) && m < |s.rings|
    requires d < |s.rings[m].Contents()|
    requires |s.taken| <= k <= |t.taken| && |Only(t.taken[..k], m)| - |Only(s.taken, m)| <= d
    ensures s.taken <= t.taken
    ensures Others(t.taken[|s.taken|..k], m) <= (d + 1) * (|s.rings| - 1)
  {
    RunIsFair(reg, s, t, m);
    var log := t.taken[..k];
    assert log[|s.taken|..] == t.taken[|s.taken|..k];
    FairBound(m, |s.rings|, s.rings[m].size, s.taken, s.nextReadIndex, log, d);
  }
}
