/** The interaction boost of the power HAL: requests, cancellation, the low-power veto and the
    worker that ends a boost (device/huawei/mozart/power/power.c). */
module PowerBoost {
  import opened Options
  import opened Runs

  const DEFAULT_INTERACTION_MS := 1500
  const LAUNCH_BOOST_MS := 1500
  const MAX_BOOST_MS := 3000
  const NS_PER_SECOND := 1_000_000_000
  const NS_PER_MS := 1_000_000
  const MAX_BOOST_NS := MAX_BOOST_MS * NS_PER_MS

  // ---- Time ----

  datatype Timespec = Timespec(sec: int, nsec: int) {
    predicate Normal() { 0 <= nsec < NS_PER_SECOND }

    function Total(): int { sec * NS_PER_SECOND + nsec }
  }

  function CompareTimespec(left: Timespec, right: Timespec): int {
    if left.sec != right.sec then (if left.sec < right.sec then -1 else 1)
    else if left.nsec != right.nsec then (if left.nsec < right.nsec then -1 else 1)
    else 0
  }

  lemma CompareIsByTotal(left: Timespec, right: Timespec)
    requires left.Normal() && right.Normal()
    ensures CompareTimespec(left, right) < 0 <==> left.Total() < right.Total()
    ensures CompareTimespec(left, right) > 0 <==> left.Total() > right.Total()
    ensures CompareTimespec(left, right) == 0 <==> left == right
  {
  }

  // The boost lengths a caller may ask for, and what they become.
  function ClampDuration(durationMs: int): int {
    if durationMs <= 0 then DEFAULT_INTERACTION_MS
    else if durationMs > MAX_BOOST_MS then MAX_BOOST_MS
    else durationMs
  }

  // C division, which truncates toward zero.
  function TruncatedDiv(x: int, y: int): int
    requires 0 < y
  {
    if x >= 0 then x / y else -((-x) / y)
  }

  datatype Hint = Interaction | Launch | CpuBoost

  // The duration power_hint asks for, if it asks at all.
  function HintDuration(hint: Hint, data: Option<int>): Option<int> {
    match hint
    case Interaction => Some(if data.Some? then data.value else DEFAULT_INTERACTION_MS)
    case Launch => if data.Some? && data.value != 0 then Some(LAUNCH_BOOST_MS) else None
    case CpuBoost => Some(TruncatedDiv(if data.Some? then data.value else 0, 1000))
  }

  // A CPU boost is given in microseconds; below one millisecond it turns into the default.
  lemma CpuBoostLength(microseconds: int)
    ensures var ms := ClampDuration(HintDuration(CpuBoost, Some(microseconds)).value);
            && (-1000 < microseconds < 0 ==> HintDuration(CpuBoost, Some(microseconds)) == Some(0))
            && (microseconds < 1000 ==> ms == DEFAULT_INTERACTION_MS)
            && (1000 <= microseconds <= 1000 * MAX_BOOST_MS ==> ms == microseconds / 1000)
            && (1000 * MAX_BOOST_MS < microseconds ==> ms == MAX_BOOST_MS)
  {
  }

  // Which hints ask for a boost, and how long it lasts: at most three seconds, and 1.5 where the
  // hint gives no positive length. A launch asks when it begins, not when it ends.
  lemma HintLengths(hint: Hint, data: Option<int>)
    ensures HintDuration(hint, data) == None <==> hint == Launch && (data == None || data.value == 0)
    ensures hint == Launch && HintDuration(hint, data).Some? ==>
              ClampDuration(HintDuration(hint, data).value) == 1500
    ensures hint == Interaction ==>
              ClampDuration(HintDuration(hint, data).value)
              == if data == None || data.value <= 0 then 1500
                 else if data.value <= 3000 then data.value else 3000
    ensures hint == CpuBoost && data == None ==> ClampDuration(HintDuration(hint, data).value) == 1500
  {
  }

  // request_boost's arithmetic on the clock it read.
  function Deadline(now: Timespec, durationMs: int): Timespec {
    var ms := ClampDuration(durationMs);
    var sec, nsec := now.sec + ms / 1000, now.nsec + (ms % 1000) * NS_PER_MS;
    if nsec >= NS_PER_SECOND then Timespec(sec + 1, nsec - NS_PER_SECOND) else Timespec(sec, nsec)
  }

  // One carry is enough: the deadline is normalised and exactly the clamped duration away.
  lemma DeadlineIsExact(now: Timespec, durationMs: int)
    requires now.Normal()
    ensures Deadline(now, durationMs).Normal()
    ensures Deadline(now, durationMs).Total() == now.Total() + ClampDuration(durationMs) * NS_PER_MS
    ensures now.Total() < Deadline(now, durationMs).Total() <= now.Total() + MAX_BOOST_NS
  {
  }

  // ---- The variables under the lock ----

  datatype Boost = Boost(deadline: Timespec, active: bool, lowPower: bool) {
    function Request(d: Timespec): Boost {
      if lowPower then this
      else
        this.(deadline := if !active || CompareTimespec(d, deadline) > 0 then d else deadline,
              active := true)
    }

    function Cancel(): Boost { this.(active := false) }

    predicate Expired(now: Timespec) { active && CompareTimespec(now, deadline) >= 0 }
  }

  class PowerHal {
    var boostDeadline: Timespec
    var boostActive: bool
    var lowPowerMode: bool

    ghost function Value(): Boost
      reads this
    {
      Boost(boostDeadline, boostActive, lowPowerMode)
    }

    constructor ()
      ensures Value() == Boost(Timespec(0, 0), false, false)
    {
      boostDeadline, boostActive, lowPowerMode := Timespec(0, 0), false, false;
    }

    // request_boost with the clock at `now`; true when the hardware is to be boosted.
    method RequestBoost(durationMs: int, now: Timespec) returns (boost: bool)
      requires now.Normal() && boostDeadline.Normal()
      modifies this
      ensures boostDeadline.Normal() && Value() == old(Value()).Request(Deadline(now, durationMs))
      ensures boost == !old(lowPowerMode)
      ensures boost ==>
                && boostActive
                && now.Total() + ClampDuration(durationMs) * NS_PER_MS <= boostDeadline.Total()
    {
      var duration := durationMs;
      if duration <= 0 {
        duration := DEFAULT_INTERACTION_MS;
      } else if duration > MAX_BOOST_MS {
        duration := MAX_BOOST_MS;
      }
      DeadlineIsExact(now, durationMs);
      var deadline := Timespec(now.sec + duration / 1000, now.nsec + (duration % 1000) * NS_PER_MS);
      if deadline.nsec >= NS_PER_SECOND {
        deadline := Timespec(deadline.sec + 1, deadline.nsec - NS_PER_SECOND);
      }
      if lowPowerMode {
        return false;
      }
      if !boostActive || CompareTimespec(deadline, boostDeadline) > 0 {
        boostDeadline := deadline;
      }
      boostActive := true;
      boost := true;
    }

    // cancel_boost; true when the hardware is to be reset.
    method CancelBoost() returns (wasActive: bool)
      modifies `boostActive
      ensures wasActive == old(boostActive) && Value() == old(Value()).Cancel()
    {
      wasActive := boostActive;
      boostActive := false;
    }

    // First half of the low-power hint; an enabling hint goes on to cancel_boost.
    method SetLowPower(enabled: bool)
      modifies `lowPowerMode
      ensures Value() == old(Value()).(lowPower := enabled)
    {
      lowPowerMode := enabled;
    }

    // The worker after a timed-out wait; true when the hardware is to be reset.
    method WorkerTimedOut(now: Timespec) returns (expired: bool)
      modifies `boostActive
      ensures expired == old(Value()).Expired(now)
      ensures Value() == if expired then old(Value()).Cancel() else old(Value())
    {
      expired := boostActive && CompareTimespec(now, boostDeadline) >= 0;
      if expired {
        boostActive := false;
      }
    }
  }

  // ---- Threads ----

  datatype Worker =
    | Starting                                  // about to take the lock
    | Untimed(signalled: bool)                  // in pthread_cond_wait
    | Timed(armed: Timespec, signalled: bool)   // in pthread_cond_timedwait
    | Resetting                                 // lock released, resetting the hardware

  datatype State = State(
    boost: Boost,
    worker: Worker,
    now: Timespec,                    // the monotonic clock
    requests: multiset<Timespec>,     // deadlines computed, lock not yet taken
    cancels: nat,                     // low-power hints between their two critical sections
    boostWrites: nat,                 // requests that left the lock, hardware not yet boosted
    resetWrites: nat,                 // cancellations that left the lock, hardware not yet reset
    boosted: bool)                    // the hardware

  datatype Step =
    | Tick(now: Timespec)
    | ReadClock(durationMs: int)
    | RequestStep(deadline: Timespec)
    | CancelStep                      // the screen goes off
    | LowPowerStep(enabled: bool)
    | LowPowerCancel
    | WriteBoost
    | WriteReset
    | WorkerStarts
    | WorkerWakes(timedOut: bool)
    | WorkerResets

  predicate Enabled(s: State, step: Step) {
    match step
    case Tick(now) => now.Normal() && s.now.Total() <= now.Total()
    case ReadClock(_) => true
    case RequestStep(deadline) => deadline in s.requests
    case CancelStep => true
    case LowPowerStep(_) => true
    case LowPowerCancel => 0 < s.cancels
    case WriteBoost => 0 < s.boostWrites
    case WriteReset => 0 < s.resetWrites
    case WorkerStarts => s.worker.Starting?
    case WorkerWakes(timedOut) =>
      || (s.worker.Untimed? && !timedOut)
      || (s.worker.Timed? && (timedOut ==> CompareTimespec(s.now, s.worker.armed) >= 0))
    case WorkerResets => s.worker.Resetting?
  }

  // The top of the worker's loop, under the lock.
  function GoToSleep(b: Boost): Worker {
    if b.active then Timed(b.deadline, false) else Untimed(false)
  }

  function Signal(w: Worker): Worker {
    if w.Untimed? || w.Timed? then w.(signalled := true) else w
  }

  function Cancelled(s: State): State {
    s.(boost := s.boost.Cancel(), worker := Signal(s.worker),
       resetWrites := s.resetWrites + if s.boost.active then 1 else 0)
  }

  function Apply(s: State, step: Step): State
    requires Enabled(s, step)
  {
    match step
    case Tick(now) => s.(now := now)
    case ReadClock(durationMs) =>
      s.(requests := s.requests + multiset{Deadline(s.now, durationMs)})
    case RequestStep(deadline) =>
      var t := s.(requests := s.requests - multiset{deadline});
      if s.boost.lowPower then t
      else t.(boost := s.boost.Request(deadline), worker := Signal(s.worker),
              boostWrites := s.boostWrites + 1)
    case CancelStep => Cancelled(s)
    case LowPowerStep(enabled) =>
      s.(boost := s.boost.(lowPower := enabled), cancels := s.cancels + if enabled then 1 else 0)
    case LowPowerCancel => Cancelled(s.(cancels := s.cancels - 1))
    case WriteBoost => s.(boostWrites := s.boostWrites - 1, boosted := true)
    case WriteReset => s.(resetWrites := s.resetWrites - 1, boosted := false)
    case WorkerStarts => s.(worker := GoToSleep(s.boost))
    case WorkerWakes(timedOut) =>
      if timedOut && s.boost.Expired(s.now)
      then s.(boost := s.boost.Cancel(), worker := Resetting)
      else s.(worker := GoToSleep(s.boost))
    case WorkerResets => s.(worker := Starting, boosted := false)
  }

  const INITIAL := State(Boost(Timespec(0, 0), false, false), Starting, Timespec(0, 0), multiset{}, 0,
                         0, 0, false)

  // No deadline, present or to come, is more than three seconds away.
  ghost predicate DeadlinesNear(s: State) {
    && s.now.Normal() && s.boost.deadline.Normal()
    && (s.boost.active ==> s.boost.deadline.Total() <= s.now.Total() + MAX_BOOST_NS)
    && forall d :: d in s.requests ==> d.Normal() && d.Total() <= s.now.Total() + MAX_BOOST_NS
  }

  // An unsignalled worker waits for what the shared variables say.
  ghost predicate WorkerOk(s: State) {
    match s.worker
    case Untimed(signalled) => signalled || !s.boost.active
    case Timed(armed, signalled) =>
      armed.Normal() && (signalled || (s.boost.active && armed == s.boost.deadline))
    case _ => true
  }

  ghost predicate Inv(s: State) {
    && DeadlinesNear(s) && WorkerOk(s)
    && (s.boost.lowPower && s.boost.active ==> 0 < s.cancels)
  }

  lemma StepKeeps(s: State, step: Step)
    requires Inv(s) && Enabled(s, step)
    ensures Inv(Apply(s, step))
  {
    if step.ReadClock? { DeadlineIsExact(s.now, step.durationMs); }
  }

  ghost predicate Next(s: State, step: Step, t: State) {
    Enabled(s, step) && t == Apply(s, step)
  }

  ghost predicate Reachable(s: State) {
    Reaches(Next, INITIAL, s)
  }

  lemma ReachableInv(s: State)
    requires Reachable(s)
    ensures Inv(s)
  {
    forall s, step, t | Inv(s) && Next(s, step, t)
      ensures Inv(t)
    {
      StepKeeps(s, step);
    }
    ReachesKeeps(Next, Inv, INITIAL, s);
  }

  // One step further on a run.
  lemma Then(s: State, step: Step) returns (t: State)
    requires Reachable(s) && Enabled(s, step)
    ensures t == Apply(s, step) && Reachable(t)
  {
    t := Apply(s, step);
    ReachesThen(Next, INITIAL, s, step, t);
  }

  // ---- What the protocol guarantees ----

  // The worker never sleeps past a change: without a signal, an untimed wait means no boost, a
  // timed one is armed at the current deadline; and when a boost is over its time, the worker
  // can always wake up.
  lemma WorkerWaitsForTheRightThing(s: State)
    requires Reachable(s)
    ensures s.worker == Untimed(false) ==> !s.boost.active
    ensures s.worker.Timed? && !s.worker.signalled ==>
              s.boost.active && s.worker.armed == s.boost.deadline
    ensures s.boost.Expired(s.now) && (s.worker.Untimed? || s.worker.Timed?) ==>
              s.worker.signalled || Enabled(s, WorkerWakes(true))
  {
    ReachableInv(s);
  }

  // Only the worker's timeout and the cancellations end a boost, and the worker only at or
  // after the deadline; while a boost lasts its deadline never moves back.
  lemma BoostEndsInTime(s: State, step: Step)
    requires Reachable(s) && Enabled(s, step) && s.boost.active
    ensures var t := Apply(s, step);
            && (t.boost.active ==> s.boost.deadline.Total() <= t.boost.deadline.Total())
            && (!t.boost.active ==>
                  || step == CancelStep || step == LowPowerCancel
                  || (step == WorkerWakes(true) && s.boost.deadline.Total() <= s.now.Total()))
  {
    ReachableInv(s);
    CompareIsByTotal(s.now, s.boost.deadline);
    if step.RequestStep? { CompareIsByTotal(step.deadline, s.boost.deadline); }
  }

  // A worker that wakes up by its timeout ends the boost exactly if its deadline has come, and then
  // goes on to reset the hardware; if the deadline was moved on, it waits for the new one.
  lemma TimeoutEndsIffDue(s: State)
    requires Reachable(s) && Enabled(s, WorkerWakes(true))
    ensures var t, due := Apply(s, WorkerWakes(true)), s.boost.deadline.Total() <= s.now.Total();
            && (t.boost.active <==> s.boost.active && !due)
            && (t.worker.Resetting? <==> s.boost.active && due)
            && (t.boost.active ==> t.worker == Timed(s.boost.deadline, false))
            && (!s.boost.active ==> t.worker == Untimed(false))
            && (t.boost.deadline, t.boost.lowPower) == (s.boost.deadline, s.boost.lowPower)
  {
    ReachableInv(s);
    CompareIsByTotal(s.now, s.boost.deadline);
  }

  // However else it wakes up, the worker goes back to the wait that the variables ask for.
  lemma WakingWaitsAgain(s: State, step: Step)
    requires Enabled(s, step) && (step == WorkerWakes(false) || step == WorkerStarts)
    ensures Apply(s, step)
            == s.(worker := if s.boost.active then Timed(s.boost.deadline, false) else Untimed(false))
  {
  }

  // A request that is not vetoed makes the boost last until its own deadline or the one there was,
  // whichever is later, and wakes the worker; a vetoed one changes nothing.
  lemma RequestExtends(s: State, d: Timespec)
    requires Reachable(s) && Enabled(s, RequestStep(d))
    ensures var t := Apply(s, RequestStep(d));
            if s.boost.lowPower then
              && t.boost == s.boost && t.worker == s.worker && t.boostWrites == s.boostWrites
            else
              && t.boost.active && t.boostWrites == s.boostWrites + 1
              && t.boost.deadline.Total()
                 == (if s.boost.active && s.boost.deadline.Total() > d.Total() then s.boost.deadline.Total()
                     else d.Total())
              && (t.worker.Untimed? || t.worker.Timed? ==> t.worker.signalled)
  {
    ReachableInv(s);
    CompareIsByTotal(d, s.boost.deadline);
  }

  // The clock that a request reads decides its deadline.
  lemma RequestReadsClock(s: State, durationMs: int)
    requires Reachable(s)
    ensures var t := Apply(s, ReadClock(durationMs));
            exists d :: t == s.(requests := s.requests + multiset{d}) && d.Normal()
                        && d.Total() == s.now.Total() + ClampDuration(durationMs) * NS_PER_MS
  {
    ReachableInv(s);
    DeadlineIsExact(s.now, durationMs);
  }

  // Cancelling ends the boost, wakes the worker, and has the hardware reset just if there was one.
  lemma CancelEnds(s: State, step: Step)
    requires Enabled(s, step) && (step == CancelStep || step == LowPowerCancel)
    ensures var t := Apply(s, step);
            && t.boost == s.boost.(active := false)
            && t.resetWrites == s.resetWrites + (if s.boost.active then 1 else 0)
            && (t.worker.Untimed? || t.worker.Timed? ==> t.worker.signalled)
            && t.cancels == (if step == LowPowerCancel then s.cancels - 1 else s.cancels)
  {
  }

  // The low-power hint sets or lifts the veto, and setting it is followed by a cancellation.
  lemma LowPowerHint(s: State, enabled: bool)
    ensures var t := Apply(s, LowPowerStep(enabled));
            t == s.(boost := s.boost.(lowPower := enabled), cancels := t.cancels)
            && t.cancels == s.cancels + if enabled then 1 else 0
  {
  }

  // An active boost ends within three seconds of any moment.
  lemma DeadlineIsNear(s: State)
    requires Reachable(s) && s.boost.active
    ensures s.boost.deadline.Total() <= s.now.Total() + MAX_BOOST_NS
  {
    ReachableInv(s);
  }

  // In low-power mode nothing is boosted once the hint that set it has cancelled.
  lemma LowPowerVeto(s: State)
    requires Reachable(s) && s.boost.lowPower && s.cancels == 0
    ensures !s.boost.active
  {
    ReachableInv(s);
  }

  // ---- The hardware ----

  predicate BoostDue(s: State) { 0 < s.boostWrites }

  predicate ResetDue(s: State) { 0 < s.resetWrites || s.worker.Resetting? }

  // No thread is between the lock and its writes.
  predicate Quiet(s: State) { !BoostDue(s) && !ResetDue(s) }

  // The writes that are due all say what the variables say, and if there are none the hardware
  // says it.
  predicate Agreed(s: State) {
    if s.boost.active then !ResetDue(s) && (BoostDue(s) || s.boosted)
    else !BoostDue(s) && (ResetDue(s) || !s.boosted)
  }

  ghost predicate NextWrite(s: State, step: Step, t: State) {
    (step == WriteBoost || step == WriteReset || step == WorkerResets) && Next(s, step, t)
  }

  // The due writes, made in some order, end in `t`.
  ghost predicate Settles(s: State, t: State) {
    Reaches(NextWrite, s, t) && Quiet(t)
  }

  ghost predicate AlwaysSettlesRight(s: State) {
    forall t :: Settles(s, t) ==> t.boosted == t.boost.active
  }

  // In whatever order the due writes are made the hardware ends up boosted just if a boost is
  // active, exactly if they are agreed.
  lemma SettlesRightIffAgreed(s: State)
    ensures AlwaysSettlesRight(s) <==> Agreed(s)
  {
    if Agreed(s) {
      forall t | Settles(s, t)
        ensures t.boosted == t.boost.active
      {
        ReachesKeeps(NextWrite, Agreed, s, t);
      }
    } else {
      var t := SettleWrong(s);
      assert Settles(s, t);
    }
  }

  // Making the writes that are right first, and those that are wrong after them.
  lemma SettleWrong(s: State) returns (t: State)
    requires !Agreed(s)
    ensures Settles(s, t) && t.boosted != t.boost.active
  {
    var u;
    if s.boost.active {
      u := MakeBoosts(s);
      t := MakeResets(u);
    } else {
      u := MakeResets(s);
      t := MakeBoosts(u);
    }
    ReachesOn(NextWrite, s, u, t);
  }

  lemma {:induction false} MakeBoosts(s: State) returns (t: State)
    ensures Reaches(NextWrite, s, t)
    ensures t == s.(boostWrites := 0, boosted := BoostDue(s) || s.boosted)
    decreases s.boostWrites
  {
    if BoostDue(s) {
      var u := Apply(s, WriteBoost);
      t := MakeBoosts(u);
      MakeOne(s, WriteBoost, u, t);
    } else {
      t := s;
      ReachesItself(NextWrite, s);
    }
  }

  lemma {:induction false} MakeResets(s: State) returns (t: State)
    ensures Reaches(NextWrite, s, t)
    ensures t == s.(resetWrites := 0, worker := if s.worker.Resetting? then Starting else s.worker,
                    boosted := !ResetDue(s) && s.boosted)
    decreases s.resetWrites, s.worker.Resetting?
  {
    if ResetDue(s) {
      var step := if s.worker.Resetting? then WorkerResets else WriteReset;
      var u := Apply(s, step);
      t := MakeResets(u);
      MakeOne(s, step, u, t);
    } else {
      t := s;
      ReachesItself(NextWrite, s);
    }
  }

  lemma MakeOne(s: State, step: Step, u: State, t: State)
    requires NextWrite(s, step, u) && Reaches(NextWrite, u, t)
    ensures Reaches(NextWrite, s, t)
  {
    ReachesItself(NextWrite, s);
    ReachesThen(NextWrite, s, s, step, u);
    ReachesOn(NextWrite, s, u, t);
  }

  // The critical sections that change whether a boost is active while a write of the other kind
  // is due.
  predicate Opposes(s: State, step: Step) {
    match step
    case RequestStep(_) => !s.boost.lowPower && ResetDue(s)
    case CancelStep => s.boost.active && BoostDue(s)
    case LowPowerCancel => s.boost.active && BoostDue(s)
    case WorkerWakes(timedOut) => timedOut && s.boost.Expired(s.now) && BoostDue(s)
    case _ => false
  }

  lemma StepKeepsAgreed(s: State, step: Step)
    requires Agreed(s) && Enabled(s, step)
    ensures Agreed(Apply(s, step)) <==> !Opposes(s, step)
  {
  }

  // From an agreed state a step leaves the hardware sure to end up right exactly if it does not
  // oppose a due write.
  lemma StepKeepsHardwareIff(s: State, step: Step)
    requires Agreed(s) && Enabled(s, step)
    ensures AlwaysSettlesRight(Apply(s, step)) <==> !Opposes(s, step)
  {
    StepKeepsAgreed(s, step);
    SettlesRightIffAgreed(Apply(s, step));
  }

  ghost predicate NextUnopposed(s: State, step: Step, t: State) {
    Next(s, step, t) && !Opposes(s, step)
  }

  // So over any run without opposing steps, however its calls overlap, the hardware is boosted
  // just if a boost is active whenever no write is due.
  lemma UnopposedHardwareIsRight(s: State)
    requires Reaches(NextUnopposed, INITIAL, s)
    ensures AlwaysSettlesRight(s)
    ensures Quiet(s) ==> s.boosted == s.boost.active
  {
    forall s, step, t | Agreed(s) && NextUnopposed(s, step, t)
      ensures Agreed(t)
    {
      StepKeepsAgreed(s, step);
    }
    ReachesKeeps(NextUnopposed, Agreed, INITIAL, s);
    SettlesRightIffAgreed(s);
  }

  predicate LeavesLock(step: Step) {
    step.RequestStep? || step.CancelStep? || step.LowPowerCancel? || step.WorkerWakes?
  }

  // Calls follow one another: no critical section starts while another's writes are due.
  ghost predicate NextSerial(s: State, step: Step, t: State) {
    Next(s, step, t) && (LeavesLock(step) ==> Quiet(s))
  }

  // Serialised calls in particular never oppose each other.
  lemma SerialHardwareIsRight(s: State)
    requires Reaches(NextSerial, INITIAL, s)
    ensures AlwaysSettlesRight(s)
    ensures Quiet(s) ==> s.boosted == s.boost.active
  {
    forall s, step, t | Agreed(s) && NextSerial(s, step, t)
      ensures Agreed(t)
    {
      StepKeepsAgreed(s, step);
    }
    ReachesKeeps(NextSerial, Agreed, INITIAL, s);
    SettlesRightIffAgreed(s);
  }

  // A cancellation that overtakes a request's write leaves the hardware boosted with no boost
  // active, the worker asleep and nothing for a further cancellation to undo.
  lemma RacingCallsLeaveHardwareBoosted()
    ensures exists s :: Reachable(s) && Quiet(s) && s.boosted && !s.boost.active
                        && s.worker == Untimed(false) && Apply(s, CancelStep).resetWrites == 0
  {
    var s := RacedRequest();
    s := Then(s, WriteReset);
    s := Then(s, WriteBoost);
    s := Then(s, WorkerStarts);
  }

  // A request and a cancellation that have both left the lock.
  lemma RacedRequest() returns (s: State)
    ensures Reachable(s) && s.boostWrites == s.resetWrites == 1
    ensures !s.boost.active && s.worker.Starting?
  {
    s := INITIAL;
    ReachesItself(Next, s);
    s := Then(s, ReadClock(0));
    s := Then(s, RequestStep(Deadline(Timespec(0, 0), 0)));
    s := Then(s, CancelStep);
  }
}
