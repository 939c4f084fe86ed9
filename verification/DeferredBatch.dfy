/** activate() and batch() for sub-HALs older than API 1.1: a period requested while a sensor is
    off is saved and applied when it is switched on
    (device/huawei/mozart/sensors/multihal.cpp). */
module DeferredBatch {
  import opened Options

  const TWO_TO_31 := 0x8000_0000
  const TWO_TO_32 := 0x1_0000_0000

  // update_batch_data takes the 64-bit period as an int.
  function ToInt32(x: int): int {
    (x + TWO_TO_31) % TWO_TO_32 - TWO_TO_31
  }

  predicate FitsInt32(x: int) { -TWO_TO_31 <= x < TWO_TO_31 }

  lemma NarrowingIsExactIffFits(x: int)
    ensures ToInt32(x) == x <==> FitsInt32(x)
    ensures FitsInt32(ToInt32(x)) && (ToInt32(x) - x) % TWO_TO_32 == 0
  {
  }

  // A period given to the sub-HAL's setDelay, the number of the request it answers, and
  // whether it went through the saved slot.
  datatype Sent = Sent(periodNs: int, request: nat, deferred: bool)

  // One sensor: its row of the two arrays, then the history of batch() periods and setDelay calls.
  datatype Sensor = Sensor(enabled: int, slot: Option<Sent>, requested: seq<int>, sent: seq<Sent>) {
    function Activate(on: int): Sensor {
      if on != 0 && slot.Some?
      then Sensor(on, None, requested, sent + [slot.value])
      else this.(enabled := on)
    }

    function Batch(periodNs: int): Sensor {
      if enabled == 0
      then this.(slot := Some(Sent(ToInt32(periodNs), |requested|, true)),
                 requested := requested + [periodNs])
      else this.(sent := sent + [Sent(periodNs, |requested|, false)],
                 requested := requested + [periodNs])
    }
  }

  const OFF := Sensor(0, None, [], [])

  datatype Op = Activate(on: int) | Batch(periodNs: int)

  function Run(ops: seq<Op>): Sensor {
    if ops == [] then OFF
    else
      var s := Run(ops[..|ops| - 1]);
      match ops[|ops| - 1]
      case Activate(on) => s.Activate(on)
      case Batch(periodNs) => s.Batch(periodNs)
  }

  // What the calls alone say: the last value given to activate(), and the periods given to batch().
  function LastActivation(ops: seq<Op>): int {
    if ops == [] then 0
    else if ops[|ops| - 1].Activate? then ops[|ops| - 1].on
    else LastActivation(ops[..|ops| - 1])
  }

  function Periods(ops: seq<Op>): seq<int> {
    if ops == [] then []
    else Periods(ops[..|ops| - 1])
         + if ops[|ops| - 1].Batch? then [ops[|ops| - 1].periodNs] else []
  }

  // A sensor is on as the last activate() left it, whether or not a saved period was applied then.
  lemma {:induction false} RunFollowsCalls(ops: seq<Op>)
    ensures Run(ops).enabled == LastActivation(ops) && Run(ops).requested == Periods(ops)
  {
    if ops != [] { RunFollowsCalls(ops[..|ops| - 1]); }
  }

  // What setDelay gets for request number r: the period itself, or its narrowed copy.
  predicate Answers(requested: seq<int>, s: Sent) {
    && s.request < |requested|
    && s.periodNs == if s.deferred then ToInt32(requested[s.request]) else requested[s.request]
  }

  ghost predicate Inv(s: Sensor) {
    && (s.enabled != 0 ==> s.slot == None)
    && (forall k :: 0 <= k < |s.sent| ==> Answers(s.requested, s.sent[k]))
    && (forall j, k :: 0 <= j < k < |s.sent| ==> s.sent[j].request < s.sent[k].request)
    && (s.slot.Some? ==>
          && Answers(s.requested, s.slot.value) && s.slot.value.deferred
          && s.slot.value.request == |s.requested| - 1
          && forall k :: 0 <= k < |s.sent| ==> s.sent[k].request < |s.requested| - 1)
    && (s.slot == None && s.requested != [] ==>
          s.sent != [] && s.sent[|s.sent| - 1].request == |s.requested| - 1)
  }

  lemma ActivateKeepsInv(s: Sensor, on: int)
    requires Inv(s)
    ensures Inv(s.Activate(on))
  {
  }

  lemma BatchKeepsInv(s: Sensor, periodNs: int)
    requires Inv(s)
    ensures Inv(s.Batch(periodNs))
  {
  }

  lemma {:induction false} RunInv(ops: seq<Op>)
    ensures Inv(Run(ops))
  {
    if ops != [] {
      var n := |ops| - 1;
      RunInv(ops[..n]);
      match ops[n]
      case Activate(on) => ActivateKeepsInv(Run(ops[..n]), on);
      case Batch(periodNs) => BatchKeepsInv(Run(ops[..n]), periodNs);
    }
  }

  // Whatever the order of calls: a sensor that is on has nothing saved, and the last period its
  // sub-HAL was given answers the last batch(); it is that very period exactly when the request
  // was not saved on the way or fits the 32 bits it was saved in.
  lemma EnabledRunsAtLastRequest(ops: seq<Op>)
    ensures var s := Run(ops);
            s.enabled != 0 ==>
              && s.slot == None
              && (s.requested != [] ==>
                    && s.sent != []
                    && var last, period := s.sent[|s.sent| - 1], s.requested[|s.requested| - 1];
                       && last.request == |s.requested| - 1
                       && (last.periodNs == period <==> !last.deferred || FitsInt32(period)))
  {
    RunInv(ops);
    var s := Run(ops);
    if s.enabled != 0 && s.requested != [] {
      var last := s.sent[|s.sent| - 1];
      assert Answers(s.requested, last);
      NarrowingIsExactIffFits(s.requested[last.request]);
    }
  }

  // No request reaches the sub-HAL twice or out of turn, and a saved one only when the sensor is
  // being switched on.
  lemma AppliedAtMostOnceOnEnabling(ops: seq<Op>, j: nat, k: nat)
    requires j < k < |Run(ops).sent|
    ensures Run(ops).sent[j].request < Run(ops).sent[k].request
  {
    RunInv(ops);
  }

  lemma SavedAppliesOnlyOnEnabling(ops: seq<Op>)
    requires ops != []
    ensures var before, after, op := Run(ops[..|ops| - 1]), Run(ops), ops[|ops| - 1];
            && before.sent <= after.sent && |after.sent| <= |before.sent| + 1
            && (|after.sent| > |before.sent| && after.sent[|before.sent|].deferred ==>
                  op.Activate? && op.on != 0 && before.slot == Some(after.sent[|before.sent|]))
  {
  }

  // Every request was passed on, is still saved, or was replaced by the next request while the
  // sensor was off.
  lemma {:induction false} RequestsAreAccountedFor(ops: seq<Op>, r: nat)
    requires r < |Run(ops).requested|
    ensures var s := Run(ops);
            || (exists k :: 0 <= k < |s.sent| && s.sent[k].request == r)
            || (s.slot.Some? && s.slot.value.request == r)
            || ReplacedWhileOff(ops, r)
  {
    var n := |ops| - 1;
    var before, s := Run(ops[..n]), Run(ops);
    RunInv(ops[..n]);
    if r < |before.requested| {
      RequestsAreAccountedFor(ops[..n], r);
      if k :| 0 <= k < |before.sent| && before.sent[k].request == r {
        assert s.sent[k] == before.sent[k];
      } else if before.slot.Some? && before.slot.value.request == r {
        if ops[n].Activate? && ops[n].on != 0 {
          assert s.sent[|before.sent|] == before.slot.value;
        } else if ops[n].Batch? {
          assert ReplacedAt(ops, r, n);
        }
      } else {
        var i: nat :| i < |ops[..n]| && ReplacedAt(ops[..n], r, i);
        assert ops[..n][..i] == ops[..i];
        assert ReplacedAt(ops, r, i);
      }
    } else if s.slot == None {
      assert s.sent[|before.sent|].request == r;
    }
  }

  // The i-th call is a batch() on a sensor that is off with request r saved.
  predicate ReplacedAt(ops: seq<Op>, r: nat, i: nat)
    requires i < |ops|
  {
    var s := Run(ops[..i]);
    ops[i].Batch? && s.enabled == 0 && s.slot.Some? && s.slot.value.request == r
  }

  ghost predicate ReplacedWhileOff(ops: seq<Op>, r: nat) {
    exists i: nat :: i < |ops| && ReplacedAt(ops, r, i)
  }

  // ---- The device entry points ----

  datatype BatchData = BatchData(empty: bool, periodNs: int)

  // A row of the two arrays records this sensor.
  predicate Row(enabled: int, saved: BatchData, s: Sensor) {
    && enabled == s.enabled
    && saved.empty == s.slot.None?
    && (s.slot.Some? ==> saved.periodNs == s.slot.value.periodNs)
  }

  class LegacyDevice {
    const sensorsEnableState: array<int>
    const sensorsBatchList: array<BatchData>
    const compliant: seq<bool>                // does the sensor's sub-HAL report API 1.1 or newer?
    ghost var history: seq<Sensor>            // one per sensor, kept beside the arrays

    ghost predicate Valid()
      reads this, sensorsEnableState, sensorsBatchList
    {
      && |history| == |compliant| == sensorsEnableState.Length == sensorsBatchList.Length
      && forall i :: 0 <= i < |history| ==>
           Inv(history[i]) && Row(sensorsEnableState[i], sensorsBatchList[i], history[i])
    }

    constructor (compliant: seq<bool>)
      ensures Valid() && this.compliant == compliant
      ensures fresh(sensorsEnableState) && fresh(sensorsBatchList)
      ensures forall i :: 0 <= i < |compliant| ==> history[i] == OFF
    {
      this.compliant := compliant;
      sensorsEnableState := new int[|compliant|](_ => 0);
      sensorsBatchList := new BatchData[|compliant|](_ => BatchData(true, 0));
      history := seq(|compliant|, _ => OFF);
    }

    // The results of the two sub-HAL calls are inputs; `delay` is what setDelay was given, if called.
    method DeviceActivate(handle: int, enabled: int, activateRetval: int, delayRetval: int)
      returns (retval: int, delay: Option<int>)
      requires Valid() && 1 <= handle <= |compliant|
      modifies this, sensorsEnableState, sensorsBatchList
      ensures Valid()
      ensures var i, before := handle - 1, old(history)[handle - 1];
              if compliant[i] then
                history == old(history) && delay == None && retval == activateRetval
              else
                && history == old(history)[i := before.Activate(enabled)]
                && (delay.Some? <==> enabled != 0 && before.slot.Some?)
                && (delay.Some? ==> delay.value == before.slot.value.periodNs)
                && retval == if delay == None then activateRetval
                             else if delayRetval != 0 || activateRetval != 0 then 1 else 0
    {
      delay := None;
      if !compliant[handle - 1] {
        var index := handle - 1;
        assert Row(sensorsEnableState[index], sensorsBatchList[index], history[index]);
        ActivateKeepsInv(history[index], enabled);
        history := history[index := history[index].Activate(enabled)];
        sensorsEnableState[index] := enabled;
        if enabled != 0 && !sensorsBatchList[index].empty {
          delay := Some(sensorsBatchList[index].periodNs);
          sensorsBatchList[index] := sensorsBatchList[index].(empty := true);
          return (if delayRetval != 0 || activateRetval != 0 then 1 else 0), delay;
        }
      }
      return activateRetval, delay;
    }

    method DeviceBatch(handle: int, periodNs: int, batchRetval: int, delayRetval: int)
      returns (retval: int, delay: Option<int>)
      requires Valid() && 1 <= handle <= |compliant|
      modifies this, sensorsBatchList
      ensures Valid()
      ensures var i, before := handle - 1, old(history)[handle - 1];
              if compliant[i] then
                history == old(history) && delay == None && retval == batchRetval
              else
                && history == old(history)[i := before.Batch(periodNs)]
                && delay == (if before.enabled == 0 then None else Some(periodNs))
                && retval == if before.enabled == 0 then 0 else delayRetval
    {
      if compliant[handle - 1] {
        return batchRetval, None;
      }
      var index := handle - 1;
      assert Row(sensorsEnableState[index], sensorsBatchList[index], history[index]);
      BatchKeepsInv(history[index], periodNs);
      history := history[index := history[index].Batch(periodNs)];
      if sensorsEnableState[index] == 0 {
        sensorsBatchList[index] := BatchData(false, ToInt32(periodNs));
        return 0, None;
      }
      return delayRetval, Some(periodNs);
    }
  }
}
