/** The gate that holds back capture requests while a legacy JPEG capture is in flight, and the
    one-time registration of stream buffers
    (patches/hardware/interfaces/legacy-huawei-camera-hal.patch). Requests are submitted one
    after the other; results, errors, flush and close come from other threads at any time. */
module StillCapture {
  import opened Options
  import opened Runs

  const CAPTURE_INTENT_PREVIEW := 1
  const CAPTURE_INTENT_STILL_CAPTURE := 2
  const PIXEL_FORMAT_BLOB := 0x21

  // What processOneCaptureRequest looks at: the intent entry of the settings, if it has exactly
  // one value, and whether an output stream has the BLOB format.
  datatype Request = Request(frame: nat, intent: Option<int>, hasBlobOutput: bool)

  // The three members guarded by mLegacyCaptureLock.
  datatype Gate = Gate(inFlight: bool, stillFrame: nat, lastIntent: int) {
    function Intent(r: Request): int {
      if r.intent.Some? then r.intent.value else lastIntent
    }

    predicate IsStill(r: Request) {
      r.hasBlobOutput && Intent(r) == CAPTURE_INTENT_STILL_CAPTURE
    }

    // Leaving the wait loop with this request.
    function Admit(r: Request): Gate {
      if IsStill(r) then Gate(true, r.frame, Intent(r)) else Gate(false, stillFrame, Intent(r))
    }

    function Open(): Gate { this.(inFlight := false) }

    // A result carrying a BLOB buffer, or an error message, for `frame`.
    function Finished(frame: nat): Gate {
      if inFlight && stillFrame == frame then Open() else this
    }
  }

  function Ids(streams: seq<int>): set<int> { set s | s in streams }

  // ---- The object ----

  class CameraDeviceSession {
    var stillCaptureInFlight: bool
    var stillCaptureFrame: nat
    var lastCaptureIntent: int
    var registeredStreams: set<int>
    ghost var registerCalls: seq<int>     // streams given to register_stream_buffers since the
                                          // last configuration

    ghost function Value(): Gate
      reads this
    {
      Gate(stillCaptureInFlight, stillCaptureFrame, lastCaptureIntent)
    }

    // Successful registrations since the last configuration: each stream once.
    ghost predicate RegisteredOnce()
      reads this
    {
      && (forall i, j :: 0 <= i < j < |registerCalls| ==> registerCalls[i] != registerCalls[j])
      && (forall s :: s in registeredStreams <==> s in registerCalls)
    }

    constructor ()
      ensures Value() == Gate(false, 0, CAPTURE_INTENT_PREVIEW) && RegisteredOnce()
    {
      stillCaptureInFlight, stillCaptureFrame := false, 0;
      lastCaptureIntent := CAPTURE_INTENT_PREVIEW;
      registeredStreams, registerCalls := {}, [];
    }

    // Scans the output streams of a request for a BLOB one.
    method HasBlobOutput(outputs: seq<int>, formats: map<int, int>) returns (hasBlob: bool)
      ensures hasBlob <==>
                exists i :: 0 <= i < |outputs| && outputs[i] in formats && formats[outputs[i]] == PIXEL_FORMAT_BLOB
    {
      hasBlob := false;
      var i := 0;
      while i < |outputs| && !hasBlob
        invariant i <= |outputs|
        invariant hasBlob ==> 0 < i && outputs[i - 1] in formats && formats[outputs[i - 1]] == PIXEL_FORMAT_BLOB
        invariant !hasBlob ==> forall k :: 0 <= k < i ==>
                    !(outputs[k] in formats && formats[outputs[k]] == PIXEL_FORMAT_BLOB)
      {
        hasBlob := outputs[i] in formats && formats[outputs[i]] == PIXEL_FORMAT_BLOB;
        i := i + 1;
      }
    }

    // One turn of the wait loop: `timedOut` when the last wait ended by the five-second limit.
    // Either the request is admitted or it has to wait (again).
    method TryAdmit(r: Request, timedOut: bool) returns (admitted: bool, still: bool)
      modifies this
      ensures registeredStreams == old(registeredStreams) && registerCalls == old(registerCalls)
      ensures admitted == (timedOut || !old(stillCaptureInFlight))
      ensures still == old(Value()).IsStill(r)
      ensures Value() == if admitted then old(Value()).Admit(r) else old(Value())
    {
      var captureIntent := lastCaptureIntent;
      if r.intent.Some? {
        captureIntent := r.intent.value;
      }
      still := r.hasBlobOutput && captureIntent == CAPTURE_INTENT_STILL_CAPTURE;
      if timedOut {
        stillCaptureInFlight := false;
      }
      if stillCaptureInFlight {
        return false, still;
      }
      lastCaptureIntent := captureIntent;
      if still {
        stillCaptureInFlight := true;
        stillCaptureFrame := r.frame;
      }
      admitted := true;
    }

    // A failing return of a still request, flush and close.
    method OpenGate()
      modifies this
      ensures registeredStreams == old(registeredStreams) && registerCalls == old(registerCalls)
      ensures Value() == old(Value()).Open()
    {
      stillCaptureInFlight := false;
    }

    // sProcessCaptureResult, with the formats of the returned buffers.
    method ProcessCaptureResult(frame: nat, formats: seq<int>)
      modifies this
      ensures registeredStreams == old(registeredStreams) && registerCalls == old(registerCalls)
      ensures Value() == if PIXEL_FORMAT_BLOB in formats then old(Value()).Finished(frame) else old(Value())
    {
      var blobReturned := false;
      var i := 0;
      while i < |formats| && !blobReturned
        invariant i <= |formats|
        invariant blobReturned <==> PIXEL_FORMAT_BLOB in formats[..i]
        invariant Value() == old(Value())
        invariant registeredStreams == old(registeredStreams) && registerCalls == old(registerCalls)
      {
        blobReturned := formats[i] == PIXEL_FORMAT_BLOB;
        i := i + 1;
        assert formats[..i] == formats[..i - 1] + [formats[i - 1]];
      }
      assert formats[..|formats|] == formats;
      if blobReturned && stillCaptureInFlight && stillCaptureFrame == frame {
        stillCaptureInFlight := false;
      }
    }

    method NotifyError(frame: nat)
      modifies this
      ensures registeredStreams == old(registeredStreams) && registerCalls == old(registerCalls)
      ensures Value() == old(Value()).Finished(frame)
    {
      if stillCaptureInFlight && stillCaptureFrame == frame {
        stillCaptureInFlight := false;
      }
    }

    // configureStreams, when it succeeds.
    method StreamsConfigured()
      modifies `registeredStreams, `registerCalls
      ensures RegisteredOnce() && registeredStreams == {}
    {
      registeredStreams, registerCalls := {}, [];
    }

    // registerLegacyBuffers: `streams` in the set's order, `known` those configured and with at
    // least one imported buffer, `accepted` those the HAL would take. Stops at the first failure.
    // A newer device (version above 3.1) needs no registration; an older HAL may lack the operation.
    method RegisterLegacyBuffers(newer: bool, hasOperation: bool, streams: seq<int>, known: set<int>,
                                 accepted: set<int>)
      returns (ok: bool)
      requires RegisteredOnce()
      modifies `registeredStreams, `registerCalls
      ensures RegisteredOnce() && old(registeredStreams) <= registeredStreams
      ensures old(registerCalls) <= registerCalls
      ensures newer || !hasOperation ==> registerCalls == old(registerCalls)
      ensures ok <==> newer || (hasOperation && forall s :: s in streams ==>
                                  s in old(registeredStreams) || s in known * accepted)
      ensures ok && !newer ==> registeredStreams == old(registeredStreams) + Ids(streams)
      ensures !ok && hasOperation ==>
                exists i :: 0 <= i < |streams| && streams[i] !in registeredStreams
                            && registeredStreams == old(registeredStreams) + Ids(streams[..i])
    {
      if newer {
        return true;
      }
      if !hasOperation {
        return false;
      }
      for i := 0 to |streams|
        invariant RegisteredOnce()
        invariant old(registeredStreams) <= registeredStreams && old(registerCalls) <= registerCalls
        invariant registeredStreams == old(registeredStreams) + Ids(streams[..i])
        invariant forall s :: s in streams[..i] ==> s in old(registeredStreams) || s in known * accepted
      {
        var s := streams[i];
        assert streams[..i + 1] == streams[..i] + [s];
        if s !in registeredStreams {
          if s !in known || s !in accepted {
            return false;
          }
          registeredStreams := registeredStreams + {s};
          registerCalls := registerCalls + [s];
        }
      }
      assert streams[..|streams|] == streams;
      return true;
    }
  }

  // ---- Threads ----

  datatype Requester =
    | Idle
    | Waiting(request: Request, signalled: bool)              // in waitRelative
    | Admitted(request: Request, still: bool, at: nat)        // past the gate, not yet submitted
    | Submitting(request: Request, still: bool, at: nat)      // in process_capture_request

  // What has happened, in order. `at` is the place of the request's own admission.
  datatype Happening =
    | Admission(request: Request, still: bool)
    | Submission(frame: nat, at: nat)
    | Failure(frame: nat)                                     // a still request returned an error
    | Result(frame: nat, hasBlob: bool)
    | ErrorMessage(frame: nat)
    | Flushed
    | ClosedSession
    | TimedOut

  datatype State = State(gate: Gate, requester: Requester, log: seq<Happening>)

  datatype Step =
    | Begin(request: Request)
    | WakeUp                        // signalled or spurious
    | WaitExpires
    | FailBeforeSubmit              // no output buffer, failed import, failed registration
    | Submit
    | SubmitReturns(ok: bool)
    | CaptureResult(frame: nat, hasBlob: bool)
    | Notify(frame: nat)
    | Flush
    | Close

  predicate Enabled(s: State, step: Step) {
    match step
    case Begin(_) => s.requester.Idle?
    case WakeUp => s.requester.Waiting?
    case WaitExpires => s.requester.Waiting?
    case FailBeforeSubmit => s.requester.Admitted?
    case Submit => s.requester.Admitted?
    case SubmitReturns(_) => s.requester.Submitting?
    case _ => true
  }

  function Broadcast(r: Requester): Requester {
    if r.Waiting? then r.(signalled := true) else r
  }

  // The wait loop's test: past the gate, or (back) to sleep.
  function PassGate(s: State, r: Request): State {
    if s.gate.inFlight then s.(requester := Waiting(r, false))
    else
      var still := s.gate.IsStill(r);
      State(s.gate.Admit(r), Admitted(r, still, |s.log|), s.log + [Admission(r, still)])
  }

  // A request that fails after admission.
  function Fail(s: State, r: Request, still: bool): State {
    if still then State(s.gate.Open(), Idle, s.log + [Failure(r.frame)]) else s.(requester := Idle)
  }

  function Apply(s: State, step: Step): State
    requires Enabled(s, step)
  {
    match step
    case Begin(r) => PassGate(s, r)
    case WakeUp => PassGate(s, s.requester.request)
    case WaitExpires =>
      PassGate(s.(gate := s.gate.Open(), log := s.log + [TimedOut]), s.requester.request)
    case FailBeforeSubmit => Fail(s, s.requester.request, s.requester.still)
    case Submit =>
      var Admitted(r, still, at) := s.requester;
      s.(requester := Submitting(r, still, at), log := s.log + [Submission(r.frame, at)])
    case SubmitReturns(ok) =>
      if ok then s.(requester := Idle) else Fail(s, s.requester.request, s.requester.still)
    case CaptureResult(frame, hasBlob) =>
      var opens := hasBlob && s.gate.inFlight && s.gate.stillFrame == frame;
      State(if hasBlob then s.gate.Finished(frame) else s.gate,
            if opens then Broadcast(s.requester) else s.requester,
            s.log + [Result(frame, hasBlob)])
    case Notify(frame) =>
      var opens := s.gate.inFlight && s.gate.stillFrame == frame;
      State(s.gate.Finished(frame), if opens then Broadcast(s.requester) else s.requester,
            s.log + [ErrorMessage(frame)])
    case Flush => State(s.gate.Open(), Broadcast(s.requester), s.log + [Flushed])
    case Close => State(s.gate.Open(), Broadcast(s.requester), s.log + [ClosedSession])
  }

  // ---- The property, on the log alone ----

  // The six ways a still capture of `frame` may release the requests behind it.
  predicate Releases(h: Happening, frame: nat) {
    match h
    case Result(f, hasBlob) => f == frame && hasBlob
    case ErrorMessage(f) => f == frame
    case Failure(f) => f == frame
    case Flushed => true
    case ClosedSession => true
    case TimedOut => true
    case _ => false
  }

  ghost predicate ReleasedWithin(log: seq<Happening>, i: int, k: int, frame: nat) {
    exists r {:trigger log[r]} :: 0 <= i < r < k <= |log| && Releases(log[r], frame)
  }

  // Between a still admission and the next admission lies its release.
  ghost predicate Serialized(log: seq<Happening>) {
    forall i, k :: 0 <= i < k < |log| && log[i].Admission? && log[i].still && log[k].Admission? ==>
      ReleasedWithin(log, i, k, log[i].request.frame)
  }

  // A still capture that nothing has released yet is the one the gate is closed for.
  ghost predicate Outstanding(s: State) {
    forall i :: 0 <= i < |s.log| && s.log[i].Admission? && s.log[i].still ==>
      || ReleasedWithin(s.log, i, |s.log|, s.log[i].request.frame)
      || (s.gate.inFlight && s.gate.stillFrame == s.log[i].request.frame)
  }

  ghost predicate RequesterOk(s: State) {
    match s.requester
    case Idle => true
    case Waiting(_, signalled) => signalled || s.gate.inFlight
    case Admitted(r, still, at) =>
      && at < |s.log| && s.log[at] == Admission(r, still)
      && (s.gate.inFlight ==> still && s.gate.stillFrame == r.frame)
    case Submitting(r, still, at) =>
      && at < |s.log| && s.log[at] == Admission(r, still)
      && (s.gate.inFlight ==> still && s.gate.stillFrame == r.frame)
  }

  ghost predicate SubmissionsOk(log: seq<Happening>) {
    forall j :: 0 <= j < |log| && log[j].Submission? ==>
      log[j].at < j && log[log[j].at].Admission? && log[log[j].at].request.frame == log[j].frame
  }

  // The last intent that an admitted request stated itself.
  function StatedIntent(log: seq<Happening>): int {
    if log == [] then CAPTURE_INTENT_PREVIEW
    else
      var last := log[|log| - 1];
      if last.Admission? && last.request.intent.Some? then last.request.intent.value
      else StatedIntent(log[..|log| - 1])
  }

  // What "still" means, read off the requests: a BLOB output, and STILL_CAPTURE as the intent
  // stated by the request or, failing that, by the last admitted one that stated any.
  predicate IsStillAt(log: seq<Happening>, r: Request) {
    && r.hasBlobOutput
    && (if r.intent.Some? then r.intent.value else StatedIntent(log)) == CAPTURE_INTENT_STILL_CAPTURE
  }

  ghost predicate IntentsOk(s: State) {
    && s.gate.lastIntent == StatedIntent(s.log)
    && forall i :: 0 <= i < |s.log| && s.log[i].Admission? ==>
         s.log[i].still == IsStillAt(s.log[..i], s.log[i].request)
  }

  ghost predicate Inv(s: State) {
    Serialized(s.log) && Outstanding(s) && RequesterOk(s) && SubmissionsOk(s.log) && IntentsOk(s)
  }

  const INITIAL := State(Gate(false, 0, CAPTURE_INTENT_PREVIEW), Idle, [])

  // ---- The invariant ----

  lemma LongerLogKeepsReleases(log: seq<Happening>, h: Happening, i: int, k: int, frame: nat)
    requires ReleasedWithin(log, i, k, frame)
    ensures ReleasedWithin(log + [h], i, k, frame)
    ensures ReleasedWithin(log + [h], i, |log| + 1, frame)
  {
    var r {:trigger log[r]} :| 0 <= i < r < k <= |log| && Releases(log[r], frame);
    assert (log + [h])[r] == log[r];
  }

  // One more happening: what was serialized stays so, and an admission needs an open gate.
  lemma AppendKeeps(s: State, h: Happening, gate: Gate)
    requires Serialized(s.log) && Outstanding(s)
    requires h.Admission? ==> !s.gate.inFlight
    requires h.Admission? && h.still ==> gate.inFlight && gate.stillFrame == h.request.frame
    requires h.Admission? || (s.gate.inFlight && !Releases(h, s.gate.stillFrame) ==>
               gate.inFlight && gate.stillFrame == s.gate.stillFrame)
    ensures Serialized(s.log + [h])
    ensures forall requester :: Outstanding(State(gate, requester, s.log + [h]))
  {
    var log := s.log + [h];
    forall i, k | 0 <= i < k < |log| && log[i].Admission? && log[i].still && log[k].Admission?
      ensures ReleasedWithin(log, i, k, log[i].request.frame)
    {
      if k < |s.log| { assert s.log[k].Admission?; }
      LongerLogKeepsReleases(s.log, h, i, k, s.log[i].request.frame);
    }
    forall i | 0 <= i < |log| && log[i].Admission? && log[i].still
      ensures ReleasedWithin(log, i, |log|, log[i].request.frame)
              || (gate.inFlight && gate.stillFrame == log[i].request.frame)
    {
      if i < |s.log| {
        if ReleasedWithin(s.log, i, |s.log|, s.log[i].request.frame) {
          LongerLogKeepsReleases(s.log, h, i, |s.log|, s.log[i].request.frame);
        } else if Releases(h, log[i].request.frame) {
          assert Releases(log[|s.log|], log[i].request.frame);
        }
      }
    }
  }

  lemma AppendIntent(s: State, h: Happening, gate: Gate)
    requires IntentsOk(s)
    requires h.Admission? ==> h.still == s.gate.IsStill(h.request) && gate.lastIntent == s.gate.Intent(h.request)
    requires !h.Admission? ==> gate.lastIntent == s.gate.lastIntent
    ensures forall requester :: IntentsOk(State(gate, requester, s.log + [h]))
  {
    var log := s.log + [h];
    assert log[..|log| - 1] == s.log;
    forall i | 0 <= i < |log| && log[i].Admission?
      ensures log[i].still == IsStillAt(log[..i], log[i].request)
    {
      if i < |s.log| { assert log[..i] == s.log[..i]; } else { assert log[..i] == s.log; }
    }
  }

  lemma AppendBoth(s: State, h: Happening, gate: Gate)
    requires Serialized(s.log) && Outstanding(s) && IntentsOk(s) && SubmissionsOk(s.log) && !h.Admission?
    requires h.Submission? ==> h.at < |s.log| && s.log[h.at].Admission? && s.log[h.at].request.frame == h.frame
    requires gate.lastIntent == s.gate.lastIntent
    requires s.gate.inFlight && !Releases(h, s.gate.stillFrame) ==>
               gate.inFlight && gate.stillFrame == s.gate.stillFrame
    ensures Serialized(s.log + [h]) && SubmissionsOk(s.log + [h])
    ensures forall requester :: Outstanding(State(gate, requester, s.log + [h]))
                                && IntentsOk(State(gate, requester, s.log + [h]))
  {
    AppendKeeps(s, h, gate);
    AppendIntent(s, h, gate);
  }

  lemma AdmissionKeepsLog(s: State, r: Request)
    requires Serialized(s.log) && Outstanding(s) && SubmissionsOk(s.log) && !s.gate.inFlight
    ensures var t := PassGate(s, r);
            Serialized(t.log) && Outstanding(t) && SubmissionsOk(t.log)
  {
    AppendKeeps(s, Admission(r, s.gate.IsStill(r)), s.gate.Admit(r));
  }

  lemma AdmissionKeepsIntents(s: State, r: Request)
    requires IntentsOk(s) && !s.gate.inFlight
    ensures IntentsOk(PassGate(s, r))
  {
    AppendIntent(s, Admission(r, s.gate.IsStill(r)), s.gate.Admit(r));
  }

  lemma PassGateGivesRequester(s: State, r: Request)
    ensures RequesterOk(PassGate(s, r))
  {
  }

  lemma PassGateKeeps(s: State, r: Request)
    requires Serialized(s.log) && Outstanding(s) && SubmissionsOk(s.log) && IntentsOk(s)
    ensures Inv(PassGate(s, r))
  {
    PassGateGivesRequester(s, r);
    if !s.gate.inFlight {
      AdmissionKeepsLog(s, r);
      AdmissionKeepsIntents(s, r);
    }
  }

  lemma WaitExpiresKeeps(s: State)
    requires Inv(s) && s.requester.Waiting?
    ensures Inv(Apply(s, WaitExpires))
  {
    AppendBoth(s, TimedOut, s.gate.Open());
    PassGateKeeps(s.(gate := s.gate.Open(), log := s.log + [TimedOut]), s.requester.request);
  }

  lemma StepKeeps(s: State, step: Step)
    requires Inv(s) && Enabled(s, step)
    ensures Inv(Apply(s, step))
  {
    var gate := Apply(s, step).gate;
    match step
    case Begin(r) => PassGateKeeps(s, r);
    case WakeUp => PassGateKeeps(s, s.requester.request);
    case WaitExpires => WaitExpiresKeeps(s);
    case FailBeforeSubmit => AppendBoth(s, Failure(s.requester.request.frame), gate);
    case Submit => AppendBoth(s, Submission(s.requester.request.frame, s.requester.at), gate);
    case SubmitReturns(_) => AppendBoth(s, Failure(s.requester.request.frame), gate);
    case CaptureResult(frame, hasBlob) => AppendBoth(s, Result(frame, hasBlob), gate);
    case Notify(frame) => AppendBoth(s, ErrorMessage(frame), gate);
    case Flush => AppendBoth(s, Flushed, gate);
    case Close => AppendBoth(s, ClosedSession, gate);
  }

  // ---- Runs ----

  ghost predicate Next(s: State, step: Step, t: State) {
    Enabled(s, step) && t == Apply(s, step)
  }

  ghost predicate Reachable(s: State) {
    Reaches(Next, INITIAL, s)
  }

  lemma ReachableInv(s: State)
    requires Reachable(s)
    ensures Inv(s)
  {
    forall s, step, t | Inv(s) && Next(s, step, t)
      ensures Inv(t)
    {
      StepKeeps(s, step);
    }
    ReachesKeeps(Next, Inv, INITIAL, s);
  }

  // ---- What the gate guarantees ----

  // After a still frame is admitted, no later request reaches process_capture_request before
  // that frame's BLOB result, its error, its failure, a flush, a close or the timeout.
  lemma NoLaterRequestBeforeRelease(s: State, i: nat, j: nat)
    requires Reachable(s) && i < j < |s.log|
    requires s.log[i].Admission? && s.log[i].still
    requires s.log[j].Submission? && i < s.log[j].at   // a request admitted after frame i
    ensures ReleasedWithin(s.log, i, j, s.log[i].request.frame)
  {
    ReachableInv(s);
    var k := s.log[j].at;
    assert s.log[k].Admission?;
    assert ReleasedWithin(s.log, i, k, s.log[i].request.frame);
    var r {:trigger s.log[r]} :| i < r < k && Releases(s.log[r], s.log[i].request.frame);
  }

  // A request asleep without a signal is behind a still capture nothing has released.
  lemma SleepsOnlyBehindAStill(s: State)
    requires Reachable(s)
    ensures s.requester.Waiting? && !s.requester.signalled ==> s.gate.inFlight
    ensures s.requester.Waiting? && !s.gate.inFlight ==> Apply(s, WakeUp).requester.Admitted?
  {
    ReachableInv(s);
  }

  // As long as nothing on the list has released a still capture, over any run, the gate is closed
  // for it and nobody has been admitted; results without its JPEG and messages about other frames
  // are not on the list, so they do not open it.
  lemma OthersDoNotOpen(s: State, i: nat)
    requires Reachable(s) && i < |s.log| && s.log[i].Admission? && s.log[i].still
    requires forall j :: i < j < |s.log| ==> !Releases(s.log[j], s.log[i].request.frame)
    ensures s.gate.inFlight && s.gate.stillFrame == s.log[i].request.frame
    ensures forall j :: i < j < |s.log| ==> !s.log[j].Admission?
    ensures forall frame, hasBlob :: Apply(s, CaptureResult(frame, hasBlob)).gate.inFlight
                                     <==> !(hasBlob && frame == s.log[i].request.frame)
    ensures forall frame :: Apply(s, Notify(frame)).gate.inFlight
                            <==> frame != s.log[i].request.frame
  {
    ReachableInv(s);
  }

  // The steps that release a capture of `frame`.
  predicate ReleasingStep(step: Step, frame: nat) {
    match step
    case CaptureResult(f, hasBlob) => hasBlob && f == frame
    case Notify(f) => f == frame
    case FailBeforeSubmit => true
    case SubmitReturns(ok) => !ok
    case Flush => true
    case Close => true
    case WaitExpires => true
    case _ => false
  }

  // A closed gate ends with a step exactly if the step is one of the six releases of the capture it
  // is closed for, and then a request waiting behind it is woken. The timeout lets that request
  // pass, which may close the gate again for itself.
  lemma GateOpensIffReleased(s: State, step: Step)
    requires Reachable(s) && Enabled(s, step) && s.gate.inFlight
    ensures var t, released := Apply(s, step), ReleasingStep(step, s.gate.stillFrame);
            && (released <==> !t.gate.inFlight || step == WaitExpires)
            && (!released ==> t.gate.stillFrame == s.gate.stillFrame)
            && (released && t.requester.Waiting? ==> t.requester.signalled)
            && (step == WaitExpires ==> t.requester.Admitted? && t.requester.request == s.requester.request)
  {
    ReachableInv(s);
  }

  // And exactly those steps are on the list as releases of that capture.
  lemma ReleasesAreListed(s: State, step: Step)
    requires Reachable(s) && Enabled(s, step) && s.gate.inFlight
    ensures var t := Apply(s, step);
            && s.log <= t.log
            && (ReleasingStep(step, s.gate.stillFrame) <==>
                  |s.log| < |t.log| && Releases(t.log[|s.log|], s.gate.stillFrame))
  {
    ReachableInv(s);
  }

  // Only admitting a still capture closes an open gate, for that capture.
  lemma OnlyStillsCloseTheGate(s: State, step: Step)
    requires Enabled(s, step) && !s.gate.inFlight
    ensures var t := Apply(s, step);
            if (step.Begin? || step == WakeUp || step == WaitExpires) && t.requester.still
            then t.gate.inFlight && t.gate.stillFrame == t.requester.request.frame
            else !t.gate.inFlight
  {
  }

  // What a request goes through: it waits just if the gate is closed, is submitted once it is
  // admitted, and is done when that returns.
  lemma RequestGoesThrough(s: State, step: Step)
    requires Enabled(s, step)
    ensures var t := Apply(s, step);
            && (step.Begin? ==>
                  if s.gate.inFlight then t == s.(requester := Waiting(step.request, false))
                  else t.requester == Admitted(step.request, s.gate.IsStill(step.request), |s.log|)
                       && t.log == s.log + [Admission(step.request, s.gate.IsStill(step.request))])
            && (step == WakeUp ==>
                  if s.gate.inFlight then t == s.(requester := Waiting(s.requester.request, false))
                  else t.requester.Admitted? && t.requester.request == s.requester.request)
            && (step == Submit ==>
                  && t.requester == Submitting(s.requester.request, s.requester.still, s.requester.at)
                  && t.log == s.log + [Submission(s.requester.request.frame, s.requester.at)])
            && (step == SubmitReturns(true) ==> t == s.(requester := Idle))
            && (step == FailBeforeSubmit || step == SubmitReturns(false) ==>
                  t.requester == Idle && (!s.requester.still ==> t == s.(requester := Idle)))
  {
  }

  // Whichever request fails, and wherever, the gate is open afterwards.
  lemma FailingReturnLeavesGateOpen(s: State, step: Step)
    requires Reachable(s) && Enabled(s, step)
    requires step == FailBeforeSubmit || step == SubmitReturns(false)
    ensures !Apply(s, step).gate.inFlight
  {
    ReachableInv(s);
  }

  // Which requests are treated as still captures.
  lemma StillMeansStill(s: State, i: nat)
    requires Reachable(s) && i < |s.log| && s.log[i].Admission?
    ensures s.log[i].still == IsStillAt(s.log[..i], s.log[i].request)
  {
    ReachableInv(s);
  }
}
