/** The DSS overlay adapter: layers, validate / accept / present, and the error latch
    (patches/hardware/interfaces/hwc2onfbadapter-hisi-dss-overlay-fallback.patch). */
module Overlay {
  import opened Options
  import opened Runs
  import opened Floats
  import opened DssLayers

  const TWO_TO_31 := 0x8000_0000

  const COMPOSITION_CLIENT := 1
  const COMPOSITION_DEVICE := 2

  datatype LayerState = LayerState(
    buffer: Buffer, requestedType: int, validatedType: int, blendMode: int, displayFrame: Rect,
    sourceCrop: Crop, planeAlpha: real, transform: int, z: int)

  const NEW_LAYER := LayerState(NoBuffer, COMPOSITION_CLIENT, COMPOSITION_CLIENT, BLEND_MODE_NONE,
                               Rect(0, 0, 0, 0), Crop(0.0, 0.0, 0.0, 0.0), 1.0, 0, 0)

  // One of the setLayer* calls.
  datatype Change =
    | SetBuffer(buffer: Buffer)
    | SetCompositionType(kind: int)
    | SetBlendMode(mode: int)
    | SetDisplayFrame(frame: Rect)
    | SetPlaneAlpha(alpha: real)
    | SetSourceCrop(crop: Crop)
    | SetTransform(transform: int)
    | SetZOrder(z: int)

  function Changed(s: LayerState, c: Change): LayerState {
    match c
    case SetBuffer(buffer) => s.(buffer := buffer)
    case SetCompositionType(kind) => s.(requestedType := kind)
    case SetBlendMode(mode) => s.(blendMode := mode)
    case SetDisplayFrame(frame) => s.(displayFrame := frame)
    case SetPlaneAlpha(alpha) => s.(planeAlpha := alpha)
    case SetSourceCrop(crop) => s.(sourceCrop := crop)
    case SetTransform(transform) => s.(transform := transform)
    case SetZOrder(z) => s.(z := z)
  }

  // What the last validation is worth: nothing, changes to be accepted, or the layers as they are.
  datatype Mode = Modified | ValidatedWithChanges | ValidatedAsIs

  // The part of the adapter's members that the overlay path uses.
  datatype Adapter = Adapter(
    width: nat, height: nat,
    nextLayerId: nat,
    layers: set<nat>,
    states: map<nat, LayerState>,
    changedTypes: map<nat, int>,
    clearClientTarget: set<nat>,
    clientTarget: Buffer,
    enabled: bool,
    disabledByError: bool,
    hasOverlay: bool,
    usesClientTarget: bool,
    overlayLayer: nat,
    mode: Mode)

  // ---- Layers ----

  function Added(a: Adapter): Adapter {
    var id := a.nextLayerId + 1;
    a.(nextLayerId := id, layers := a.layers + {id}, states := a.states[id := NEW_LAYER])
  }

  function Removed(a: Adapter, id: nat): Adapter {
    if id !in a.layers then a
    else
      var isOverlay := a.hasOverlay && a.overlayLayer == id;
      a.(layers := a.layers - {id}, states := a.states - {id},
         changedTypes := a.changedTypes - {id}, clearClientTarget := a.clearClientTarget - {id},
         hasOverlay := a.hasOverlay && !isOverlay,
         usesClientTarget := a.usesClientTarget && !isOverlay)
  }

  function ChangedLayer(a: Adapter, id: nat, c: Change): Adapter {
    if id in a.states then a.(states := a.states[id := Changed(a.states[id], c)]) else a
  }

  // A setLayer* call as the composer makes it: every change but that of the buffer asks for a new
  // validation.
  function ChangedDisplay(a: Adapter, id: nat, c: Change): Adapter {
    if id in a.states && !c.SetBuffer? then ChangedLayer(a, id, c).(mode := Modified)
    else ChangedLayer(a, id, c)
  }

  // ---- Validation ----

  predicate Eligible(s: LayerState, width: nat, height: nat) {
    && s.requestedType == COMPOSITION_DEVICE
    && s.transform == 0
    && s.planeAlpha >= 0.999
    && RectIsValid(s.displayFrame)
    && FrameFitsDisplay(s.displayFrame, width, height)
    && CropIsValid(s.sourceCrop)
    && GetHisiFormat(s.buffer).Some?
    && IsYuvFormat(GetHisiFormat(s.buffer).value)
    && FillDssLayer(s.buffer, s.sourceCrop, s.displayFrame, BLEND_MODE_NONE, 1.0, s.transform, 0,
                    CHANNEL_0, {CapDma}).Some?
  }

  ghost predicate Candidate(states: map<nat, LayerState>, width: nat, height: nat, id: nat) {
    id in states && Eligible(states[id], width, height)
  }

  // A largest eligible layer; 0 if there is none.
  ghost predicate Largest(states: map<nat, LayerState>, width: nat, height: nat, choice: nat) {
    && (choice == 0 ==> forall id :: !Candidate(states, width, height, id))
    && (choice != 0 ==>
          && Candidate(states, width, height, choice)
          && forall id | Candidate(states, width, height, id) ::
               FrameArea(states[id].displayFrame) <= FrameArea(states[choice].displayFrame))
  }

  function ValidatedType(id: nat, choice: nat): int {
    if choice != 0 && id == choice then COMPOSITION_DEVICE else COMPOSITION_CLIENT
  }

  // The layers left to client composition.
  function ClientIds(ids: set<nat>, choice: nat): set<nat> {
    if choice == 0 then ids else ids - {choice}
  }

  // The states once all layers but `rest` have their types.
  function ValidatedStates(states: map<nat, LayerState>, choice: nat, rest: set<nat>): map<nat, LayerState> {
    map id | id in states ::
      if id in rest then states[id] else states[id].(validatedType := ValidatedType(id, choice))
  }

  function TypeChanges(states: map<nat, LayerState>, choice: nat, rest: set<nat>): map<nat, int> {
    map id | id in states && id !in rest && states[id].requestedType != ValidatedType(id, choice) ::
      ValidatedType(id, choice)
  }

  lemma OneMoreLayer(states: map<nat, LayerState>, choice: nat, rest: set<nat>, id: nat)
    requires id in rest && rest <= states.Keys
    ensures ValidatedStates(states, choice, rest - {id})
            == ValidatedStates(states, choice, rest)[id :=
                 states[id].(validatedType := ValidatedType(id, choice))]
    ensures TypeChanges(states, choice, rest - {id})
            == if states[id].requestedType != ValidatedType(id, choice)
               then TypeChanges(states, choice, rest)[id := ValidatedType(id, choice)]
               else TypeChanges(states, choice, rest)
    ensures ClientIds(states.Keys - (rest - {id}), choice) != {} <==>
              ClientIds(states.Keys - rest, choice) != {} || ValidatedType(id, choice) == COMPOSITION_CLIENT
  {
    var one := if ValidatedType(id, choice) == COMPOSITION_CLIENT then {id} else {};
    assert ClientIds(states.Keys - (rest - {id}), choice) == ClientIds(states.Keys - rest, choice) + one;
  }

  // What validateLayers does once it has settled on `choice`.
  function Validated(a: Adapter, property: bool, choice: nat): Adapter {
    var withClient := choice != 0 && ClientIds(a.states.Keys, choice) != {};
    a.(states := ValidatedStates(a.states, choice, {}),
       changedTypes := TypeChanges(a.states, choice, {}),
       clearClientTarget := if withClient then {choice} else {},
       enabled := property,
       disabledByError := property && a.disabledByError,
       hasOverlay := choice != 0,
       usesClientTarget := withClient,
       overlayLayer := if choice != 0 then choice else a.overlayLayer)
  }

  ghost predicate MayChoose(a: Adapter, property: bool, choice: nat) {
    if property && !a.disabledByError then Largest(a.states, a.width, a.height, choice) else choice == 0
  }

  // validateLayers, for whatever order the map is walked in.
  ghost predicate Validates(a: Adapter, property: bool, b: Adapter) {
    exists choice :: MayChoose(a, property, choice) && b == Validated(a, property, choice)
  }

  function Accepted(a: Adapter): Adapter {
    a.(states := map id | id in a.states :: a.states[id].(requestedType := a.states[id].validatedType),
       changedTypes := map[])
  }

  // validateDisplay and acceptDisplayChanges as the composer calls them; the latter is refused
  // while nothing has been validated.
  function ValidatedDisplay(a: Adapter, property: bool, choice: nat): Adapter {
    var b := Validated(a, property, choice);
    b.(mode := if b.changedTypes != map[] || b.clearClientTarget != {} then ValidatedWithChanges
               else ValidatedAsIs)
  }

  function AcceptedDisplay(a: Adapter): Adapter {
    if a.mode.Modified? then a else Accepted(a).(mode := ValidatedAsIs)
  }

  // ---- Presenting ----

  // What the hardware is asked for, and whether opening and configuring it succeeds.
  datatype Hardware = Hardware(opens: bool, plays: bool)

  function OverlayFailure(a: Adapter): Adapter {
    a.(disabledByError := true, hasOverlay := false, usesClientTarget := false, mode := Modified)
  }

  function VideoLayer(a: Adapter): Option<DssLayer>
    requires a.overlayLayer in a.states
  {
    var video := a.states[a.overlayLayer];
    FillDssLayer(video.buffer, video.sourceCrop, video.displayFrame, BLEND_MODE_NONE, 1.0,
                 video.transform, 0, CHANNEL_0, {CapDma})
  }

  function ClientLayer(a: Adapter): Option<DssLayer> {
    FillDssLayer(a.clientTarget, Crop(0.0, 0.0, Float(a.width as real), Float(a.height as real)),
                 Rect(0, 0, a.width, a.height), BLEND_MODE_PREMULTIPLIED, 1.0, 0, 1, CHANNEL_3,
                 {CapFbPost})
  }

  // postOverlay: the adapter afterwards and the layers played, None if it returns false.
  function OverlayPosted(a: Adapter, hw: Hardware): (Adapter, Option<seq<DssLayer>>) {
    if !a.hasOverlay || a.disabledByError then (a, None)
    else if a.overlayLayer !in a.states then (a, None)
    else if a.usesClientTarget && a.clientTarget.NoBuffer? then (OverlayFailure(a), None)
    else if VideoLayer(a) == None then (OverlayFailure(a), None)
    else if a.usesClientTarget && ClientLayer(a) == None then (OverlayFailure(a), None)
    else if !hw.opens || !hw.plays then (OverlayFailure(a), None)
    else
      (a, Some(if a.usesClientTarget then [VideoLayer(a).value, ClientLayer(a).value]
               else [VideoLayer(a).value]))
  }

  // ---- The invariant ----

  ghost predicate Inv(a: Adapter) {
    && a.width < TWO_TO_31 && a.height < TWO_TO_31
    && a.layers == a.states.Keys
    && (forall id :: id in a.layers ==> 1 <= id <= a.nextLayerId)
    && a.changedTypes.Keys <= a.layers && a.clearClientTarget <= a.layers
    && (a.hasOverlay ==> a.overlayLayer in a.layers && a.enabled && !a.disabledByError)
    && (a.disabledByError ==> a.enabled)
    && (a.usesClientTarget ==> a.hasOverlay)
  }

  function Fresh(width: nat, height: nat): Adapter {
    Adapter(width, height, 0, {}, map[], map[], {}, NoBuffer, false, false, false, false, 0, Modified)
  }

  lemma ValidatedInv(a: Adapter, property: bool, choice: nat)
    requires Inv(a) && MayChoose(a, property, choice)
    ensures Inv(Validated(a, property, choice)) && Inv(ValidatedDisplay(a, property, choice))
  {
  }

  // ---- The object ----

  class HWC2OnFbAdapter {
    const width: nat
    const height: nat
    var nextLayerId: nat
    var layers: set<nat>
    var layerStates: map<nat, LayerState>
    var changedTypes: map<nat, int>
    var clearClientTargetLayers: set<nat>
    var buffer: Buffer
    var overlayEnabled: bool
    var overlayDisabledByError: bool
    var hasOverlayLayer: bool
    var overlayUsesClientTarget: bool
    var overlayLayer: nat
    var mode: Mode

    ghost function Value(): Adapter
      reads this
    {
      Adapter(width, height, nextLayerId, layers, layerStates, changedTypes, clearClientTargetLayers,
              buffer, overlayEnabled, overlayDisabledByError, hasOverlayLayer,
              overlayUsesClientTarget, overlayLayer, mode)
    }

    constructor (width: nat, height: nat)
      requires width < TWO_TO_31 && height < TWO_TO_31
      ensures Value() == Fresh(width, height) && Inv(Value())
    {
      this.width, this.height := width, height;
      nextLayerId, layers, layerStates := 0, {}, map[];
      changedTypes, clearClientTargetLayers, buffer := map[], {}, NoBuffer;
      overlayEnabled, overlayDisabledByError := false, false;
      hasOverlayLayer, overlayUsesClientTarget, overlayLayer := false, false, 0;
      mode := Modified;
    }

    method AddLayer() returns (id: nat)
      requires Inv(Value())
      modifies this
      ensures Inv(Value()) && Value() == Added(old(Value()))
      ensures id in layers && id !in old(layers)
    {
      nextLayerId := nextLayerId + 1;
      id := nextLayerId;
      layers := layers + {id};
      layerStates := layerStates[id := NEW_LAYER];
    }

    method RemoveLayer(layer: nat) returns (removed: bool)
      requires Inv(Value())
      modifies this
      ensures Inv(Value()) && Value() == Removed(old(Value()), layer)
      ensures removed == (layer in old(layers)) && layer !in layers
    {
      RemovedInv(Value(), layer);
      if layer !in layers {
        return false;
      }
      layers := layers - {layer};
      layerStates := layerStates - {layer};
      changedTypes := changedTypes - {layer};
      clearClientTargetLayers := clearClientTargetLayers - {layer};
      if hasOverlayLayer && overlayLayer == layer {
        hasOverlayLayer := false;
        overlayUsesClientTarget := false;
      }
      return true;
    }

    // Any of the setLayer* calls.
    method SetLayer(layer: nat, change: Change) returns (known: bool)
      requires Inv(Value())
      modifies `layerStates
      ensures Inv(Value()) && Value() == ChangedLayer(old(Value()), layer, change)
      ensures known == (layer in layers)
    {
      known := layer in layerStates;
      if known {
        layerStates := layerStates[layer := Changed(layerStates[layer], change)];
      }
    }

    // The hook of a setLayer* call.
    method SetLayerHook(layer: nat, change: Change) returns (known: bool)
      requires Inv(Value())
      modifies `layerStates, `mode
      ensures Inv(Value()) && Value() == ChangedDisplay(old(Value()), layer, change)
      ensures known == (layer in layers)
    {
      known := SetLayer(layer, change);
      if known && !change.SetBuffer? {
        SetState(Modified);
      }
    }

    // The first loop of validateLayers: any largest eligible layer, 0 if none.
    method ChooseOverlay() returns (choice: nat)
      requires Inv(Value())
      ensures Largest(layerStates, width, height, choice)
    {
      choice := 0;
      var area := 0;
      var rest := layerStates.Keys;
      while rest != {}
        invariant rest <= layerStates.Keys
        invariant choice == 0 ==> area == 0
        invariant choice != 0 ==>
                    && Candidate(layerStates, width, height, choice)
                    && area == FrameArea(layerStates[choice].displayFrame) > 0
        invariant forall id :: id !in rest && Candidate(layerStates, width, height, id) ==>
                    0 < FrameArea(layerStates[id].displayFrame) <= area
      {
        var id :| id in rest;
        rest := rest - {id};
        var state := layerStates[id];
        if Eligible(state, width, height) {
          EligibleHasArea(state, width, height);
          var candidateArea := FrameArea(state.displayFrame);
          if candidateArea > area {
            area := candidateArea;
            choice := id;
          }
        }
      }
    }

    // The second loop: fixes every layer's type and notes the differences.
    method AssignTypes(choice: nat) returns (hasClientComposition: bool)
      requires changedTypes == map[]
      modifies `layerStates, `changedTypes
      ensures layerStates == ValidatedStates(old(layerStates), choice, {})
      ensures changedTypes == TypeChanges(old(layerStates), choice, {})
      ensures hasClientComposition == (ClientIds(old(layerStates).Keys, choice) != {})
    {
      hasClientComposition := false;
      ghost var before := layerStates;
      var rest := layerStates.Keys;
      while rest != {}
        invariant rest <= before.Keys
        invariant layerStates == ValidatedStates(before, choice, rest)
        invariant changedTypes == TypeChanges(before, choice, rest)
        invariant hasClientComposition <==> ClientIds(before.Keys - rest, choice) != {}
      {
        var id :| id in rest;
        OneMoreLayer(before, choice, rest, id);
        rest := rest - {id};
        var validatedType := if choice != 0 && id == choice then COMPOSITION_DEVICE else COMPOSITION_CLIENT;
        layerStates := layerStates[id := layerStates[id].(validatedType := validatedType)];
        if layerStates[id].requestedType != validatedType {
          changedTypes := changedTypes[id := validatedType];
        }
        if validatedType == COMPOSITION_CLIENT {
          hasClientComposition := true;
        }
      }
      assert before.Keys - rest == before.Keys;
    }

    // Up to the end of the first loop.
    method BeginValidation(property: bool) returns (choice: nat)
      requires Inv(Value())
      modifies this
      ensures MayChoose(old(Value()), property, choice)
      ensures Value() == old(Value()).(
                changedTypes := map[], clearClientTarget := {}, hasOverlay := false,
                usesClientTarget := false, enabled := property,
                disabledByError := property && old(overlayDisabledByError))
    {
      changedTypes, clearClientTargetLayers := map[], {};
      hasOverlayLayer, overlayUsesClientTarget := false, false;
      overlayEnabled := property;
      if !overlayEnabled {
        overlayDisabledByError := false;
      }
      choice := 0;
      if overlayEnabled && !overlayDisabledByError {
        choice := ChooseOverlay();
      }
    }

    // After the second loop.
    method SelectOverlay(choice: nat, hasClientComposition: bool)
      modifies `hasOverlayLayer, `overlayLayer, `overlayUsesClientTarget, `clearClientTargetLayers
      ensures if choice == 0 then Value() == old(Value())
              else Value() == old(Value()).(
                     hasOverlay := true, overlayLayer := choice,
                     usesClientTarget := hasClientComposition || old(overlayUsesClientTarget),
                     clearClientTarget := if hasClientComposition then {choice} + old(clearClientTargetLayers)
                                          else old(clearClientTargetLayers))
    {
      if choice != 0 {
        hasOverlayLayer := true;
        overlayLayer := choice;
        if hasClientComposition {
          overlayUsesClientTarget := true;
          clearClientTargetLayers := clearClientTargetLayers + {choice};
        }
      }
    }

    method ValidateLayers(property: bool) returns (numTypes: nat, numRequests: nat)
      requires Inv(Value())
      modifies this
      ensures Inv(Value()) && Validates(old(Value()), property, Value())
      ensures numTypes == |changedTypes| && numRequests == |clearClientTargetLayers|
    {
      var choice := BeginValidation(property);
      var hasClientComposition := AssignTypes(choice);
      SelectOverlay(choice, hasClientComposition);
      assert Value() == Validated(old(Value()), property, choice);
      ValidatedInv(old(Value()), property, choice);
      return |changedTypes|, |clearClientTargetLayers|;
    }

    // Validates and says whether there are changes to accept; `choice` is the layer chosen.
    method ValidateDisplay(property: bool) returns (hasChanges: bool, ghost choice: nat)
      requires Inv(Value())
      modifies this
      ensures Inv(Value()) && MayChoose(old(Value()), property, choice)
      ensures Value() == ValidatedDisplay(old(Value()), property, choice)
      ensures hasChanges == (mode == ValidatedWithChanges)
    {
      ghost var before := Value();
      var numTypes, numRequests := ValidateLayers(property);
      choice :| MayChoose(before, property, choice) && Value() == Validated(before, property, choice);
      assert numTypes > 0 <==> changedTypes != map[];
      assert numRequests > 0 <==> clearClientTargetLayers != {};
      hasChanges := numTypes > 0 || numRequests > 0;
      SetState(if hasChanges then ValidatedWithChanges else ValidatedAsIs);
    }

    method SetState(newMode: Mode)
      requires Inv(Value())
      modifies `mode
      ensures Inv(Value()) && Value() == old(Value()).(mode := newMode)
    {
      mode := newMode;
    }

    // False when nothing has been validated.
    method AcceptDisplayChanges() returns (ok: bool)
      requires Inv(Value())
      modifies `layerStates, `changedTypes, `mode
      ensures Inv(Value()) && Value() == AcceptedDisplay(old(Value()))
      ensures ok == !old(mode).Modified?
    {
      ok := !mode.Modified?;
      if ok {
        AcceptChanges();
        SetState(ValidatedAsIs);
      }
    }

    method AcceptChanges()
      requires Inv(Value())
      modifies `layerStates, `changedTypes
      ensures Inv(Value()) && Value() == Accepted(old(Value()))
    {
      ghost var before := layerStates;
      var rest := layerStates.Keys;
      while rest != {}
        invariant rest <= before.Keys == layerStates.Keys
        invariant forall id :: id in before ==>
                    layerStates[id] == if id in rest then before[id]
                                       else before[id].(requestedType := before[id].validatedType)
      {
        var id :| id in rest;
        rest := rest - {id};
        layerStates := layerStates[id := layerStates[id].(requestedType := layerStates[id].validatedType)];
      }
      changedTypes := map[];
    }

    // True when the overlay was played; `hw` says how the frame buffer device answers.
    method PostOverlay(hw: Hardware) returns (ok: bool, played: seq<DssLayer>)
      requires Inv(Value())
      modifies this
      ensures Inv(Value())
      ensures (Value(), if ok then Some(played) else None) == OverlayPosted(old(Value()), hw)
    {
      ok, played := false, [];
      if !hasOverlayLayer || overlayDisabledByError {
        return;
      }
      if overlayLayer !in layerStates {
        return;
      }
      if overlayUsesClientTarget && buffer.NoBuffer? {
        FailOverlay();
        return;
      }
      var state := layerStates[overlayLayer];
      var video := FillDssLayer(state.buffer, state.sourceCrop, state.displayFrame, BLEND_MODE_NONE,
                                1.0, state.transform, 0, CHANNEL_0, {CapDma});
      if video == None {
        FailOverlay();
        return;
      }
      var infos := [video.value];
      if overlayUsesClientTarget {
        var client := FillDssLayer(buffer, Crop(0.0, 0.0, Float(width as real), Float(height as real)),
                                   Rect(0, 0, width, height), BLEND_MODE_PREMULTIPLIED, 1.0, 0, 1,
                                   CHANNEL_3, {CapFbPost});
        if client == None {
          FailOverlay();
          return;
        }
        infos := [video.value, client.value];
      }
      if !hw.opens || !hw.plays {
        FailOverlay();
        return;
      }
      return true, infos;
    }

    // Plays the overlay if there is one and it can be played; otherwise posts the client target,
    // if there is one, to the frame buffer.
    method PostBuffer(hw: Hardware) returns (playedOverlay: bool, postedTarget: bool)
      requires Inv(Value())
      modifies this
      ensures Inv(Value())
      ensures Value() == if old(hasOverlayLayer) then OverlayPosted(old(Value()), hw).0 else old(Value())
      ensures playedOverlay == (old(hasOverlayLayer) && OverlayPosted(old(Value()), hw).1.Some?)
      ensures postedTarget == (!playedOverlay && buffer.Native?)
    {
      if hasOverlayLayer {
        var played;
        playedOverlay, played := PostOverlay(hw);
        if playedOverlay {
          return true, false;
        }
      }
      return false, buffer.Native?;
    }

    method FailOverlay()
      requires Inv(Value()) && hasOverlayLayer
      modifies `overlayDisabledByError, `hasOverlayLayer, `overlayUsesClientTarget, `mode
      ensures Value() == OverlayFailure(old(Value())) && Inv(Value())
    {
      overlayDisabledByError := true;
      hasOverlayLayer := false;
      overlayUsesClientTarget := false;
      mode := Modified;
    }
  }

  lemma EligibleHasArea(s: LayerState, width: nat, height: nat)
    requires Eligible(s, width, height) && width < TWO_TO_31 && height < TWO_TO_31
    ensures FrameArea(s.displayFrame) > 0
  {
    FrameHasArea(s.displayFrame, width, height);
  }

  lemma FrameHasArea(r: Rect, width: nat, height: nat)
    requires RectIsValid(r) && FrameFitsDisplay(r, width, height)
    requires width < TWO_TO_31 && height < TWO_TO_31
    ensures FrameArea(r) > 0
  {
    assert RectWidth(r) > 0 && RectHeight(r) > 0;
  }

  // ---- What the calls do to layers ----

  // A layer after the setLayer* calls listed.
  function AfterChanges(s: LayerState, changes: seq<Change>): LayerState {
    if changes == [] then s
    else Changed(AfterChanges(s, changes[..|changes| - 1]), changes[|changes| - 1])
  }

  // The last value of one kind among the calls.
  function Last<T>(changes: seq<Change>, pick: Change -> Option<T>, start: T): T {
    if changes == [] then start
    else if pick(changes[|changes| - 1]).Some? then pick(changes[|changes| - 1]).value
    else Last(changes[..|changes| - 1], pick, start)
  }

  // Every attribute of a layer is the last one that was set, and the start value if none was.
  lemma {:induction false} AttributesAreLastSet(changes: seq<Change>)
    ensures var s := AfterChanges(NEW_LAYER, changes);
            && s.buffer == Last(changes, (c: Change) => if c.SetBuffer? then Some(c.buffer) else None, NoBuffer)
            && s.requestedType
               == Last(changes, (c: Change) => if c.SetCompositionType? then Some(c.kind) else None, 1)
            && s.blendMode == Last(changes, (c: Change) => if c.SetBlendMode? then Some(c.mode) else None, 1)
            && s.displayFrame == Last(changes, (c: Change) => if c.SetDisplayFrame? then Some(c.frame) else None,
                                      Rect(0, 0, 0, 0))
            && s.sourceCrop == Last(changes, (c: Change) => if c.SetSourceCrop? then Some(c.crop) else None,
                                    Crop(0.0, 0.0, 0.0, 0.0))
            && s.planeAlpha == Last(changes, (c: Change) => if c.SetPlaneAlpha? then Some(c.alpha) else None, 1.0)
            && s.transform == Last(changes, (c: Change) => if c.SetTransform? then Some(c.transform) else None, 0)
            && s.z == Last(changes, (c: Change) => if c.SetZOrder? then Some(c.z) else None, 0)
            && s.validatedType == 1
  {
    if changes != [] { AttributesAreLastSet(changes[..|changes| - 1]); }
  }

  // A new layer starts with the defaults under an unused id; a removed one takes with it what was
  // decided about it; the others stay as they are.
  lemma LayersComeAndGo(a: Adapter, id: nat)
    requires Inv(a)
    ensures var b := Added(a);
            && b.nextLayerId !in a.layers && b.layers == a.layers + {b.nextLayerId}
            && b.states == a.states[b.nextLayerId := NEW_LAYER]
            && b == a.(nextLayerId := b.nextLayerId, layers := b.layers, states := b.states)
    ensures var b := Removed(a, id);
            && b.layers == a.layers - {id} && b.states.Keys == b.layers
            && (forall other | other in b.states :: b.states[other] == a.states[other])
            && b.changedTypes == a.changedTypes - {id} && b.clearClientTarget == a.clearClientTarget - {id}
            && b.hasOverlay == (a.hasOverlay && a.overlayLayer != id)
            && b.usesClientTarget == (a.usesClientTarget && a.overlayLayer != id)
            && (b.nextLayerId, b.clientTarget, b.overlayLayer, b.enabled, b.disabledByError, b.mode)
               == (a.nextLayerId, a.clientTarget, a.overlayLayer, a.enabled, a.disabledByError, a.mode)
  {
  }

  // A change reaches its layer only, and ends the validation unless it is that of the buffer.
  lemma ChangeReachesItsLayer(a: Adapter, id: nat, change: Change)
    ensures var b := ChangedDisplay(a, id, change);
            && b == a.(states := b.states, mode := b.mode) && b.states.Keys == a.states.Keys
            && (forall other | other in a.states && other != id :: b.states[other] == a.states[other])
            && (id in a.states ==> b.states[id] == Changed(a.states[id], change))
            && b.mode == if id in a.states && !change.SetBuffer? then Modified else a.mode
  {
  }

  // Eligible is a layer that asks for the hardware, lies unrotated and opaque on the display, and
  // has a YUV buffer of the vendor's that holds its crop.
  lemma EligibleIff(s: LayerState, width: nat, height: nat)
    ensures Eligible(s, width, height) <==>
              var (b, frame, crop) := (s.buffer, s.displayFrame, s.sourceCrop);
              && s.requestedType == 2 && s.transform == 0 && s.planeAlpha >= 0.999
              && 0 <= frame.left < frame.right <= width && 0 <= frame.top < frame.bottom <= height
              && IsHisiHandle(b)
              && HalLayout(HandleWord(b, 20)).Some? && HalLayout(HandleWord(b, 20)).value.Chroma?
              && 0 < BufferWidth(b) && 0 < BufferHeight(b)
              && 0.0 <= crop.left < crop.right <= Float(BufferWidth(b) as real)
              && 0.0 <= crop.top < crop.bottom <= Float(BufferHeight(b) as real)
  {
    AcceptedIff(s.buffer, s.sourceCrop, s.displayFrame, BLEND_MODE_NONE, 1.0, s.transform, 0, CHANNEL_0, {CapDma});
    if IsHisiHandle(s.buffer) { ConversionKeepsLayout(HandleWord(s.buffer, 20)); }
  }

  // ---- What one validation gives ----

  // At most one layer goes to the hardware, and none larger was eligible; there is one exactly
  // when the property is set, no error is latched and some layer is eligible. The reported
  // changes are exactly the layers whose type was decided otherwise than requested.
  lemma ValidationOutcome(a: Adapter, property: bool, b: Adapter)
    requires Inv(a) && Validates(a, property, b)
    ensures Inv(b) && b.states.Keys == a.states.Keys
    ensures b.hasOverlay <==>
              property && !a.disabledByError && exists id :: Candidate(a.states, a.width, a.height, id)
    ensures b.hasOverlay ==>
              && Candidate(a.states, a.width, a.height, b.overlayLayer)
              && forall id | Candidate(a.states, a.width, a.height, id) ::
                   FrameArea(a.states[id].displayFrame)
                   <= FrameArea(a.states[b.overlayLayer].displayFrame)
    ensures forall id | id in b.states ::
              b.states[id].validatedType
              == if b.hasOverlay && id == b.overlayLayer then COMPOSITION_DEVICE else COMPOSITION_CLIENT
    ensures forall id :: id in b.changedTypes <==>
              id in b.states && b.states[id].requestedType != b.states[id].validatedType
    ensures forall id | id in b.changedTypes :: b.changedTypes[id] == b.states[id].validatedType
    ensures b.usesClientTarget <==> b.hasOverlay && a.states.Keys != {b.overlayLayer}
    ensures b.clearClientTarget == if b.usesClientTarget then {b.overlayLayer} else {}
    // the latch and the property; everything else is as it was
    ensures !b.hasOverlay ==> b.overlayLayer == a.overlayLayer
    ensures b.enabled == property && b.disabledByError == (property && a.disabledByError)
    ensures forall id | id in a.states ::
              b.states[id] == a.states[id].(validatedType := b.states[id].validatedType)
    ensures (b.layers, b.clientTarget, b.nextLayerId, b.mode) == (a.layers, a.clientTarget, a.nextLayerId, a.mode)
  {
    var choice: nat :| MayChoose(a, property, choice) && b == Validated(a, property, choice);
    ValidatedInv(a, property, choice);
    if choice != 0 {
      assert a.states.Keys == {choice} <==> ClientIds(a.states.Keys, choice) == {};
    }
  }

  // A validation counts as it is exactly if there is nothing to accept; accepting a validation
  // turns the requested types into the validated ones and changes nothing else.
  lemma ValidationIsAccepted(a: Adapter, property: bool, choice: nat)
    ensures var b := ValidatedDisplay(a, property, choice);
            && b == Validated(a, property, choice).(mode := b.mode)
            && b.mode == (if b.changedTypes == map[] && b.clearClientTarget == {} then ValidatedAsIs
                          else ValidatedWithChanges)
            && var c := AcceptedDisplay(b);
               && c.states.Keys == b.states.Keys
               && (forall id | id in b.states ::
                     c.states[id] == b.states[id].(requestedType := b.states[id].validatedType))
               && c == b.(states := c.states, changedTypes := map[], mode := ValidatedAsIs)
    ensures a.mode.Modified? ==> AcceptedDisplay(a) == a
  {
  }

  // Validating, accepting and validating again settles: the same overlay, whatever order the two
  // walks take, and no further type change.
  lemma AcceptedValidationIsStable(a: Adapter, property: bool, b: Adapter, c: Adapter)
    requires Inv(a) && Validates(a, property, b) && Validates(Accepted(b), property, c)
    ensures c.hasOverlay == b.hasOverlay
    ensures c.hasOverlay ==> c.overlayLayer == b.overlayLayer
    ensures c.changedTypes == map[]
    ensures c.clearClientTarget == b.clearClientTarget && c.usesClientTarget == b.usesClientTarget
  {
    var d := Accepted(b);
    ValidationOutcome(a, property, b);
    assert Inv(d);
    ValidationOutcome(d, property, c);
    forall id | Candidate(d.states, d.width, d.height, id)
      ensures b.hasOverlay && id == b.overlayLayer
    {
      assert d.states[id].requestedType == b.states[id].validatedType;
    }
    if b.hasOverlay {
      assert Candidate(d.states, d.width, d.height, b.overlayLayer);
    }
  }

  // ---- Runs ----

  datatype Happening =
    | Validation(property: bool, selected: bool)
    | Played(layers: seq<DssLayer>)
    | OverlayFailed
    | Other

  // `chosen` is the overlay layer as it was when the last validation chose it.
  datatype State = State(adapter: Adapter, log: seq<Happening>, chosen: LayerState)

  datatype Step =
    | AddStep(stale: bool)
    | RemoveStep(id: nat, stale: bool)
    | ChangeStep(id: nat, change: Change)
    | ValidateStep(property: bool, choice: nat)
    | AcceptStep
    | TargetStep(buffer: Buffer)
    | PresentStep(hw: Hardware)

  ghost predicate Enabled(s: State, step: Step) {
    step.ValidateStep? ==> MayChoose(s.adapter, step.property, step.choice)
  }

  // What postBuffer leaves in the log.
  function Presented(a: Adapter, hw: Hardware): Happening {
    if !a.hasOverlay then Other
    else
      var (b, played) := OverlayPosted(a, hw);
      if played.Some? then Played(played.value)
      else if b.disabledByError && !b.hasOverlay then OverlayFailed
      else Other
  }

  function Apply(s: State, step: Step): State {
    var a := s.adapter;
    match step
    case AddStep(stale) => s.(adapter := Stale(Added(a), stale), log := s.log + [Other])
    case RemoveStep(id, stale) => s.(adapter := Stale(Removed(a, id), stale), log := s.log + [Other])
    case ChangeStep(id, change) => s.(adapter := ChangedDisplay(a, id, change), log := s.log + [Other])
    case ValidateStep(property, choice) =>
      State(ValidatedDisplay(a, property, choice), s.log + [Validation(property, choice != 0)],
            if choice in a.states then a.states[choice] else s.chosen)
    case AcceptStep => s.(adapter := AcceptedDisplay(a), log := s.log + [Other])
    case TargetStep(buffer) => s.(adapter := a.(clientTarget := buffer), log := s.log + [Other])
    case PresentStep(hw) =>
      s.(adapter := if a.hasOverlay then OverlayPosted(a, hw).0 else a, log := s.log + [Presented(a, hw)])
  }

  function Stale(a: Adapter, stale: bool): Adapter {
    if stale then a.(mode := Modified) else a
  }

  ghost predicate Next(s: State, step: Step, t: State) {
    Enabled(s, step) && t == Apply(s, step)
  }

  function Start(width: nat, height: nat): State {
    State(Fresh(width, height), [], NEW_LAYER)
  }

  ghost predicate Reachable(s: State) {
    exists width: nat, height: nat ::
      width < TWO_TO_31 && height < TWO_TO_31 && Reaches(Next, Start(width, height), s)
  }

  // The property was seen unset between i and j.
  ghost predicate ResetWithin(log: seq<Happening>, i: int, j: int) {
    exists k :: 0 <= i < k < j <= |log| && log[k].Validation? && !log[k].property
  }

  predicate UsesOverlay(h: Happening) {
    h.Played? || (h.Validation? && h.selected)
  }

  ghost predicate LatchHolds(log: seq<Happening>) {
    forall i, j :: 0 <= i < j < |log| && log[i].OverlayFailed? && UsesOverlay(log[j]) ==>
      ResetWithin(log, i, j)
  }

  ghost predicate LatchRemembers(a: Adapter, log: seq<Happening>) {
    forall i :: 0 <= i < |log| && log[i].OverlayFailed? ==>
      a.disabledByError || ResetWithin(log, i, |log|)
  }

  // A validated display shows each layer as it asks to be shown.
  ghost predicate TypesAgree(a: Adapter) {
    a.mode == ValidatedAsIs ==>
      forall id | id in a.states :: a.states[id].requestedType == a.states[id].validatedType
  }

  // As long as a validation is worth something, the overlay layer is the one it chose, as it was
  // but for its buffer.
  ghost predicate OverlayAsChosen(s: State) {
    var a := s.adapter;
    !a.mode.Modified? && a.hasOverlay ==>
      && a.overlayLayer in a.states && Eligible(s.chosen, a.width, a.height)
      && a.states[a.overlayLayer] == s.chosen.(buffer := a.states[a.overlayLayer].buffer,
                                               validatedType := COMPOSITION_DEVICE)
  }

  ghost predicate RunInv(s: State) {
    && Inv(s.adapter) && TypesAgree(s.adapter) && OverlayAsChosen(s)
    && LatchHolds(s.log) && LatchRemembers(s.adapter, s.log)
  }

  lemma AdapterKeepsInv(s: State, step: Step)
    requires Inv(s.adapter) && Enabled(s, step)
    ensures Inv(Apply(s, step).adapter)
  {
    match step
    case RemoveStep(id, _) => RemovedInv(s.adapter, id);
    case ChangeStep(id, change) => ChangedInv(s.adapter, id, change);
    case AcceptStep => AcceptedInv(s.adapter);
    case ValidateStep(property, choice) => ValidatedInv(s.adapter, property, choice);
    case PresentStep(hw) => PostedInv(s.adapter, hw);
    case _ =>
  }

  lemma RemovedInv(a: Adapter, id: nat)
    requires Inv(a)
    ensures Inv(Removed(a, id))
  {
  }

  lemma ChangedInv(a: Adapter, id: nat, change: Change)
    requires Inv(a)
    ensures Inv(ChangedDisplay(a, id, change))
  {
  }

  lemma AcceptedInv(a: Adapter)
    requires Inv(a)
    ensures Inv(AcceptedDisplay(a))
  {
  }

  lemma PostedInv(a: Adapter, hw: Hardware)
    requires Inv(a)
    ensures Inv(OverlayPosted(a, hw).0)
  {
    assert OverlayPosted(a, hw).0 == a || OverlayPosted(a, hw).0 == OverlayFailure(a);
  }

  lemma ValidationAgrees(a: Adapter, property: bool, choice: nat)
    ensures TypesAgree(ValidatedDisplay(a, property, choice))
  {
    var b := ValidatedDisplay(a, property, choice);
    if b.mode == ValidatedAsIs {
      forall id | id in b.states
        ensures b.states[id].requestedType == b.states[id].validatedType
      {
        assert id !in b.changedTypes;
      }
    }
  }

  lemma StepKeepsTypes(s: State, step: Step)
    requires TypesAgree(s.adapter) && Enabled(s, step)
    ensures TypesAgree(Apply(s, step).adapter)
  {
    if step.ValidateStep? { ValidationAgrees(s.adapter, step.property, step.choice); }
  }

  lemma StepKeepsChosen(s: State, step: Step)
    requires Inv(s.adapter) && OverlayAsChosen(s) && Enabled(s, step)
    ensures OverlayAsChosen(Apply(s, step))
  {
    match step
    case ValidateStep(property, choice) => ValidationChooses(s, property, choice);
    case PresentStep(hw) =>
      assert OverlayPosted(s.adapter, hw).0 == s.adapter
             || OverlayPosted(s.adapter, hw).0 == OverlayFailure(s.adapter);
    case _ =>
  }

  lemma ValidationChooses(s: State, property: bool, choice: nat)
    requires Inv(s.adapter) && Enabled(s, ValidateStep(property, choice))
    ensures OverlayAsChosen(Apply(s, ValidateStep(property, choice)))
  {
  }

  // One more happening. While the latch is set, only a validation with the property unset
  // clears it, and nothing uses the overlay.
  lemma AppendKeeps(s: State, h: Happening, b: Adapter)
    requires LatchHolds(s.log) && LatchRemembers(s.adapter, s.log)
    requires s.adapter.disabledByError ==> !UsesOverlay(h)
    requires s.adapter.disabledByError ==> b.disabledByError || (h.Validation? && !h.property)
    requires h.OverlayFailed? ==> b.disabledByError
    ensures LatchHolds(s.log + [h]) && LatchRemembers(b, s.log + [h])
  {
    var log := s.log + [h];
    forall i | 0 <= i < |log| && log[i].OverlayFailed?
      ensures b.disabledByError || ResetWithin(log, i, |log|)
      ensures forall j :: i < j < |log| && UsesOverlay(log[j]) ==> ResetWithin(log, i, j)
    {
      if i < |s.log| {
        if ResetWithin(s.log, i, |s.log|) { LongerLogKeepsReset(s.log, h, i, |s.log|); }
        if !b.disabledByError && s.adapter.disabledByError { assert !log[|s.log|].property; }
        forall j | i < j < |log| && UsesOverlay(log[j])
          ensures ResetWithin(log, i, j)
        {
          if j < |s.log| { LongerLogKeepsReset(s.log, h, i, j); }
        }
      }
    }
  }

  lemma LongerLogKeepsReset(log: seq<Happening>, h: Happening, i: int, j: int)
    requires ResetWithin(log, i, j)
    ensures ResetWithin(log + [h], i, j) && ResetWithin(log + [h], i, |log| + 1)
  {
    var k :| 0 <= i < k < j <= |log| && log[k].Validation? && !log[k].property;
    assert (log + [h])[k] == log[k];
  }

  lemma StepKeeps(s: State, step: Step)
    requires RunInv(s) && Enabled(s, step)
    ensures RunInv(Apply(s, step))
  {
    AdapterKeepsInv(s, step);
    StepKeepsTypes(s, step);
    StepKeepsChosen(s, step);
    var t := Apply(s, step);
    AppendKeeps(s, t.log[|s.log|], t.adapter);
  }

  lemma ReachableInv(s: State)
    requires Reachable(s)
    ensures RunInv(s)
  {
    var width: nat, height: nat :|
      width < TWO_TO_31 && height < TWO_TO_31 && Reaches(Next, Start(width, height), s);
    forall s, step, t | RunInv(s) && Next(s, step, t)
      ensures RunInv(t)
    {
      StepKeeps(s, step);
    }
    ReachesKeeps(Next, RunInv, Start(width, height), s);
  }

  // One step further on a run.
  lemma Then(s: State, step: Step) returns (t: State)
    requires Reachable(s) && Enabled(s, step)
    ensures t == Apply(s, step) && Reachable(t)
  {
    t := Apply(s, step);
    var width: nat, height: nat :|
      width < TWO_TO_31 && height < TWO_TO_31 && Reaches(Next, Start(width, height), s);
    ReachesThen(Next, Start(width, height), s, step, t);
  }

  // After a failed overlay no layer is selected and none is played until a validation has seen
  // the property unset.
  lemma FailureDisablesOverlay(s: State, i: nat, j: nat)
    requires Reachable(s) && i < j < |s.log|
    requires s.log[i].OverlayFailed? && UsesOverlay(s.log[j])
    ensures ResetWithin(s.log, i, j)
  {
    ReachableInv(s);
  }

  // The overlay layer is always a live layer, so presenting either plays it or latches the
  // error; the branch for a missing layer is dead.
  lemma OverlayLayerIsLive(s: State, hw: Hardware)
    requires Reachable(s)
    ensures s.adapter.layers == s.adapter.states.Keys
    ensures s.adapter.hasOverlay ==>
              && s.adapter.overlayLayer in s.adapter.states
              && var (b, played) := OverlayPosted(s.adapter, hw);
                 if played.Some? then b == s.adapter
                 else
                   && b.disabledByError && !b.hasOverlay && !b.usesClientTarget && b.mode == Modified
                   && b == s.adapter.(disabledByError := true, hasOverlay := false, usesClientTarget := false,
                                      mode := Modified)
                   && Presented(s.adapter, hw) == OverlayFailed
  {
    ReachableInv(s);
  }

  // In a validated state every layer is shown as it asked, and the overlay layer still has the
  // frame, crop, transform and alpha it was found eligible with: only its buffer may be another.
  lemma ValidatedStateIsCurrent(s: State)
    requires Reachable(s) && s.adapter.mode == ValidatedAsIs
    ensures var a := s.adapter;
            && (forall id | id in a.states :: a.states[id].requestedType == a.states[id].validatedType)
            && (a.hasOverlay ==>
                  && a.overlayLayer in a.states && Eligible(s.chosen, a.width, a.height)
                  && a.states[a.overlayLayer] == s.chosen.(buffer := a.states[a.overlayLayer].buffer,
                                                           validatedType := COMPOSITION_DEVICE))
  {
    ReachableInv(s);
  }

  // So if that is not another either, the overlay fails only for the client target or the hardware.
  lemma KeptBufferFailsOnlyOutside(s: State, hw: Hardware)
    requires Reachable(s) && !s.adapter.mode.Modified? && s.adapter.hasOverlay
    requires s.adapter.overlayLayer in s.adapter.states ==>
               s.adapter.states[s.adapter.overlayLayer].buffer == s.chosen.buffer
    ensures var a := s.adapter;
            OverlayPosted(a, hw).1 == None <==>
              || (a.usesClientTarget && (a.clientTarget.NoBuffer? || ClientLayer(a) == None))
              || !hw.opens || !hw.plays
  {
    ReachableInv(s);
    assert VideoLayer(s.adapter).Some?;
  }

  // What is played: the video's crop on channel 0, and above it the client target on channel 3 over
  // the whole display, blended, exactly if other layers were left to the client; both opaque, the
  // video without blending and, while a validation holds, at its display frame without rotation.
  lemma PlayedLayers(s: State, hw: Hardware)
    requires Reachable(s)
    ensures var a := s.adapter;
            var (_, played) := OverlayPosted(a, hw);
            played.Some? ==>
              && a.overlayLayer in a.states
              && |played.value| == (if a.usesClientTarget then 2 else 1)
              && IsVideoLayer(a.states[a.overlayLayer], played.value[0])
              && (!a.mode.Modified? ==> IsInPlace(a.states[a.overlayLayer], played.value[0]))
              && (a.usesClientTarget ==> IsClientLayer(a, played.value[1]))
  {
    ReachableInv(s);
    var a := s.adapter;
    var (_, played) := OverlayPosted(a, hw);
    if played.Some? {
      VideoLayerFields(a);
      if !a.mode.Modified? { VideoLayerPlace(a); }
      if a.usesClientTarget { ClientLayerFields(a); }
    }
  }

  predicate IsVideoLayer(video: LayerState, l: DssLayer) {
    && l.layerIdx == 0 && l.chnIdx == 0 && l.blending == 0 && l.glbAlpha == 255
    && Some(l.format) == GetHisiFormat(video.buffer)
    && CropIsValid(video.sourceCrop) && l.srcRect == SourceRect(video.sourceCrop)
    && CapDma in l.needCap && CapFbPost !in l.needCap && (CapCsc in l.needCap <==> IsYuvFormat(l.format))
  }

  predicate IsInPlace(video: LayerState, l: DssLayer) {
    && l.transform == 0
    && var frame := video.displayFrame;
       l.dstRect == DssRect(frame.left, frame.top, frame.right - frame.left, frame.bottom - frame.top)
  }

  predicate IsClientLayer(a: Adapter, l: DssLayer) {
    && l.layerIdx == 1 && l.chnIdx == 3 && l.blending == 1 && l.glbAlpha == 255 && l.transform == 0
    && Some(l.format) == GetHisiFormat(a.clientTarget)
    && CapFbPost in l.needCap && CapDma !in l.needCap
    && l.dstRect == DssRect(0, 0, a.width, a.height)
    && (a.width as real < TWO_TO_24 && a.height as real < TWO_TO_24 ==>
          l.srcRect == DssRect(0, 0, a.width, a.height))
  }

  lemma VideoLayerFields(a: Adapter)
    requires a.overlayLayer in a.states && VideoLayer(a).Some?
    ensures var l, video := VideoLayer(a).value, a.states[a.overlayLayer];
            && l.layerIdx == 0 && l.chnIdx == 0 && l.blending == 0 && l.glbAlpha == 255
            && l.transform == MapHwcTransform(video.transform)
            && Some(l.format) == GetHisiFormat(video.buffer)
            && CropIsValid(video.sourceCrop) && RectIsValid(video.displayFrame)
            && l.srcRect == SourceRect(video.sourceCrop) && l.dstRect == TargetRect(video.displayFrame)
            && CapDma in l.needCap && CapFbPost !in l.needCap && (CapCsc in l.needCap <==> IsYuvFormat(l.format))
  {
    AlphaIsScaled(1.0);
  }

  lemma VideoLayerPlace(a: Adapter)
    requires Inv(a) && a.overlayLayer in a.states && VideoLayer(a).Some?
    requires FrameFitsDisplay(a.states[a.overlayLayer].displayFrame, a.width, a.height)
    ensures var l, frame := VideoLayer(a).value, a.states[a.overlayLayer].displayFrame;
            l.dstRect == DssRect(frame.left, frame.top, frame.right - frame.left, frame.bottom - frame.top)
  {
    VideoLayerFields(a);
    TargetIsFrame(a.states[a.overlayLayer].displayFrame, a.width, a.height);
  }

  lemma ClientLayerFields(a: Adapter)
    requires Inv(a) && ClientLayer(a).Some?
    ensures IsClientLayer(a, ClientLayer(a).value)
  {
    AlphaIsScaled(1.0);
    TargetIsFrame(Rect(0, 0, a.width, a.height), a.width, a.height);
    if a.width as real < TWO_TO_24 && a.height as real < TWO_TO_24 {
      FloatOfWhole(a.width);
      FloatOfWhole(a.height);
      WholeCropIsItself(0, 0, a.width, a.height);
    }
  }

  // Every step is the call it stands for, and the list tells what a validation decided and what was
  // played.
  lemma StepsAreListed(s: State, step: Step)
    requires Reachable(s) && Enabled(s, step)
    ensures var t := Apply(s, step);
            && |t.log| == |s.log| + 1 && s.log <= t.log
            && (step.TargetStep? ==> t.adapter == s.adapter.(clientTarget := step.buffer))
            && (step.AddStep? ==> t.adapter == Added(s.adapter).(mode := t.adapter.mode))
            && (step.RemoveStep? ==> t.adapter == Removed(s.adapter, step.id).(mode := t.adapter.mode))
            && (step.ChangeStep? ==> t.adapter == ChangedDisplay(s.adapter, step.id, step.change))
            && (step.AcceptStep? ==> t.adapter == AcceptedDisplay(s.adapter))
            && (step.PresentStep? ==>
                  t.adapter == if s.adapter.hasOverlay then OverlayPosted(s.adapter, step.hw).0 else s.adapter)
            && (step.ValidateStep? ==>
                  t.log[|s.log|] == Validation(step.property, t.adapter.hasOverlay))
            && (step.PresentStep? && s.adapter.hasOverlay && OverlayPosted(s.adapter, step.hw).1.Some? ==>
                  t.log[|s.log|] == Played(OverlayPosted(s.adapter, step.hw).1.value))
  {
  }

  // Neither validates again nor gives the layer another buffer.
  predicate LeavesBuffer(step: Step, id: nat) {
    !step.ValidateStep? && !(step.ChangeStep? && step.id == id && step.change.SetBuffer?)
  }

  // The overlay, if there still is one, is the layer chosen and has a YUV buffer.
  ghost predicate ShowsYuv(a: Adapter, id: nat) {
    Inv(a) && (a.hasOverlay ==> a.overlayLayer == id && YuvBuffer(a.states[id].buffer))
  }

  predicate YuvBuffer(b: Buffer) {
    GetHisiFormat(b).Some? && IsYuvFormat(GetHisiFormat(b).value)
  }

  lemma StepLeavesYuv(s: State, step: Step, id: nat)
    requires ShowsYuv(s.adapter, id) && Enabled(s, step) && LeavesBuffer(step, id)
    ensures ShowsYuv(Apply(s, step).adapter, id)
  {
    AdapterKeepsInv(s, step);
  }

  lemma ValidationChoosesYuv(a: Adapter, property: bool, choice: nat)
    requires Inv(a) && MayChoose(a, property, choice)
    ensures ShowsYuv(ValidatedDisplay(a, property, choice), choice)
  {
    ValidatedInv(a, property, choice);
  }

  ghost function KeepingBuffer(id: nat): (State, Step, State) -> bool {
    (s, step, t) => Next(s, step, t) && LeavesBuffer(step, id)
  }

  // From a validation on, whatever else is called in whatever order, only YUV is played until the
  // next validation as long as the layer it chose keeps its buffer.
  lemma KeptBufferPlaysYuv(s: State, property: bool, choice: nat, t: State, hw: Hardware)
    requires Reachable(s) && Enabled(s, ValidateStep(property, choice))
    requires Reaches(KeepingBuffer(choice), Apply(s, ValidateStep(property, choice)), t)
    ensures var (_, played) := OverlayPosted(t.adapter, hw);
            t.adapter.hasOverlay && played.Some? ==>
              t.adapter.overlayLayer == choice && IsYuvFormat(played.value[0].format)
  {
    ReachableInv(s);
    ValidationChoosesYuv(s.adapter, property, choice);
    var inv := (s: State) => ShowsYuv(s.adapter, choice);
    forall s, step, t | inv(s) && KeepingBuffer(choice)(s, step, t)
      ensures inv(t)
    {
      StepLeavesYuv(s, step, choice);
    }
    ReachesKeeps(KeepingBuffer(choice), inv, Apply(s, ValidateStep(property, choice)), t);
    var (_, played) := OverlayPosted(t.adapter, hw);
    if t.adapter.hasOverlay && played.Some? { VideoLayerFields(t.adapter); }
  }

  // What a buffer set after validation, which alone looks at the format, plays as.
  lemma ReplacedBufferDecidesFormat(s: State, buffer: Buffer, hw: Hardware)
    requires Reachable(s) && s.adapter.hasOverlay
    ensures var t := Apply(s, ChangeStep(s.adapter.overlayLayer, SetBuffer(buffer)));
            var (_, played) := OverlayPosted(t.adapter, hw);
            played.Some? ==>
              (IsYuvFormat(played.value[0].format) <==>
                 GetHisiFormat(buffer).Some? && IsYuvFormat(GetHisiFormat(buffer).value))
  {
    ReachableInv(s);
  }

  // A display with one video layer that asks for the overlay.
  lemma SampleVideo() returns (s: State)
    ensures Reachable(s) && s.adapter.width == s.adapter.height == 64 && s.adapter.states.Keys == {1}
    ensures !s.adapter.disabledByError
    ensures s.adapter.states[1] == NEW_LAYER.(
              buffer := Sample(YV12), requestedType := COMPOSITION_DEVICE,
              displayFrame := Rect(0, 0, 64, 64), sourceCrop := Crop(0.0, 0.0, 64.0, 64.0))
  {
    s := Start(64, 64);
    ReachesItself(Next, s);
    s := Then(s, AddStep(true));
    s := SetOnly(s, SetBuffer(Sample(YV12)));
    s := SetOnly(s, SetCompositionType(COMPOSITION_DEVICE));
    s := SetOnly(s, SetDisplayFrame(Rect(0, 0, 64, 64)));
    s := SetOnly(s, SetSourceCrop(Crop(0.0, 0.0, 64.0, 64.0)));
  }

  // Changes the only layer there is.
  lemma SetOnly(s: State, change: Change) returns (t: State)
    requires Reachable(s) && s.adapter.states.Keys == {1}
    ensures Reachable(t) && t.adapter.states.Keys == {1}
    ensures t.adapter.states[1] == Changed(s.adapter.states[1], change)
    ensures t.adapter.width == s.adapter.width && t.adapter.height == s.adapter.height
    ensures t.adapter.disabledByError == s.adapter.disabledByError
  {
    t := Then(s, ChangeStep(1, change));
  }

  // The same, with the video chosen as the overlay.
  lemma ValidatedVideo() returns (s: State)
    ensures Reachable(s) && s.adapter.width == s.adapter.height == 64 && s.adapter.states.Keys == {1}
    ensures !s.adapter.disabledByError && !s.adapter.usesClientTarget
    ensures s.adapter.hasOverlay && s.adapter.overlayLayer == 1 && s.adapter.mode == ValidatedAsIs
    ensures s.adapter.states[1].displayFrame == Rect(0, 0, 64, 64)
    ensures s.adapter.states[1].sourceCrop == Crop(0.0, 0.0, 64.0, 64.0)
    ensures s.adapter.states[1].transform == 0
  {
    s := SampleVideo();
    SampleIsAccepted(YV12, 0.0);
    assert Candidate(s.adapter.states, 64, 64, 1);
    assert ClientIds(s.adapter.states.Keys, 1) == {};
    s := Then(s, ValidateStep(true, 1));
  }

  // So "YUV only" holds at validation, not at presentation: an RGBA buffer set in between is played.
  lemma RgbCanBePlayed()
    ensures exists s, hw ::
              && Reachable(s) && s.adapter.hasOverlay && s.adapter.mode == ValidatedAsIs
              && OverlayPosted(s.adapter, hw).1.Some?
              && OverlayPosted(s.adapter, hw).1.value[0].format == HISI_RGBA_8888
  {
    var s := ValidatedVideo();
    s := Then(s, ChangeStep(1, SetBuffer(Sample(RGBA_8888))));
    SampleIsAccepted(RGBA_8888, 0.0);
    assert OverlayPosted(s.adapter, Hardware(true, true)).1.Some?;
  }
}
