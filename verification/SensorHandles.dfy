/** Global sensor handles: the two look-up maps and the start-up loop that fills them
    (device/huawei/mozart/sensors/multihal.cpp). */
module SensorHandles {

  datatype FullHandle = FullHandle(moduleIndex: int, localHandle: int)

  // A sensor_t: its handle and everything the start-up loop copies unchanged.
  datatype Sensor = Sensor(handle: int, description: int)

  datatype Registry = Registry(
    globalToFull: map<int, FullHandle>,
    fullToGlobal: map<FullHandle, int>,
    nextGlobalHandle: int
  ) {
    function Assign(full: FullHandle): Registry {
      Registry(globalToFull[nextGlobalHandle := full],
               fullToGlobal[full := nextGlobalHandle],
               nextGlobalHandle + 1)
    }

    function LocalHandle(globalHandle: int): int {
      if globalHandle in globalToFull then globalToFull[globalHandle].localHandle else -1
    }

    function ModuleIndex(globalHandle: int): int {
      if globalHandle in globalToFull then globalToFull[globalHandle].moduleIndex else -1
    }

    function GlobalHandle(full: FullHandle): int {
      if full in fullToGlobal then fullToGlobal[full] else -1
    }

    ghost predicate MutualInverse() {
      && (forall g | g in globalToFull ::
            globalToFull[g] in fullToGlobal && fullToGlobal[globalToFull[g]] == g)
      && (forall f | f in fullToGlobal ::
            fullToGlobal[f] in globalToFull && globalToFull[fullToGlobal[f]] == f)
    }
  }

  const UNREGISTERED := Registry(map[], map[], 1)

  function RegisterAll(handles: seq<FullHandle>): Registry {
    if handles == [] then UNREGISTERED
    else RegisterAll(handles[..|handles| - 1]).Assign(handles[|handles| - 1])
  }

  ghost predicate Distinct<T(!new)>(s: seq<T>) {
    forall i, j :: 0 <= i < j < |s| ==> s[i] != s[j]
  }

  // Handles are handed out 1, 2, 3, ... in registration order.
  ghost predicate NumberedInOrder(r: Registry, handles: seq<FullHandle>) {
    && r.nextGlobalHandle == |handles| + 1
    && (forall g :: g in r.globalToFull <==> 1 <= g <= |handles|)
    && (forall g :: 1 <= g <= |handles| ==> r.globalToFull[g] == handles[g - 1])
  }

  // A handle registered more than once is looked up under its last number.
  ghost predicate LooksUpLast(r: Registry, handles: seq<FullHandle>) {
    && (forall f :: f in r.fullToGlobal <==> f in handles)
    && (forall f | f in r.fullToGlobal ::
          && 1 <= r.fullToGlobal[f] <= |handles|
          && handles[r.fullToGlobal[f] - 1] == f
          && forall i :: r.fullToGlobal[f] <= i < |handles| ==> handles[i] != f)
  }

  lemma {:induction false} RegisterAllNumbersInOrder(handles: seq<FullHandle>)
    ensures NumberedInOrder(RegisterAll(handles), handles)
    ensures LooksUpLast(RegisterAll(handles), handles)
  {
    if handles != [] {
      var front, last := handles[..|handles| - 1], handles[|handles| - 1];
      RegisterAllNumbersInOrder(front);
      assert handles == front + [last];
      AssignLooksUpLast(RegisterAll(front), front, last);
    }
  }

  lemma AssignLooksUpLast(r: Registry, handles: seq<FullHandle>, full: FullHandle)
    requires r.nextGlobalHandle == |handles| + 1 && LooksUpLast(r, handles)
    ensures LooksUpLast(r.Assign(full), handles + [full])
  {
  }

  // The two maps are inverse to each other exactly when no sub-HAL lists a handle twice.
  lemma MutualInverseIffDistinct(handles: seq<FullHandle>)
    ensures RegisterAll(handles).MutualInverse() <==> Distinct(handles)
  {
    var r := RegisterAll(handles);
    RegisterAllNumbersInOrder(handles);
    if i, j :| 0 <= i < j < |handles| && handles[i] == handles[j] {
      assert r.globalToFull[i + 1] == r.globalToFull[j + 1];
    }
  }

  // -1 is never a registered handle, so it marks unknown sensors unambiguously.
  lemma UnknownIsMinusOne(handles: seq<FullHandle>, full: FullHandle)
    ensures RegisterAll(handles).GlobalHandle(full) == -1 <==> full !in handles
  {
    RegisterAllNumbersInOrder(handles);
  }

  // A global handle that was never given out has neither module nor local handle.
  lemma UnknownGlobalHandle(handles: seq<FullHandle>, g: int)
    requires g < 1 || |handles| < g
    ensures RegisterAll(handles).LocalHandle(g) == RegisterAll(handles).ModuleIndex(g) == -1
  {
    RegisterAllNumbersInOrder(handles);
  }

  // Routing a registered sensor's global handle finds its module and local handle.
  lemma HandlesRouteBack(handles: seq<FullHandle>, full: FullHandle)
    requires full in handles
    ensures var r := RegisterAll(handles);
            FullHandle(r.ModuleIndex(r.GlobalHandle(full)), r.LocalHandle(r.GlobalHandle(full))) == full
  {
    RegisterAllNumbersInOrder(handles);
  }

  // ---- The start-up loop ----

  function Concat<T>(lists: seq<seq<T>>): seq<T> {
    if lists == [] then [] else Concat(lists[..|lists| - 1]) + lists[|lists| - 1]
  }

  // The full handles of one module's sensor list.
  function ModuleHandles(moduleIndex: nat, sensors: seq<Sensor>): seq<FullHandle> {
    seq(|sensors|, i requires 0 <= i < |sensors| => FullHandle(moduleIndex, sensors[i].handle))
  }

  function AllHandles(modules: seq<seq<Sensor>>): seq<FullHandle> {
    if modules == [] then []
    else AllHandles(modules[..|modules| - 1]) + ModuleHandles(|modules| - 1, modules[|modules| - 1])
  }

  lemma {:induction false} ConcatLength(modules: seq<seq<Sensor>>)
    ensures |Concat(modules)| == |AllHandles(modules)|
  {
    if modules != [] { ConcatLength(modules[..|modules| - 1]); }
  }

  // Where sensor i of module m ends up in the flattened list.
  lemma {:induction false} PlaceOfSensor(modules: seq<seq<Sensor>>, m: nat, i: nat)
    requires m < |modules| && i <= |modules[m]|
    ensures var at := |Concat(modules[..m])| + i;
            && |Concat(modules[..m + 1])| == |Concat(modules[..m])| + |modules[m]|
            && at <= |Concat(modules)| == |AllHandles(modules)|
            && (i < |modules[m]| ==>
                  && at < |Concat(modules)|
                  && Concat(modules)[at] == modules[m][i]
                  && AllHandles(modules)[at] == FullHandle(m, modules[m][i].handle))
    decreases |modules|
  {
    var front := modules[..|modules| - 1];
    ConcatLength(modules);
    ConcatLength(front);
    assert modules[..m + 1][..m] == modules[..m];
    if m < |front| {
      PlaceOfSensor(front, m, i);
      assert front[..m] == modules[..m];
    } else {
      assert modules[..m] == front;
    }
  }

  class HandleTable {
    var globalToFull: map<int, FullHandle>
    var fullToGlobal: map<FullHandle, int>
    var nextGlobalHandle: int

    function Value(): Registry
      reads this
    {
      Registry(globalToFull, fullToGlobal, nextGlobalHandle)
    }

    constructor ()
      ensures Value() == UNREGISTERED
    {
      globalToFull, fullToGlobal, nextGlobalHandle := map[], map[], 1;
    }

    method AssignGlobalHandle(moduleIndex: int, localHandle: int) returns (globalHandle: int)
      modifies this
      ensures globalHandle == old(nextGlobalHandle)
      ensures Value() == old(Value()).Assign(FullHandle(moduleIndex, localHandle))
    {
      globalHandle := nextGlobalHandle;
      nextGlobalHandle := nextGlobalHandle + 1;
      var full := FullHandle(moduleIndex, localHandle);
      fullToGlobal := fullToGlobal[full := globalHandle];
      globalToFull := globalToFull[globalHandle := full];
    }

    // The first `count` entries are the flattened list, numbered from 1.
    ghost predicate Numbered(modules: seq<seq<Sensor>>, list: array<Sensor>, count: nat)
      reads this, list
    {
      var sensors := Concat(modules);
      && count <= |sensors| == |AllHandles(modules)| == list.Length
      && Value() == RegisterAll(AllHandles(modules)[..count])
      && forall k :: 0 <= k < count ==> list[k] == sensors[k].(handle := k + 1)
    }

    // The inner loop: numbers the sensors of module m from `start` on.
    method NumberModule(modules: seq<seq<Sensor>>, m: nat, list: array<Sensor>, start: nat)
      returns (index: nat)
      requires m < |modules| && start == |Concat(modules[..m])| && Numbered(modules, list, start)
      modifies this, list
      ensures index == start + |modules[m]| && Numbered(modules, list, index)
    {
      index := start;
      for i := 0 to |modules[m]|
        invariant index == start + i && Numbered(modules, list, index)
      {
        PlaceOfSensor(modules, m, i);
        ghost var done := AllHandles(modules)[..index + 1];
        assert done[..index] == AllHandles(modules)[..index];
        RegisterAllNumbersInOrder(done[..index]);
        var globalHandle := AssignGlobalHandle(m, modules[m][i].handle);
        list[index] := modules[m][i].(handle := globalHandle);
        index := index + 1;
      }
    }

    // Numbers every sensor of every module and returns the list given to get_sensors_list callers.
    method LazyInitSensorsList(modules: seq<seq<Sensor>>) returns (list: array<Sensor>)
      requires Value() == UNREGISTERED
      modifies this
      ensures Value() == RegisterAll(AllHandles(modules))
      ensures fresh(list) && list.Length == |Concat(modules)| == |AllHandles(modules)|
      ensures forall i :: 0 <= i < list.Length ==> list[i] == Concat(modules)[i].(handle := i + 1)
      // handle - 1 is the index of that very sensor
      ensures forall g | g in globalToFull ::
                && 1 <= g <= list.Length
                && list[g - 1].handle == g
                && globalToFull[g] == AllHandles(modules)[g - 1]
    {
      var count := 0;
      for m := 0 to |modules|
        invariant count == |Concat(modules[..m])| && Value() == UNREGISTERED
      {
        PlaceOfSensor(modules, m, 0);
        count := count + |modules[m]|;
      }
      assert modules[..|modules|] == modules;

      ghost var handles := AllHandles(modules);
      ConcatLength(modules);
      list := new Sensor[count](_ => Sensor(0, 0));
      var index := 0;
      assert handles[..0] == [];
      for m := 0 to |modules|
        invariant index == |Concat(modules[..m])| && Numbered(modules, list, index)
      {
        PlaceOfSensor(modules, m, 0);
        index := NumberModule(modules, m, list, index);
      }
      assert handles[..index] == handles;
      RegisterAllNumbersInOrder(handles);
    }
  }
}
