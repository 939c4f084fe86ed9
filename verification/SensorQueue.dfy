/** The fixed-size circular queue that one sub-HAL fills and poll() drains
    (device/huawei/mozart/sensors/SensorEventQueue.cpp). `Ring` is its value, with one
    function per operation; `SensorEventQueue` is the mutable object, proved to follow `Ring`. */
module SensorQueue {

  import opened Options

  // A sensors_event_t. The inner handle of a metadata event is `metaSensor`.
  datatype Event = Event(kind: int, sensor: int, metaSensor: int, payload: int)

  // The slot `i % cap`, for the offsets below `2 * cap` that the queue forms.
  function Slot(i: nat, cap: nat): nat
    requires i < 2 * cap
  {
    if i < cap then i else i - cap
  }

  lemma SlotIsModulo(i: nat, cap: nat)
    requires i < 2 * cap
    ensures Slot(i, cap) == i % cap
  {
  }

  datatype Ring = Ring(data: seq<Event>, start: nat, size: nat) {
    predicate Valid() {
      && size <= |data|
      && (if |data| == 0 then start == 0 else start < |data|)
    }

    predicate Full() { size == |data| }

    // Where the i-th readable record is stored.
    function SlotOf(i: nat): (slot: nat)
      requires Valid() && i < size
    {
      Slot(start + i, |data|)
    }

    // The readable records, oldest first.
    function Contents(): (events: seq<Event>)
      requires Valid()
      ensures |events| == size
      ensures forall i :: 0 <= i < size ==> events[i] == data[SlotOf(i)]
    {
      seq(size, i requires 0 <= i < size => data[SlotOf(i)])
    }

    // First slot after the readable records.
    function FirstWritable(): nat
      requires Valid() && !Full()
    {
      Slot(start + size, |data|)
    }

    // Length of the region handed out at FirstWritable, in the order of the source's cuts:
    // the request, then the end of the array, then the readable region.
    function WritableLength(requested: int): int
      requires Valid() && !Full()
    {
      var first := FirstWritable();
      var last := first + requested - 1;
      var inArray := if last > |data| - 1 then |data| - 1 else last;
      var beforeStart := if first < start && inArray >= start then start - 1 else inArray;
      beforeStart - first + 1
    }

    // A writer still owns [first, first + length), which it was handed at some earlier time.
    predicate Reserved(first: nat, length: nat) {
      && Valid()
      && 0 < length <= |data| - size
      && first + length <= |data|
      && first == FirstWritable()
    }

    function Store(slot: nat, e: Event): Ring
      requires slot < |data|
    {
      this.(data := data[slot := e])
    }

    function MarkAsWritten(count: nat): Ring {
      this.(size := size + count)
    }

    function Dequeue(): Ring
      requires Valid() && 0 < size
    {
      Ring(data, Slot(start + 1, |data|), size - 1)
    }
  }

  // ---- What a region is ----

  // The header's contract for getWritableRegion, made exact: the region is the longest
  // contiguous one within the request, and it meets no readable slot.
  lemma RegionIsMaximalAndDisjoint(r: Ring, requested: int)
    requires r.Valid() && !r.Full() && 0 < requested
    ensures var first, length := r.FirstWritable(), r.WritableLength(requested);
            && r.Reserved(first, length)
            && length <= requested
            && (length < requested ==> first + length == |r.data| || length == |r.data| - r.size)
            && forall i :: 0 <= i < r.size ==> !(first <= r.SlotOf(i) < first + length)
  {
  }

  // The draining side only ever moves the start forward, so the region stays where it was.
  lemma DequeueKeepsReservation(r: Ring, first: nat, length: nat)
    requires r.Reserved(first, length) && 0 < r.size
    ensures r.Dequeue().Reserved(first, length)
  {
  }

  lemma DequeueDropsOldest(r: Ring)
    requires r.Valid() && 0 < r.size
    ensures r.Dequeue().Valid() && r.Contents() == [r.data[r.start]] + r.Dequeue().Contents()
  {
  }

  // Writing outside the lock is invisible to the reader.
  lemma StoreInReservationKeepsContents(r: Ring, first: nat, length: nat, k: nat, e: Event)
    requires r.Reserved(first, length) && k < length
    ensures r.Store(first + k, e).Reserved(first, length)
    ensures r.Store(first + k, e).Contents() == r.Contents()
  {
  }

  // Committing a prefix of the region appends exactly what was written there.
  lemma CommitAppendsRegion(r: Ring, first: nat, length: nat, count: nat)
    requires r.Reserved(first, length) && count <= length
    ensures r.MarkAsWritten(count).Valid()
    ensures r.MarkAsWritten(count).Contents() == r.Contents() + r.data[first..first + count]
  {
  }

  // ---- The object ----

  class SensorEventQueue {
    const mCapacity: nat
    var mStart: nat
    var mSize: nat
    const mData: array<Event>

    ghost predicate Valid()
      reads this, mData
    {
      mData.Length == mCapacity && Value().Valid()
    }

    ghost function Value(): Ring
      reads this, mData
    {
      Ring(mData[..], mStart, mSize)
    }

    constructor (capacity: nat, blank: Event)
      ensures Valid() && fresh(mData)
      ensures mCapacity == capacity && Value().Contents() == []
    {
      mCapacity := capacity;
      mStart, mSize := 0, 0;
      mData := new Event[capacity](_ => blank);
    }

    // Returns the first slot of the region (None for the null pointer) and its length.
    method GetWritableRegion(requestedLength: int) returns (out: Option<nat>, length: int)
      requires Valid()
      ensures mSize == mCapacity || requestedLength <= 0 ==> out == None && length == 0
      ensures mSize < mCapacity && 0 < requestedLength ==>
                && out == Some(Value().FirstWritable())
                && length == Value().WritableLength(requestedLength)
                && 0 < length && Value().Reserved(out.value, length)
    {
      if mSize == mCapacity || requestedLength <= 0 {
        return None, 0;
      }
      SlotIsModulo(mStart + mSize, mCapacity);
      RegionIsMaximalAndDisjoint(Value(), requestedLength);
      var firstWritable := (mStart + mSize) % mCapacity;
      var lastWritable := firstWritable + requestedLength - 1;
      if lastWritable > mCapacity - 1 {
        lastWritable := mCapacity - 1;
      }
      if firstWritable < mStart && lastWritable >= mStart {
        lastWritable := mStart - 1;
      }
      out, length := Some(firstWritable), lastWritable - firstWritable + 1;
    }

    // The sub-HAL's poll() filling the region it was handed, without the lock.
    method FillRegion(ghost length: nat, first: nat, events: seq<Event>)
      requires Valid() && Value().Reserved(first, length) && |events| <= length
      modifies mData
      ensures Valid() && Value().Reserved(first, length)
      ensures Value().Contents() == old(Value().Contents())
      ensures mData[first..first + |events|] == events
    {
      for k := 0 to |events|
        invariant Valid() && Value().Reserved(first, length)
        invariant Value().Contents() == old(Value().Contents())
        invariant mData[first..first + k] == events[..k]
      {
        StoreInReservationKeepsContents(Value(), first, length, k, events[k]);
        ghost var before := Value();
        mData[first + k] := events[k];
        assert Value() == before.Store(first + k, events[k]);
      }
    }

    // Commits `count` records of the region the one writer was handed.
    method MarkAsWritten(count: nat, ghost first: nat, ghost length: nat)
      requires Valid() && Value().Reserved(first, length) && count <= length
      modifies `mSize
      ensures Valid() && Value() == old(Value()).MarkAsWritten(count)
      ensures Value().Contents() == old(Value().Contents()) + mData[first..first + count]
    {
      CommitAppendsRegion(Value(), first, length, count);
      mSize := mSize + count;
    }

    method GetSize() returns (size: nat)
      requires Valid()
      ensures size == |Value().Contents()|
    {
      size := mSize;
    }

    method Peek() returns (event: Option<Event>)
      requires Valid()
      ensures event == if Value().Contents() == [] then None else Some(Value().Contents()[0])
    {
      if mSize == 0 { return None; }
      assert Value().SlotOf(0) == mStart;
      event := Some(mData[mStart]);
    }

    // `broadcast` tells whether the writer waiting for space is woken.
    method Dequeue() returns (broadcast: bool)
      requires Valid()
      modifies `mSize, `mStart
      ensures Valid()
      ensures broadcast == (0 < old(mSize) == mCapacity)
      ensures Value() == if old(mSize) == 0 then old(Value()) else old(Value()).Dequeue()
      ensures old(Value().Contents()) != [] ==>
                Value().Contents() == old(Value().Contents())[1..]
      ensures forall first: nat, length: nat ::
                old(Value().Reserved(first, length)) ==> Value().Reserved(first, length)
    {
      if mSize == 0 { return false; }
      DequeueDropsOldest(Value());
      SlotIsModulo(mStart + 1, mCapacity);
      broadcast := mSize == mCapacity;
      mSize := mSize - 1;
      mStart := (mStart + 1) % mCapacity;
    }
  }
}
