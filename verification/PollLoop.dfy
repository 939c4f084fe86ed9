/** The inner loop of poll() as the source runs it, over the queue objects and the caller's
    buffer (device/huawei/mozart/sensors/multihal.cpp); proved to compute `PollScan.Scan`. */
module PollLoop {
  import opened Options
  import opened SensorQueue
  import opened SensorHandles
  import opened PollScan

  // The caller's buffer holds the delivered events, without their module index.
  ghost predicate Copied(delivered: seq<Tagged>, buffer: seq<Event>) {
    && |buffer| == |delivered|
    && forall k :: 0 <= k < |buffer| ==> buffer[k] == delivered[k].event
  }

  lemma CopiedMore(delivered: seq<Tagged>, buffer: seq<Event>, t: Tagged)
    requires Copied(delivered, buffer)
    ensures Copied(delivered + [t], buffer + [t.event])
  {
  }

  class PollContext {
    const queues: seq<SensorEventQueue>
    var nextReadIndex: nat

    ghost const Buffers: set<array<Event>> := set q | q in queues :: q.mData

    // The queues hold `rings`, one each.
    ghost predicate Holds(rings: seq<Ring>)
      reads this, queues, Buffers
    {
      && |rings| == |queues|
      && (forall i :: 0 <= i < |queues| ==> queues[i].Valid() && queues[i].Value() == rings[i])
      && (forall i, j :: 0 <= i < j < |queues| ==> queues[i] != queues[j])
      && (queues != [] ==> nextReadIndex < |queues|)
    }

    constructor (queues: seq<SensorEventQueue>, ghost rings: seq<Ring>)
      requires |rings| == |queues|
      requires forall i :: 0 <= i < |queues| ==> queues[i].Valid() && queues[i].Value() == rings[i]
      requires forall i, j :: 0 <= i < j < |queues| ==> queues[i] != queues[j]
      ensures Holds(rings) && this.queues == queues && nextReadIndex == 0
    {
      this.queues := queues;
      nextReadIndex := 0;
    }

    method CopyEventRemapHandle(reg: Registry, src: Event, subIndex: nat) returns (dest: Event)
      ensures dest.kind == src.kind && dest.payload == src.payload
      ensures if src.kind == META_DATA then dest.sensor == src.sensor else dest.metaSensor == src.metaSensor
      ensures var (local, global) := if src.kind == META_DATA then (src.metaSensor, dest.metaSensor)
                                     else (src.sensor, dest.sensor);
              var full := FullHandle(subIndex, local);
              && (full in reg.fullToGlobal ==> global == reg.fullToGlobal[full])
              && (full !in reg.fullToGlobal ==> global == -1)
    {
      dest := src;
      if dest.kind == META_DATA {
        dest := dest.(metaSensor := reg.GlobalHandle(FullHandle(subIndex, dest.metaSensor)));
      } else {
        dest := dest.(sensor := reg.GlobalHandle(FullHandle(subIndex, dest.sensor)));
      }
    }

    // One step on one queue: peek, copy, dequeue.
    method TakeOldest(i: nat, ghost rings: seq<Ring>) returns (event: Option<Event>, broadcast: bool)
      requires Holds(rings) && i < |queues|
      modifies queues[i]
      ensures nextReadIndex == old(nextReadIndex)
      ensures if rings[i].size == 0 then
                event == None && !broadcast && Holds(rings)
              else
                && event == Some(rings[i].data[rings[i].start])
                && broadcast == rings[i].Full()
                && Holds(rings[i := rings[i].Dequeue()])
    {
      event := queues[i].Peek();
      broadcast := false;
      if event.Some? {
        assert queues[i].Value().SlotOf(0) == queues[i].mStart;
        broadcast := queues[i].Dequeue();
      }
    }

    // The loop's variables agree with the pass `p`.
    ghost predicate At(p: Pass, data: array<Event>, empties: nat, eventsRead: nat, woken: set<nat>)
      reads this, queues, Buffers, data
    {
      && Holds(p.rings) && p.nextReadIndex == nextReadIndex
      && p.empties == empties && p.woken == woken
      && eventsRead <= data.Length && Copied(p.data, data[..eventsRead])
    }

    // Copies the event behind those already read; counts it unless its handle is bad.
    method PassOn(reg: Registry, data: array<Event>, eventsRead: nat, event: Event, subIndex: nat)
      returns (eventsRead': nat)
      requires eventsRead < data.Length
      modifies data
      ensures eventsRead' == if Dropped(reg, subIndex, event) then eventsRead else eventsRead + 1
      ensures data[..eventsRead'] == old(data[..eventsRead])
                + if Dropped(reg, subIndex, event) then [] else [Remap(reg, subIndex, event)]
    {
      eventsRead' := eventsRead;
      var dest := CopyEventRemapHandle(reg, event, subIndex);
      data[eventsRead] := dest;
      if dest.sensor != -1 {
        eventsRead' := eventsRead + 1;
      }
    }

    // The loop body: visits one queue and returns the new empties, eventsRead and woken.
    method VisitQueue(reg: Registry, data: array<Event>, empties: nat, eventsRead: nat,
                      woken: set<nat>, ghost p: Pass)
      returns (empties': nat, eventsRead': nat, woken': set<nat>)
      requires At(p, data, empties, eventsRead, woken)
      requires queues != [] && eventsRead < data.Length && data !in Buffers
      modifies `nextReadIndex, data, queues[nextReadIndex]
      ensures At(Visit(reg, p), data, empties', eventsRead', woken')
    {
      empties', eventsRead', woken' := empties + 1, eventsRead, woken;
      var event, broadcast := TakeOldest(nextReadIndex, p.rings);
      if event.Some? {
        empties' := 0;
        CopiedMore(p.data, data[..eventsRead],
                   Tagged(nextReadIndex, Remap(reg, nextReadIndex, event.value)));
        eventsRead' := PassOn(reg, data, eventsRead, event.value, nextReadIndex);
        if broadcast { woken' := woken + {nextReadIndex}; }
      }
      assert Holds(Visit(reg, p).rings) && data !in Buffers;
      SlotIsModulo(nextReadIndex + 1, |queues|);
      nextReadIndex := (nextReadIndex + 1) % |queues|;
    }

    method Scan(reg: Registry, data: array<Event>, maxReads: int, ghost rings: seq<Ring>)
      returns (eventsRead: nat, woken: set<nat>)
      requires Holds(rings) && maxReads <= data.Length && data !in Buffers
      modifies this, data, queues
      ensures var q := PollScan.Scan(reg, StartPass(rings, old(nextReadIndex)), maxReads);
              && Holds(q.rings) && nextReadIndex == q.nextReadIndex && woken == q.woken
              && eventsRead == |q.data| <= data.Length
              && Copied(q.data, data[..eventsRead])
    {
      var empties: nat, queueCount := 0, |queues|;
      eventsRead, woken := 0, {};
      ghost var p := StartPass(rings, nextReadIndex);
      ghost var result := PollScan.Scan(reg, p, maxReads);
      while empties < queueCount && eventsRead < maxReads
        invariant At(p, data, empties, eventsRead, woken)
        invariant PollScan.Scan(reg, p, maxReads) == result
        decreases TotalSize(p.rings), queueCount - empties
      {
        VisitMakesProgress(reg, p);
        empties, eventsRead, woken := VisitQueue(reg, data, empties, eventsRead, woken, p);
        p := Visit(reg, p);
      }
    }
  }
}
