/** The shared-memory pool of instrumentation slots (InstrShmemSize,
    InstrShmemInit, InstrAlloc, InstrFree).

    The region is an arena of `capacity` slots after a header. The header
    keeps the head of a singly-linked free list and the counts of free and
    in-use slots. A slot holds its free-list link, the owner's segment and
    process ids, and an embedded instrumentation record. Links are slot
    indices, with NULL (-1) for the null pointer. The process-wide pointer
    InstrumentGlobal is passed explicitly as a nullable header, and the
    gp_enable_query_metrics setting, Gp_segment and MyProcPid are parameters.
 */
module InstrPool {
  import opened FreeList
  import opened InstrRecord

  /** A slot's own fields; the record embedded in slot i is the header's records[i]. */
  datatype Slot = Slot(next: int, segid: int, pid: int)

  /** A slot filled with zero bytes: the zero pointer is the NULL link. */
  const EmptySlot := Slot(NULL, 0, 0)

  ghost function Links(s: seq<Slot>): seq<int>
  {
    seq(|s|, i requires 0 <= i < |s| => s[i].next)
  }

  /** The bytes to reserve: the header followed by `capacity` slots. */
  function InstrShmemSize(headerSize: nat, slotSize: nat, capacity: nat): (r: nat)
    ensures headerSize <= r
    ensures r == SlotOffset(headerSize, slotSize, capacity)
  {
    headerSize + capacity * slotSize
  }

  /** Where slot i starts: the slot array begins right after the header. */
  function SlotOffset(headerSize: nat, slotSize: nat, i: nat): nat
  {
    headerSize + i * slotSize
  }

  /** Each of the `capacity` slots lies inside the reserved region, after the header. */
  lemma SlotInRegion(headerSize: nat, slotSize: nat, capacity: nat, i: nat)
    requires i < capacity
    ensures headerSize <= SlotOffset(headerSize, slotSize, i)
    ensures SlotOffset(headerSize, slotSize, i) + slotSize <= InstrShmemSize(headerSize, slotSize, capacity)
  {
    assert (capacity - (i + 1)) * slotSize >= 0;
    assert capacity * slotSize == (i + 1) * slotSize + (capacity - (i + 1)) * slotSize;
  }

  /** Distinct slots do not overlap: slot i lies inside a region of j slots,
      which ends where slot j begins. */
  lemma SlotsDisjoint(headerSize: nat, slotSize: nat, i: nat, j: nat)
    requires i < j
    ensures SlotOffset(headerSize, slotSize, i) + slotSize <= SlotOffset(headerSize, slotSize, j)
  {
    SlotInRegion(headerSize, slotSize, j, i);
  }

  /** The header of the shared region, with the arena it manages. */
  class InstrumentationHeader {
    var head: int
    var free: int
    var inUse: int
    const slots: array<Slot>
    const records: seq<Instrumentation>
    /** The slots on the free list, from the head. */
    ghost var freeList: seq<int>

    ghost function Footprint(): set<object>
    {
      {this, slots} + set r | r in records
    }

    /** Slot i holds zero bytes apart from its free-list link. */
    ghost predicate SlotZeroed(i: int)
      reads slots, records
      requires 0 <= i < slots.Length == |records|
    {
      slots[i].segid == 0 && slots[i].pid == 0 && records[i].IsZero()
    }

    /** The pool invariant: free + in_use is the capacity, the free list from
        head has exactly `free` slots, no repeats and ends in NULL, and every
        slot on it is zeroed. */
    ghost predicate Valid()
      reads this, slots, records
    {
      slots.Length == |records| &&
      (forall i :: 0 <= i < |records| ==> records[i].slot == i) &&
      Chain(Links(slots[..]), head, freeList) &&
      free == |freeList| &&
      free + inUse == slots.Length &&
      (forall i :: i in freeList ==> 0 <= i < slots.Length && SlotZeroed(i))
    }

    /** `r` is the record of a slot that has been handed out and not returned. */
    ghost predicate InUse(r: Instrumentation)
      reads this
    {
      0 <= r.slot < |records| && records[r.slot] == r && r.slot !in freeList
    }

    /** InstrShmemInit: zero the arena, put every slot on the free list in
        order 0, 1, ..., capacity - 1, with free == capacity and in_use == 0. */
    constructor Init(capacity: nat)
      requires capacity >= 1
      ensures Valid() && fresh(slots)
      ensures forall i :: 0 <= i < |records| ==> fresh(records[i])
      ensures slots.Length == capacity
      ensures head == 0 && free == capacity && inUse == 0
      ensures freeList == Range(0, capacity)
      ensures forall i :: 0 <= i < capacity ==> SlotZeroed(i)
    {
      // the zero-filled region: the record embedded in each slot, then the slots
      var rs: seq<Instrumentation> := [];
      for i := 0 to capacity
        invariant |rs| == i
        invariant forall k :: 0 <= k < i ==> rs[k].slot == k && rs[k].IsZero() && fresh(rs[k])
      {
        var r := new Instrumentation(i);
        rs := rs + [r];
      }
      var a := new Slot[capacity](_ => EmptySlot);
      // each slot points to the next one; the last one to NULL
      for i := 0 to capacity - 1
        modifies a
        invariant forall k :: 0 <= k < i ==> a[k] == Slot(k + 1, 0, 0)
        invariant forall k :: i <= k < capacity ==> a[k] == EmptySlot
      {
        a[i] := a[i].(next := i + 1);
      }
      a[capacity - 1] := a[capacity - 1].(next := NULL);
      slots := a;
      records := rs;
      head := 0;
      inUse := 0;
      free := capacity;
      freeList := Range(0, capacity);
      new;
      ChainOfLinkedArena(Links(slots[..]), 0);
      RangeFacts(0, capacity);
    }

    /** The counts stay within the capacity: 0 <= free, in_use <= capacity. */
    lemma CountsBounded()
      requires Valid()
      ensures 0 <= free <= slots.Length && 0 <= inUse <= slots.Length
    {
      ChainFitsArena(Links(slots[..]), head, freeList);
    }

    /** A record of this pool whose residency flag is set has been handed out:
        the records of free slots are zero, so their flag is clear. */
    lemma SharedRecordsInUse(r: Instrumentation)
      requires Valid()
      requires r in records && r.inShmem
      ensures InUse(r)
    {
      var k :| 0 <= k < |records| && records[k] == r;
      assert r.slot == k;
    }

    /** The list is empty exactly when no slot is free. */
    lemma EmptyIffExhausted()
      requires Valid()
      ensures head == NULL <==> free == 0
    {
    }
  }

  /** InstrAlloc: pop the head of the free list when metrics are enabled, the
      pool exists and a slot is free; otherwise hand out a fresh zeroed
      private record. Either way the record starts zeroed. */
  method InstrAlloc(global: InstrumentationHeader?, enableQueryMetrics: bool, segment: int, procPid: int)
    returns (instr: Instrumentation)
    requires global != null ==> global.Valid()
    modifies if global != null then global.Footprint() else {}
    ensures global != null ==> global.Valid()
    ensures instr.State() == Zeroed
    ensures instr.inShmem <==> enableQueryMetrics && global != null && old(global.free) > 0
    ensures !instr.inShmem ==>
      fresh(instr) && instr.slot == Private && (global != null ==> unchanged(global.Footprint()))
    ensures instr.inShmem ==>
      var h := old(global.head);
      h == instr.slot && instr == global.records[h] &&
      global.head == old(global.slots[h].next) &&
      global.free == old(global.free) - 1 && global.inUse == old(global.inUse) + 1 &&
      global.freeList == old(global.freeList)[1..] &&
      global.slots[h] == Slot(NULL, segment, procPid) &&
      global.InUse(instr) &&
      (forall j :: 0 <= j < global.slots.Length && j != h ==>
         global.slots[j] == old(global.slots[j]) && unchanged(global.records[j]))
  {
    var shared: Instrumentation? := null;
    if enableQueryMetrics && global != null {
      global.EmptyIffExhausted();
      // the critical section: pick the first free slot
      var slot := global.head;
      ghost var links := Links(global.slots[..]);
      ghost var l := global.freeList;
      if slot != NULL {
        assert slot == l[0] && slot in l && global.SlotZeroed(slot);
        global.head := global.slots[slot].next;
        global.free := global.free - 1;
        global.inUse := global.inUse + 1;
        global.freeList := global.freeList[1..];
      }
      ghost var oldSlots := global.slots[..];
      if slot != NULL {
        // initialise the picked slot
        global.slots[slot] := global.slots[slot].(next := NULL);
        shared := global.records[slot];
        shared.inShmem := true;
        global.slots[slot] := global.slots[slot].(segid := segment, pid := procPid);
        assert Links(global.slots[..]) == links[slot := NULL];
        ChainPop(links, slot, l, NULL);
        assert forall k :: 0 <= k < |l| - 1 ==> l[1..][k] == l[k + 1];
        assert slot !in global.freeList;
        forall j | j in global.freeList
          ensures 0 <= j < global.slots.Length && global.SlotZeroed(j)
        {
          assert j in l && j != slot;
          assert global.slots[j] == oldSlots[j];
          assert global.records[j].slot == j;
        }
      }
    }
    if shared == null {
      instr := new Instrumentation(Private);
    } else {
      instr := shared;
    }
  }

  /** InstrFree: give a shared record's slot back, zeroed, at the head of the
      free list. Nothing happens for a null record, an absent pool or a
      private record. */
  method InstrFree(global: InstrumentationHeader?, instr: Instrumentation?)
    requires global != null ==> global.Valid()
    requires global != null && instr != null && instr.inShmem ==> global.InUse(instr)
    modifies if global != null then global.Footprint() else {}
    ensures global != null ==> global.Valid()
    ensures instr == null || global == null || !old(instr.inShmem) ==>
      global != null ==> unchanged(global.Footprint())
    ensures global != null && instr != null && old(instr.inShmem) ==>
      var i := instr.slot;
      instr.IsZero() &&
      global.head == i && global.slots[i] == Slot(old(global.head), 0, 0) &&
      global.free == old(global.free) + 1 && global.inUse == old(global.inUse) - 1 &&
      global.freeList == [i] + old(global.freeList) &&
      (forall j :: 0 <= j < global.slots.Length && j != i ==>
         global.slots[j] == old(global.slots[j]) && unchanged(global.records[j]))
  {
    if instr == null {
      return;
    }
    if global == null {
      return;
    }
    if instr.inShmem {
      var i := instr.slot;
      ghost var links := Links(global.slots[..]);
      ghost var l := global.freeList;
      // zero the whole slot
      global.slots[i] := EmptySlot;
      assert instr in global.records;
      instr.Clear();
      // the critical section: push the slot at the head
      global.slots[i] := global.slots[i].(next := global.head);
      global.head := i;
      global.free := global.free + 1;
      global.inUse := global.inUse - 1;
      global.freeList := [i] + global.freeList;
      assert Links(global.slots[..]) == links[i := old(global.head)];
      ChainPush(links, old(global.head), l, i);
    }
  }

  /** Freeing the same record twice: the first call zeroes its slot, residency
      flag included, so the second call finds a private-looking record and
      leaves the pool alone. */
  method FreeTwiceIsFreeOnce(global: InstrumentationHeader, a: Instrumentation)
    requires global.Valid()
    requires a.inShmem && global.InUse(a)
    modifies global.Footprint()
    ensures global.Valid()
    ensures global.free == old(global.free) + 1 && global.inUse == old(global.inUse) - 1
    ensures global.head == a.slot && global.freeList == [a.slot] + old(global.freeList)
    ensures a.IsZero() && global.slots[a.slot] == Slot(old(global.head), 0, 0)
    ensures forall j :: 0 <= j < global.slots.Length && j != a.slot ==>
      global.slots[j] == old(global.slots[j]) && unchanged(global.records[j])
  {
    InstrFree(global, a);
    InstrFree(global, a);
  }

  /** The owner drives its handed-out record through one cycle of the node
      (InstrStartNode, InstrStopNode, InstrEndLoop). Only the record changes,
      so the pool invariant holds throughout and the record stays handed out. */
  method InstrDriveNode(global: InstrumentationHeader, r: Instrumentation, startAt: int, n: int, stopAt: int)
    returns (twice: bool, withoutStart: bool, stillRunning: bool)
    requires global.Valid() && global.InUse(r)
    modifies r
    ensures global.Valid() && global.InUse(r)
    ensures r.inShmem == old(r.inShmem)
    ensures r.State() == Run(old(r.State()), [StartCall(startAt), StopCall(n, stopAt), EndLoopCall])
  {
    ghost var s0 := r.State();
    twice := r.InstrStartNode(startAt);
    withoutStart := r.InstrStopNode(n, stopAt);
    stillRunning := r.InstrEndLoop();
    assert [StartCall(startAt), StopCall(n, stopAt), EndLoopCall][1..] == [StopCall(n, stopAt), EndLoopCall];
    assert [StopCall(n, stopAt), EndLoopCall][1..] == [EndLoopCall];
    assert Run(Stop(Start(s0, startAt), n, stopAt), [EndLoopCall]) == r.State();
    forall j | j in global.freeList
      ensures 0 <= j < global.slots.Length && global.SlotZeroed(j)
    {
      assert old(global.SlotZeroed(j));
      assert global.records[j] != r;
    }
  }

  /** The life of one record: allocate it, drive it through a cycle and
      release it. A shared record comes back to the pool, so the counts end
      where they started and the invariant holds. */
  method InstrLifecycle(global: InstrumentationHeader, enableQueryMetrics: bool, segment: int, procPid: int,
                        startAt: int, n: int, stopAt: int)
    returns (shared: bool)
    requires global.Valid()
    modifies global.Footprint()
    ensures global.Valid()
    ensures shared <==> enableQueryMetrics && old(global.free) > 0
    ensures global.free == old(global.free) && global.inUse == old(global.inUse)
  {
    var instr := InstrAlloc(global, enableQueryMetrics, segment, procPid);
    shared := instr.inShmem;
    if shared {
      var _, _, _ := InstrDriveNode(global, instr, startAt, n, stopAt);
    } else {
      var _ := instr.InstrStartNode(startAt);
      var _ := instr.InstrStopNode(n, stopAt);
      var _ := instr.InstrEndLoop();
    }
    InstrFree(global, instr);
  }

  /** The free list is last in, first out: after freeing a and then b, the
      next two allocations hand out b and then a. */
  method FreeListIsLifo(global: InstrumentationHeader, a: Instrumentation, b: Instrumentation,
                        segment: int, procPid: int)
    returns (first: Instrumentation, second: Instrumentation)
    requires global.Valid()
    requires a.inShmem && b.inShmem && a != b
    requires global.InUse(a) && global.InUse(b)
    modifies global.Footprint()
    ensures global.Valid()
    ensures first == b && second == a
    ensures global.free == old(global.free) && global.inUse == old(global.inUse)
  {
    InstrFree(global, a);
    InstrFree(global, b);
    first := InstrAlloc(global, true, segment, procPid);
    second := InstrAlloc(global, true, segment, procPid);
  }

  /** With no free slot the pool is exhausted and InstrAlloc falls back to a
      private record; once a slot is freed, the next InstrAlloc reuses it. */
  method ExhaustedThenRecovered(global: InstrumentationHeader, a: Instrumentation,
                                segment: int, procPid: int)
    returns (fallback: Instrumentation, reused: Instrumentation)
    requires global.Valid() && global.free == 0
    requires a.inShmem && global.InUse(a)
    modifies global.Footprint()
    ensures global.Valid()
    ensures fresh(fallback) && !fallback.inShmem
    ensures reused == a && reused.inShmem && global.free == 0
  {
    fallback := InstrAlloc(global, true, segment, procPid);
    InstrFree(global, a);
    reused := InstrAlloc(global, true, segment, procPid);
  }
}
